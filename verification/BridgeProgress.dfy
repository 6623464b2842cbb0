/** The redeem path can be walked from end to end: a request that the vault can fund is paid and completed. */
module BridgeProgress {
  import opened Common
  import opened Assembler
  import opened Withdraw
  import opened Bridge
  import BP = BridgeProofs
  import V = Vault
  import VR = VaultRuns
  import VS = VaultScripts
  import VL = VaultLocks
  import R = Redeem

  /** `steps` leads to s. */
  ghost predicate Leads(cfg: Config, steps: seq<Step>, s: Bridge) {
    Run(cfg, steps) && Final(cfg, steps) == s
  }

  lemma Next(cfg: Config, steps: seq<Step>, s: Bridge, st: Step, u: Bridge)
    requires Leads(cfg, steps, s) && Enabled(s, st) && Do(cfg, s, st) == u
    ensures Leads(cfg, steps + [st], u)
  {
    BP.RunSnoc(cfg, steps, st);
  }

  function VaultMarks(n: nat): seq<Step> {
    if n == 0 then [] else VaultMarks(n - 1) + [VaultStep(VR.Mark)]
  }

  /** The statements of a selection, as steps of the bridge. */
  lemma {:induction false} MarksLead(cfg: Config, steps: seq<Step>, s: Bridge, n: nat)
    requires Leads(cfg, steps, s) && VR.Run(s.vault, VS.Marks(n))
    ensures Leads(cfg, steps + VaultMarks(n), s.(vault := VR.After(s.vault, VS.Marks(n))))
  {
    if n == 0 {
      assert steps + [] == steps;
    } else {
      var marks := VS.Marks(n);
      assert marks[..n - 1] == VS.Marks(n - 1) by { MarksLength(n); MarksLength(n - 1); }
      assert marks[|marks| - 1] == VR.Mark;
      MarksLength(n);
      MarksLead(cfg, steps, s, n - 1);
      var t := s.(vault := VR.After(s.vault, VS.Marks(n - 1)));
      Next(cfg, steps + VaultMarks(n - 1), t, VaultStep(VR.Mark), s.(vault := VR.After(s.vault, marks)));
      assert steps + VaultMarks(n) == steps + VaultMarks(n - 1) + [VaultStep(VR.Mark)];
    }
  }

  lemma {:induction false} MarksLength(n: nat)
    ensures |VS.Marks(n)| == n
  {
    if n > 0 {
      MarksLength(n - 1);
    }
  }

  /** A request that can be met from one output of the bridge. */
  predicate Fundable(cfg: Config, r: R.RequestedEvent, k: Key, worth: nat) {
    && R.RequestOk(r) && r.validReceiver && !R.ZeroAddress(r.requester)
    && k.txId != ZERO_HASH && 0 <= k.vout < 0x1_0000 && worth >= r.amount.value + 10_000
    && cfg.net.decodes(Remove0xPrefix(r.receiver)) && cfg.net.decodes(cfg.change)
  }

  /** The vault holds the output and a request for h is stored. */
  lemma Requested(cfg: Config, r: R.RequestedEvent, k: Key, worth: nat) returns (s: Bridge)
    requires Fundable(cfg, r, k, worth)
    ensures Leads(cfg, [UserRequests(r), SeeRequested(r), VaultStep(VR.Add(k, 0, 0, worth, []))], s)
    ensures s == Bridge(VR.START.(table := map[k := V.NewUtxo(0, 0, worth, [])]), map[r.request := R.RequestedRow(r)],
                        {r}, {}, Book(map[], [], multiset{}), map[])
  {
    var add := VaultStep(VR.Add(k, 0, 0, worth, []));
    var a := START.(requests := {r});
    var b := a.(redeems := map[r.request := R.RequestedRow(r)]);
    s := b.(vault := VR.START.(table := map[k := V.NewUtxo(0, 0, worth, [])]));
    R.RequestHandled(map[], r);
    assert map[][r.request := R.RequestedRow(r)] == map[r.request := R.RequestedRow(r)];
    Next(cfg, [], START, UserRequests(r), a);
    Next(cfg, [UserRequests(r)], a, SeeRequested(r), b);
    Next(cfg, [UserRequests(r), SeeRequested(r)], b, add, s);
    assert [] + [UserRequests(r)] == [UserRequests(r)];
    assert [UserRequests(r)] + [SeeRequested(r)] == [UserRequests(r), SeeRequested(r)];
    assert [UserRequests(r), SeeRequested(r)] + [add] == [UserRequests(r), SeeRequested(r), add];
  }

  /** The vault serves the request from its only output. */
  lemma Served(cfg: Config, steps: seq<Step>, s: Bridge, h: Hash, k: Key) returns (u: Bridge)
    requires Leads(cfg, steps, s) && h in s.redeems && s.redeems[h].status == R.Requested && s.redeems[h].amount > 0
    requires s.vault.claim.None? && s.vault.services == [] && s.vault.table.Keys == {k} && k in V.Usable(s.vault.table)
    requires s.vault.table[k].linkedId.None? && s.vault.table[k].amount >= s.redeems[h].amount + V.SAFE_MARGIN
    ensures Leads(cfg, steps + [Request(h, [k], [0])] + VaultMarks(3), u)
    ensures u == s.(vault := u.vault, jobs := s.jobs[h := s.redeems[h]])
    ensures |u.vault.services| == 1 && u.vault.services[0].id == Some(h) && u.vault.services[0].sel == [k]
    ensures V.Amounts(u.vault.table) == V.Amounts(s.vault.table)
  {
    var target := s.redeems[h].amount + V.SAFE_MARGIN;
    var c := VR.Claim(Some(h), target, [k], [0], |s.vault.log|, []);
    VL.OneRowChosen(s.vault.table, k, target, h);
    assert [0][..1] == [0];
    var t := s.(vault := s.vault.(claim := Some(c)), jobs := s.jobs[h := s.redeems[h]]);
    Next(cfg, steps, s, Request(h, [k], [0]), t);
    VS.MarksRun(t.vault, 3);
    MarksLead(cfg, steps + [Request(h, [k], [0])], t, 3);
    u := t.(vault := VS.Advanced(t.vault, 3));
    VS.ScriptKeeps(t.vault.table, VS.Ahead(t.vault, 3));
  }

  /** The preparation lands on the chain and is seen. */
  lemma Prepared(cfg: Config, steps: seq<Step>, s: Bridge, h: Hash, k: Key, prepare: Hash) returns (u: Bridge)
    requires Leads(cfg, steps, s) && s.redeems.Keys == {h} && h in s.jobs && s.jobs[h] == s.redeems[h]
    requires s.redeems[h].status == R.Requested && s.redeems[h].btcTxId.None? && R.ChecksOk(h, s.redeems[h])
    requires |s.vault.services| == 1 && s.vault.services[0].id == Some(h) && s.vault.services[0].sel == [k]
    requires k.txId != ZERO_HASH && 0 <= k.vout < 0x1_0000 && prepare != ZERO_HASH
    ensures var p := Echo(h, prepare, s.jobs[h], [k]);
            && Leads(cfg, steps + [Land(0, prepare)] + [SeePrepared(p)], u)
            && u == s.(prepares := s.prepares + {p}, redeems := u.redeems)
            && u.redeems == s.redeems[h := s.redeems[h].(prepare := Some(prepare), status := R.Prepared, outpoints := [ToOutpoint(k)])]
  {
    var p := Echo(h, prepare, s.jobs[h], [k]);
    var t := s.(prepares := s.prepares + {p});
    Next(cfg, steps, s, Land(0, prepare), t);
    R.StoredPreparedHandled(t.redeems, p);
    assert R.Zip(p.txIds, p.idxs) == [ToOutpoint(k)];
    u := Do(cfg, t, SeePrepared(p));
    Next(cfg, steps + [Land(0, prepare)], t, SeePrepared(p), u);
  }

  /** The prepared redeem is paid and the payment recorded. */
  lemma Paid(cfg: Config, steps: seq<Step>, s: Bridge, h: Hash, txId: Hash) returns (t: Bridge)
    requires Leads(cfg, steps, s) && h in s.redeems && s.redeems[h].status == R.Prepared && s.book == START.book
    requires cfg.net.decodes(Remove0xPrefix(s.redeems[h].receiver)) && cfg.net.decodes(cfg.change)
    ensures Leads(cfg, steps + [Withdraw(h, Answer(true, Some(txId), true))], t)
    ensures t == s.(book := t.book) && t.book.tracking == map[h := RedeemAction(txId, true, false)]
    ensures |t.book.sent| == 1 && t.book.sent[0].request == h && t.book.sent[0].tx.inputs == KeysOf(s.redeems[h].outpoints)
  {
    var answer := Answer(true, Some(txId), true);
    BP.PreparedIsPaid(cfg, steps, h, answer);
    PaysExactly(cfg, s.vault.table, s.book, h, s.redeems[h], answer);
    t := Do(cfg, s, Withdraw(h, answer));
    Next(cfg, steps, s, Withdraw(h, answer), t);
  }

  /** The recorded payment is mined and the redeem completed. */
  lemma Completed(cfg: Config, steps: seq<Step>, t: Bridge, h: Hash, txId: Hash) returns (u: Bridge)
    requires Leads(cfg, steps, t) && t.redeems.Keys == {h} && txId != ZERO_HASH
    requires t.book.tracking == map[h := RedeemAction(txId, true, false)]
    ensures Leads(cfg, steps + [Mined(h, txId, t.redeems[h].amount, true)], u)
    ensures h in u.redeems && u.redeems[h] == t.redeems[h].(btcTxId := Some(txId), status := R.Completed)
    ensures u.book.sent == t.book.sent && h in u.book.tracking && u.book.tracking[h].mined
  {
    BP.Always(cfg, steps);
    assert BP.RR.RowOk(h, t.redeems[h]);
    R.RedeemedHandled(t.redeems, h, txId, Some(t.redeems[h].amount));
    CompletionMarks(t.book, h);
    u := Do(cfg, t, Mined(h, txId, t.redeems[h].amount, true));
    Next(cfg, steps, t, Mined(h, txId, t.redeems[h].amount, true), u);
  }

  /** A run from the request to the completion. */
  function Path(r: R.RequestedEvent, k: Key, worth: nat, prepare: Hash, txId: Hash): seq<Step>
    requires R.RequestOk(r)
  {
    var h := r.request;
    [UserRequests(r), SeeRequested(r), VaultStep(VR.Add(k, 0, 0, worth, []))]
    + [Request(h, [k], [0])] + VaultMarks(3)
    + [Land(0, prepare)] + [SeePrepared(Echo(h, prepare, R.RequestedRow(r), [k]))]
    + [Withdraw(h, Answer(true, Some(txId), true))] + [Mined(h, txId, r.amount.value, true)]
  }

  /** Every fundable request can be served: there is a run after which it is completed by the transaction that the node
      accepted, which spends the output, was broadcast once and is recorded as mined. */
  lemma RedeemCompletes(cfg: Config, r: R.RequestedEvent, k: Key, worth: nat, prepare: Hash, txId: Hash)
    requires Fundable(cfg, r, k, worth) && prepare != ZERO_HASH && txId != ZERO_HASH
    ensures Run(cfg, Path(r, k, worth, prepare, txId))
    ensures var s := Final(cfg, Path(r, k, worth, prepare, txId)); var h := r.request;
            && h in s.redeems && s.redeems[h].status == R.Completed && s.redeems[h].btcTxId == Some(txId)
            && |s.book.sent| == 1 && s.book.sent[0].request == h && s.book.sent[0].tx.inputs == [k]
            && h in s.book.tracking && s.book.tracking[h].mined
  {
    var h := r.request;
    var start := [UserRequests(r), SeeRequested(r), VaultStep(VR.Add(k, 0, 0, worth, []))];
    var s := Requested(cfg, r, k, worth);
    var t := Served(cfg, start, s, h, k);
    var upto := start + [Request(h, [k], [0])] + VaultMarks(3);
    var u := Prepared(cfg, upto, t, h, k, prepare);
    var after := upto + [Land(0, prepare)] + [SeePrepared(Echo(h, prepare, R.RequestedRow(r), [k]))];
    var v := Paid(cfg, after, u, h, txId);
    var w := Completed(cfg, after + [Withdraw(h, Answer(true, Some(txId), true))], v, h, txId);
    BP.VoutRoundTrip(k);
    assert KeysOf([ToOutpoint(k)]) == [k];
  }
}

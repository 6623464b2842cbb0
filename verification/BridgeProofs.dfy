/** Safety of the redeem path over all runs. */
module BridgeProofs {
  import opened Common
  import opened Assembler
  import opened Withdraw
  import opened Bridge
  import V = Vault
  import VR = VaultRuns
  import R = Redeem
  import RR = RedeemRuns

  // ---------- The invariant ----------

  /** A valid request on the chain asked for exactly this. */
  ghost predicate Asked(requests: set<R.RequestedEvent>, h: Hash, requester: R.Bytes, receiver: string, amount: int) {
    R.RequestedEvent(h, requester, receiver, Some(amount), true) in requests
  }

  ghost predicate AskedRow(requests: set<R.RequestedEvent>, h: Hash, row: R.Row) {
    Asked(requests, h, row.requester, row.receiver, row.amount)
  }

  predicate SameBase(r: R.Row, q: R.Row) {
    r.requester == q.requester && r.receiver == q.receiver && r.amount == q.amount
  }

  /** Selection c was returned for h, with these outpoints, for the amount plus the withdrawal fee. */
  ghost predicate BackedBy(c: VR.Claim, h: Hash, os: seq<BtcOutpoint>, amount: int) {
    c.id == Some(h) && c.sel == KeysOf(os) && c.target == amount + BTC_TX_FEE
  }

  ghost predicate Backed(services: seq<VR.Claim>, h: Hash, os: seq<BtcOutpoint>, amount: int) {
    exists c :: c in services && BackedBy(c, h, os, amount)
  }

  predicate Settled(row: R.Row) {
    row.status == R.Prepared || row.status == R.Completed
  }

  /** A selection asked for the amount of its job plus the margin. */
  ghost predicate ForJob(jobs: map<Hash, R.Row>, c: VR.Claim) {
    c.id.Some? && c.id.value in jobs && c.target == jobs[c.id.value].amount + V.SAFE_MARGIN
  }

  ghost predicate InvVault(s: Bridge) {
    && VR.Inv(s.vault)
    && (forall k :: k in s.vault.table ==> 0 <= k.vout < 0x1_0000)
    && (forall c :: c in s.vault.services ==> ForJob(s.jobs, c))
    && (s.vault.claim.Some? ==> ForJob(s.jobs, s.vault.claim.value))
  }

  ghost predicate InvJobs(s: Bridge) {
    forall h :: h in s.jobs ==>
                  h in s.redeems && SameBase(s.redeems[h], s.jobs[h]) && AskedRow(s.requests, h, s.jobs[h])
  }

  ghost predicate EventOk(s: Bridge, p: R.PreparedEvent) {
    && |p.txIds| == |p.idxs| && Backed(s.vault.services, p.request, R.Zip(p.txIds, p.idxs), p.amount)
    && Asked(s.requests, p.request, p.requester, p.receiver, p.amount)
  }

  ghost predicate InvEvents(s: Bridge) {
    forall p :: p in s.prepares ==> EventOk(s, p)
  }

  ghost predicate RowBacked(s: Bridge, h: Hash, row: R.Row) {
    && row.prepare.Some? && (forall o :: o in row.outpoints ==> o.txId != ZERO_HASH)
    && Backed(s.vault.services, h, row.outpoints, row.amount)
  }

  ghost predicate InvRow(s: Bridge, h: Hash, row: R.Row) {
    (row.status != R.Invalid ==> AskedRow(s.requests, h, row)) && (Settled(row) ==> RowBacked(s, h, row))
  }

  ghost predicate InvRows(s: Bridge) {
    RR.TableOk(s.redeems) && forall h :: h in s.redeems ==> InvRow(s, h, s.redeems[h])
  }

  ghost predicate Justified(cfg: Config, s: Bridge, p: Payout) {
    && p.request in s.redeems && Settled(s.redeems[p.request])
    && RedeemTx(cfg, s.vault.table, p.request, s.redeems[p.request]) == Ok(p.tx)
  }

  ghost predicate InvSent(cfg: Config, s: Bridge) {
    forall p :: p in s.book.sent ==> Justified(cfg, s, p)
  }

  /** How often a payment of h was broadcast. */
  function Sends(sent: seq<Payout>, h: Hash): nat {
    if sent == [] then 0
    else Sends(sent[..|sent| - 1], h) + if sent[|sent| - 1].request == h then 1 else 0
  }

  /** Every broadcast is on record or was counted as unrecorded. */
  ghost predicate Balanced(b: Book) {
    forall h :: Sends(b.sent, h) == b.unrecorded[h] + if h in b.tracking then 1 else 0
  }

  /** A recorded payment was broadcast, for a row that is prepared or completed. */
  ghost predicate Recorded(s: Bridge) {
    forall h :: h in s.book.tracking ==>
                  && h in s.redeems && Settled(s.redeems[h])
                  && exists p :: p in s.book.sent && p.request == h && p.txId == s.book.tracking[h].btcHash
  }

  /** A completed row names the recorded transaction. */
  predicate Completions(t: R.Table, b: Book) {
    forall h :: h in t && t[h].status == R.Completed ==>
                  h in b.tracking && t[h].btcTxId == Some(b.tracking[h].btcHash)
  }

  ghost predicate InvBook(s: Bridge) {
    Balanced(s.book) && Recorded(s) && Completions(s.redeems, s.book)
  }

  ghost predicate Inv(cfg: Config, s: Bridge) {
    InvVault(s) && InvJobs(s) && InvEvents(s) && InvRows(s) && InvSent(cfg, s) && InvBook(s)
  }

  // ---------- Growth ----------

  /** What every step keeps: requests, returned selections, and rows of the vault with their amounts. */
  ghost predicate Grows(s: Bridge, u: Bridge) {
    && s.requests <= u.requests && s.vault.services <= u.vault.services
    && forall k :: k in s.vault.table ==> k in u.vault.table && u.vault.table[k].amount == s.vault.table[k].amount
  }

  lemma BackedGrows(xs: seq<VR.Claim>, ys: seq<VR.Claim>, h: Hash, os: seq<BtcOutpoint>, amount: int)
    requires xs <= ys && Backed(xs, h, os, amount)
    ensures Backed(ys, h, os, amount)
  {
    var c :| c in xs && BackedBy(c, h, os, amount);
    assert c in ys;
  }

  lemma EventGrows(s: Bridge, u: Bridge, p: R.PreparedEvent)
    requires Grows(s, u) && EventOk(s, p)
    ensures EventOk(u, p)
  {
    BackedGrows(s.vault.services, u.vault.services, p.request, R.Zip(p.txIds, p.idxs), p.amount);
  }

  lemma RowGrows(s: Bridge, u: Bridge, h: Hash, row: R.Row)
    requires Grows(s, u) && InvRow(s, h, row)
    ensures InvRow(u, h, row)
  {
    if Settled(row) {
      BackedGrows(s.vault.services, u.vault.services, h, row.outpoints, row.amount);
    }
  }

  lemma RedeemTxGrows(cfg: Config, s: Bridge, u: Bridge, h: Hash, row: R.Row)
    requires Grows(s, u) && RedeemTx(cfg, s.vault.table, h, row).Ok?
    ensures RedeemTx(cfg, u.vault.table, h, row) == RedeemTx(cfg, s.vault.table, h, row)
  {
    assert AmountsOf(u.vault.table, KeysOf(row.outpoints)) == AmountsOf(s.vault.table, KeysOf(row.outpoints));
  }

  /** The invariant survives any growth of vault and chain that leaves rows and payments alone. */
  lemma Growth(cfg: Config, s: Bridge, u: Bridge)
    requires Inv(cfg, s) && Grows(s, u) && u.redeems == s.redeems && u.book == s.book
    requires InvVault(u) && InvJobs(u) && forall p :: p in u.prepares ==> p in s.prepares || EventOk(u, p)
    ensures Inv(cfg, u)
  {
    forall p | p in u.prepares ensures EventOk(u, p) {
      if p in s.prepares { EventGrows(s, u, p); }
    }
    forall h | h in u.redeems ensures InvRow(u, h, u.redeems[h]) {
      RowGrows(s, u, h, u.redeems[h]);
    }
    forall p | p in u.book.sent ensures Justified(cfg, u, p) {
      RedeemTxGrows(cfg, s, u, p.request, u.redeems[p.request]);
    }
  }

  // ---------- The vault ----------

  lemma ServicesOfStep(v: VR.State, op: VR.Step)
    requires VR.Legal(v, op)
    ensures var w := VR.Do(v, op);
            && (w.services == v.services || (|w.services| == |v.services| + 1 && w.services[..|v.services|] == v.services))
            && (op.Mark? ==> v.claim.Some? && SameClaims(v, w, v.claim.value))
            && (!op.Mark? && !op.Begin? ==> w.services == v.services && (w.claim == v.claim || w.claim.None?))
  {
  }

  predicate SameGoal(c: VR.Claim, d: VR.Claim) {
    c.id == d.id && c.target == d.target
  }

  /** New selections of w have the goal of c. */
  predicate SameClaims(v: VR.State, w: VR.State, c: VR.Claim) {
    && (forall d :: d in w.services ==> d in v.services || SameGoal(c, d))
    && (w.claim.Some? ==> SameGoal(c, w.claim.value))
  }

  lemma VaultGrows(s: Bridge, op: VR.Step)
    requires VR.Legal(s.vault, op)
    ensures Grows(s, s.(vault := VR.Do(s.vault, op)))
  {
    VR.StepKeepsHistory(s.vault, op);
  }

  lemma VoutsKept(v: VR.State, op: VR.Step)
    requires VR.Legal(v, op) && (op.Add? ==> 0 <= op.k.vout < 0x1_0000)
    requires forall k :: k in v.table ==> 0 <= k.vout < 0x1_0000
    ensures forall k :: k in VR.Do(v, op).table ==> 0 <= k.vout < 0x1_0000
  {
    VR.StepAmounts(v, op);
    assert forall k :: k in VR.Do(v, op).table <==> k in V.Amounts(VR.Do(v, op).table);
  }

  lemma VaultStepKeepsVault(s: Bridge, op: VR.Step)
    requires InvVault(s) && Enabled(s, VaultStep(op))
    ensures InvVault(s.(vault := VR.Do(s.vault, op)))
  {
    VR.StepKeepsInv(s.vault, op);
    VoutsKept(s.vault, op);
    ServicesOfStep(s.vault, op);
  }

  lemma VaultStepKeepsInv(cfg: Config, s: Bridge, op: VR.Step)
    requires Inv(cfg, s) && Enabled(s, VaultStep(op))
    ensures Inv(cfg, Do(cfg, s, VaultStep(op)))
  {
    var u := s.(vault := VR.Do(s.vault, op));
    VaultStepKeepsVault(s, op);
    VaultGrows(s, op);
    Growth(cfg, s, u);
  }

  lemma BeginGoal(v: VR.State, rows: seq<Key>, target: int, id: Option<Hash>, clock: seq<int>)
    requires VR.Legal(v, VR.Begin(rows, target, id, clock))
    ensures var w := VR.Do(v, VR.Begin(rows, target, id, clock));
            && (forall d :: d in w.services ==> d in v.services || (d.id == id && d.target == target))
            && (w.claim.Some? ==> w.claim.value.id == id && w.claim.value.target == target)
  {
  }

  lemma RequestKeepsInv(cfg: Config, s: Bridge, h: Hash, rows: seq<Key>, clock: seq<int>)
    requires Inv(cfg, s) && Enabled(s, Request(h, rows, clock))
    ensures Inv(cfg, Do(cfg, s, Request(h, rows, clock)))
  {
    var u, row := Do(cfg, s, Request(h, rows, clock)), s.redeems[h];
    var op := Choosing(row, h, rows, clock);
    VR.StepKeepsInv(s.vault, op);
    VaultGrows(s, op);
    VoutsKept(s.vault, op);
    BeginGoal(s.vault, rows, row.amount + V.SAFE_MARGIN, Some(h), clock);
    assert InvRow(s, h, row);
    forall c | c in u.vault.services || u.vault.claim == Some(c) ensures ForJob(u.jobs, c) {
      assert c in s.vault.services ==> ForJob(s.jobs, c);
    }
    Growth(cfg, s, u);
  }

  // ---------- Preparing ----------

  /** Keys below 2^16 survive the trip through the event; larger ones come back as other outputs. */
  lemma VoutRoundTrip(k: Key)
    ensures ToKey(ToOutpoint(k)) == k <==> 0 <= k.vout < 0x1_0000
  {
  }

  lemma EchoKeys(h: Hash, prepare: Hash, row: R.Row, sel: seq<Key>)
    requires forall k :: k in sel ==> 0 <= k.vout < 0x1_0000
    ensures var p := Echo(h, prepare, row, sel); KeysOf(R.Zip(p.txIds, p.idxs)) == sel
  {
  }

  /** The event of a returned selection is backed by it, because the selection margin is the withdrawal fee. */
  lemma LandKeepsInv(cfg: Config, s: Bridge, i: nat, prepare: Hash)
    requires Inv(cfg, s) && Enabled(s, Land(i, prepare))
    ensures Inv(cfg, Do(cfg, s, Land(i, prepare)))
  {
    var c := s.vault.services[i];
    var h, row := c.id.value, s.jobs[c.id.value];
    var u, p := Do(cfg, s, Land(i, prepare)), Echo(h, prepare, row, c.sel);
    assert c in s.vault.services && ForJob(s.jobs, c) && VR.Funded(s.vault.table, c);
    EchoKeys(h, prepare, row, c.sel);
    assert BackedBy(c, h, R.Zip(p.txIds, p.idxs), p.amount);
    Growth(cfg, s, u);
  }

  // ---------- Events, completion ----------

  /** What a redeem-table change must respect for the invariant to survive it. */
  ghost predicate TableKept(t: R.Table, u: R.Table) {
    forall h :: h in t ==>
                  && h in u && SameBase(u[h], t[h])
                  && (Settled(t[h]) ==> Settled(u[h]) && u[h] == t[h].(btcTxId := u[h].btcTxId, status := u[h].status))
  }

  lemma TableChange(cfg: Config, s: Bridge, t: R.Table)
    requires Inv(cfg, s) && RR.TableOk(t) && TableKept(s.redeems, t) && Completions(t, s.book)
    requires forall h :: h in t ==> InvRow(s, h, t[h])
    ensures Inv(cfg, s.(redeems := t))
  {
    var u := s.(redeems := t);
    forall p | p in u.prepares ensures EventOk(u, p) {
      assert EventOk(s, p);
    }
    forall h | h in t ensures InvRow(u, h, t[h]) {
      RowGrows(s, u, h, t[h]);
    }
    forall p | p in u.book.sent ensures Justified(cfg, u, p) {
      assert Justified(cfg, s, p);
    }
  }

  /** What one row must respect. */
  ghost predicate RowMayBe(s: Bridge, h: Hash, row: R.Row) {
    && RR.RowOk(h, row) && InvRow(s, h, row)
    && (h in s.redeems ==>
          && SameBase(row, s.redeems[h])
          && (Settled(s.redeems[h]) ==> Settled(row) && row == s.redeems[h].(btcTxId := row.btcTxId, status := row.status)))
    && (row.status == R.Completed ==> h in s.book.tracking && row.btcTxId == Some(s.book.tracking[h].btcHash))
  }

  lemma RowChange(cfg: Config, s: Bridge, h: Hash, row: R.Row)
    requires Inv(cfg, s) && RowMayBe(s, h, row)
    ensures Inv(cfg, s.(redeems := s.redeems[h := row]))
  {
    var t := s.redeems[h := row];
    RowsStayOk(s, t, h, row);
    RowKeepsTable(s, t, h, row);
    TableChange(cfg, s, t);
  }

  lemma RowKeepsTable(s: Bridge, t: R.Table, h: Hash, row: R.Row)
    requires RowMayBe(s, h, row) && Completions(s.redeems, s.book) && t == s.redeems[h := row]
    ensures TableKept(s.redeems, t) && Completions(t, s.book)
  {
  }

  lemma RowsStayOk(s: Bridge, t: R.Table, h: Hash, row: R.Row)
    requires InvRows(s) && RR.RowOk(h, row) && InvRow(s, h, row) && t == s.redeems[h := row]
    ensures RR.TableOk(t) && forall g :: g in t ==> InvRow(s, g, t[g])
  {
    forall g | g in t ensures InvRow(s, g, t[g]) && RR.RowOk(g, t[g]) {
      assert g != h ==> g in s.redeems && t[g] == s.redeems[g];
    }
  }

  lemma SeeRequestedKeepsInv(cfg: Config, s: Bridge, r: R.RequestedEvent)
    requires Inv(cfg, s) && Enabled(s, SeeRequested(r))
    ensures Inv(cfg, Do(cfg, s, SeeRequested(r)))
  {
    var t := Settle(s.redeems, R.OnRequested(s.redeems, r));
    if t == s.redeems {
      assert Do(cfg, s, SeeRequested(r)) == s;
    } else {
      var row := R.FromRequested(r).value;
      assert t == s.redeems[r.request := row];
      RowChange(cfg, s, r.request, row);
    }
  }

  lemma SeePreparedKeepsInv(cfg: Config, s: Bridge, p: R.PreparedEvent)
    requires Inv(cfg, s) && Enabled(s, SeePrepared(p))
    ensures Inv(cfg, Do(cfg, s, SeePrepared(p)))
  {
    var t := Settle(s.redeems, R.OnPrepared(s.redeems, p));
    if t == s.redeems {
      assert Do(cfg, s, SeePrepared(p)) == s;
    } else {
      R.PreparedWrites(s.redeems, p);
      PreparedRowKeepsInv(cfg, s, p, t[p.request]);
    }
  }

  lemma PreparedRowKeepsInv(cfg: Config, s: Bridge, p: R.PreparedEvent, row: R.Row)
    requires Inv(cfg, s) && p in s.prepares && R.OutpointsOk(p) && R.ChecksOk(p.request, row)
    requires p.request in s.redeems ==> s.redeems[p.request].status == R.Requested && R.Matches(s.redeems[p.request], p)
    requires row.status == R.Prepared && row.prepare.Some? && row.outpoints == R.Zip(p.txIds, p.idxs)
    requires row.amount == p.amount && row.requester == p.requester && row.receiver == p.receiver
    ensures Inv(cfg, s.(redeems := s.redeems[p.request := row]))
  {
    assert EventOk(s, p);
    assert RR.RowOk(p.request, row) && InvRow(s, p.request, row);
    RowChange(cfg, s, p.request, row);
  }

  // ---------- Withdrawal ----------

  /** The parts of the invariant that do not mention the book carry over. */
  lemma BookChange(cfg: Config, u: Bridge, book: Book)
    requires Inv(cfg, u)
    requires InvSent(cfg, u.(book := book)) && InvBook(u.(book := book))
    ensures Inv(cfg, u.(book := book))
  {
    var w := u.(book := book);
    forall p | p in w.prepares ensures EventOk(w, p) {
      EventGrows(u, w, p);
    }
    forall h | h in w.redeems ensures InvRow(w, h, w.redeems[h]) {
      RowGrows(u, w, h, w.redeems[h]);
    }
  }

  /** A broadcast keeps the books: one more payment, either recorded or counted as unrecorded. */
  lemma BroadcastBalances(b: Book, p: Payout)
    requires Balanced(b) && p.request !in b.tracking
    ensures Balanced(Book(b.tracking[p.request := RedeemAction(p.txId, true, false)], b.sent + [p], b.unrecorded))
    ensures Balanced(Book(b.tracking, b.sent + [p], b.unrecorded + multiset{p.request}))
  {
  }

  lemma LongerHistory(s: Bridge, book: Book)
    requires Recorded(s) && s.book.sent <= book.sent
    requires forall h :: h in book.tracking && h in s.book.tracking ==> book.tracking[h].btcHash == s.book.tracking[h].btcHash
    requires forall h :: h in book.tracking && h !in s.book.tracking ==>
                           && h in s.redeems && Settled(s.redeems[h])
                           && exists p :: p in book.sent && p.request == h && p.txId == book.tracking[h].btcHash
    ensures Recorded(s.(book := book))
  {
  }

  lemma WithdrawKeepsBook(s: Bridge, book: Book, p: Payout)
    requires InvBook(s) && p.request !in s.book.tracking && p.request in s.redeems && Settled(s.redeems[p.request])
    requires book == Book(s.book.tracking[p.request := RedeemAction(p.txId, true, false)], s.book.sent + [p], s.book.unrecorded)
             || book == Book(s.book.tracking, s.book.sent + [p], s.book.unrecorded + multiset{p.request})
    ensures InvBook(s.(book := book))
  {
    BroadcastBalances(s.book, p);
    assert p in book.sent;
    LongerHistory(s, book);
  }

  lemma WithdrawKeepsInv(cfg: Config, s: Bridge, h: Hash, answer: Answer)
    requires Inv(cfg, s) && Enabled(s, Withdraw(h, answer))
    ensures Inv(cfg, Do(cfg, s, Withdraw(h, answer)))
  {
    var book := PayOne(cfg, s.vault.table, s.book, h, s.redeems[h], answer);
    var w := s.(book := book);
    if book == s.book {
      assert w == s;
    } else {
      var last := Payout(h, RedeemTx(cfg, s.vault.table, h, s.redeems[h]).value, answer.txId.value);
      WithdrawKeepsBook(s, book, last);
      forall p | p in book.sent ensures Justified(cfg, w, p) {
        assert p in s.book.sent ==> Justified(cfg, s, p);
      }
      BookChange(cfg, s, book);
    }
  }

  lemma MinedKeepsInv(cfg: Config, s: Bridge, h: Hash, b: Hash, amount: int, completeOk: bool)
    requires Inv(cfg, s) && Enabled(s, Mined(h, b, amount, completeOk))
    ensures Inv(cfg, Do(cfg, s, Mined(h, b, amount, completeOk)))
  {
    var t := Settle(s.redeems, R.OnRedeemed(s.redeems, h, b, Some(amount)));
    if t != s.redeems {
      R.RedeemedWrites(s.redeems, h, b, Some(amount));
      CompletedRowKeepsInv(cfg, s, h, t[h]);
    }
    CompleteKeepsInv(cfg, s.(redeems := t), h, completeOk);
  }

  lemma CompletedRowKeepsInv(cfg: Config, s: Bridge, h: Hash, row: R.Row)
    requires Inv(cfg, s) && h in s.book.tracking && h in s.redeems && R.ChecksOk(h, row)
    requires row == s.redeems[h].(btcTxId := Some(s.book.tracking[h].btcHash), status := R.Completed)
    ensures Inv(cfg, s.(redeems := s.redeems[h := row]))
  {
    var was := s.redeems[h];
    assert Settled(was) && RR.RowOk(h, was) && InvRow(s, h, was);
    RowChange(cfg, s, h, row);
  }

  lemma CompleteKeepsBook(u: Bridge, h: Hash, completeOk: bool)
    requires InvBook(u)
    ensures InvBook(u.(book := Complete(u.book, h, completeOk)))
  {
    LongerHistory(u, Complete(u.book, h, completeOk));
  }

  lemma CompleteKeepsInv(cfg: Config, u: Bridge, h: Hash, completeOk: bool)
    requires Inv(cfg, u)
    ensures Inv(cfg, u.(book := Complete(u.book, h, completeOk)))
  {
    var w := u.(book := Complete(u.book, h, completeOk));
    CompleteKeepsBook(u, h, completeOk);
    forall p | p in w.book.sent ensures Justified(cfg, w, p) {
      assert Justified(cfg, u, p);
    }
    BookChange(cfg, u, w.book);
  }

  // ---------- All runs ----------

  /** The invariant holds after every run. */
  lemma {:induction false} Always(cfg: Config, steps: seq<Step>)
    requires Run(cfg, steps)
    ensures Inv(cfg, Final(cfg, steps))
  {
    if steps == [] {
      assert forall h :: Sends([], h) == 0;
    } else {
      var s, st := Final(cfg, steps[..|steps| - 1]), steps[|steps| - 1];
      Always(cfg, steps[..|steps| - 1]);
      match st
      case VaultStep(op) => VaultStepKeepsInv(cfg, s, op);
      case UserRequests(r) => Growth(cfg, s, Do(cfg, s, st));
      case SeeRequested(r) => SeeRequestedKeepsInv(cfg, s, r);
      case SeePrepared(p) => SeePreparedKeepsInv(cfg, s, p);
      case Request(h, rows, clock) => RequestKeepsInv(cfg, s, h, rows, clock);
      case Land(i, prepare) => LandKeepsInv(cfg, s, i, prepare);
      case Withdraw(h, answer) => WithdrawKeepsInv(cfg, s, h, answer);
      case Mined(h, b, amount, completeOk) => MinedKeepsInv(cfg, s, h, b, amount, completeOk);
    }
  }

  // ---------- Theorems ----------

  /** Selection i locked k, and a release cleared that lock before selection j read its rows. */
  ghost predicate ReleasedBetween(v: VR.State, i: nat, j: nat, k: Key)
    requires i < |v.services| && j < |v.services|
  {
    var c, d := v.services[i], v.services[j];
    exists n: nat :: n < |c.sel| && 3 * n < |c.spots| && c.sel[n] == k && VR.Cleared(v.log, c.spots[3 * n], d.at, k)
  }

  lemma SharedWasReleased(v: VR.State, i: nat, j: nat, k: Key)
    requires VR.Inv(v) && i < j < |v.services| && k in v.services[i].sel && k in v.services[j].sel
    ensures ReleasedBetween(v, i, j, k)
  {
    var c := v.services[i];
    assert c in v.services && VR.Apart(v.log, c, v.services[j]);
    var n :| 0 <= n < |c.sel| && c.sel[n] == k;
  }

  /** Each payment spends the rows of a selection returned for its redeem. */
  lemma PaidFrom(cfg: Config, s: Bridge, p: Payout) returns (i: nat)
    requires Inv(cfg, s) && p in s.book.sent
    ensures i < |s.vault.services| && s.vault.services[i].id == Some(p.request) && s.vault.services[i].sel == p.tx.inputs
  {
    assert Justified(cfg, s, p);
    var row := s.redeems[p.request];
    assert InvRow(s, p.request, row);
    var c :| c in s.vault.services && BackedBy(c, p.request, row.outpoints, row.amount);
    i :| 0 <= i < |s.vault.services| && s.vault.services[i] == c;
  }

  ghost predicate Selected(v: VR.State, i: nat, h: Hash, k: Key) {
    i < |v.services| && v.services[i].id == Some(h) && k in v.services[i].sel
  }

  /** No double spend: an input shared by payments of two redeems was selected for both of them, and a release
      cleared its lock after the earlier selection took it and before the later one read it. */
  lemma NoDoubleSpend(cfg: Config, steps: seq<Step>, p: Payout, q: Payout, k: Key)
    requires Run(cfg, steps)
    requires p in Final(cfg, steps).book.sent && q in Final(cfg, steps).book.sent && p.request != q.request
    requires k in p.tx.inputs && k in q.tx.inputs
    ensures var v := Final(cfg, steps).vault;
            exists i: nat, j: nat :: Selected(v, i, p.request, k) && Selected(v, j, q.request, k)
                                     && ((i < j && ReleasedBetween(v, i, j, k)) || (j < i && ReleasedBetween(v, j, i, k)))
  {
    Always(cfg, steps);
    var s := Final(cfg, steps);
    var i := PaidFrom(cfg, s, p);
    var j := PaidFrom(cfg, s, q);
    assert Selected(s.vault, i, p.request, k) && Selected(s.vault, j, q.request, k);
    if i < j {
      SharedWasReleased(s.vault, i, j, k);
    } else {
      SharedWasReleased(s.vault, j, i, k);
    }
  }

  /** In a run that clears no lock the payments of different redeems have disjoint inputs. */
  lemma DisjointPayments(cfg: Config, steps: seq<Step>, p: Payout, q: Payout)
    requires Run(cfg, steps)
    requires forall k :: V.SetLockup(k, false) !in Final(cfg, steps).vault.log
    requires p in Final(cfg, steps).book.sent && q in Final(cfg, steps).book.sent && p.request != q.request
    ensures Elements(p.tx.inputs) !! Elements(q.tx.inputs)
  {
    forall k | k in p.tx.inputs ensures k !in q.tx.inputs {
      if k in q.tx.inputs {
        NoDoubleSpend(cfg, steps, p, q, k);
      }
    }
  }

  /** Resend identity: every payment ever broadcast for one redeem is the same transaction. */
  lemma ResendIdentity(cfg: Config, steps: seq<Step>, p: Payout, q: Payout)
    requires Run(cfg, steps)
    requires p in Final(cfg, steps).book.sent && q in Final(cfg, steps).book.sent && p.request == q.request
    ensures p.tx == q.tx
  {
    Always(cfg, steps);
    assert Justified(cfg, Final(cfg, steps), p) && Justified(cfg, Final(cfg, steps), q);
  }

  /** A redeem is broadcast once for each failed recording, and once more if it is on record. */
  lemma BroadcastCount(cfg: Config, steps: seq<Step>, h: Hash)
    requires Run(cfg, steps)
    ensures var book := Final(cfg, steps).book;
            && Sends(book.sent, h) == book.unrecorded[h] + (if h in book.tracking then 1 else 0)
            && (book.unrecorded[h] == 0 ==> Sends(book.sent, h) <= 1)
  {
    Always(cfg, steps);
  }

  /** The rows of a selection returned for a settled row pay for it. */
  lemma BackingPays(s: Bridge, h: Hash, row: R.Row)
    requires InvVault(s) && Backed(s.vault.services, h, row.outpoints, row.amount)
    ensures var ks := KeysOf(row.outpoints);
            && Distinct(ks) && (forall k :: k in ks ==> k in s.vault.table)
            && V.SeqTotal(V.Amounts(s.vault.table), ks) >= row.amount + BTC_TX_FEE
            && (row.amount > 0 ==> ks != [])
  {
    var c :| c in s.vault.services && BackedBy(c, h, row.outpoints, row.amount);
    assert VR.Funded(s.vault.table, c);
  }

  /** Funding: the payment of a prepared redeem never fails for want of inputs or money, and what goes in
      comes out as payment, change and fee. */
  lemma FundingSuffices(cfg: Config, steps: seq<Step>, h: Hash)
    requires Run(cfg, steps)
    requires h in Final(cfg, steps).redeems && Settled(Final(cfg, steps).redeems[h])
    ensures var s := Final(cfg, steps); var row := s.redeems[h]; var r := RedeemTx(cfg, s.vault.table, h, row);
            && r != Err(MissingUtxo) && r != Err(NegativeChange)
            && (cfg.net.decodes(Remove0xPrefix(row.receiver)) && cfg.net.decodes(cfg.change) ==> r.Ok?)
            && (r.Ok? ==>
                  && r.value.inputs == KeysOf(row.outpoints) && Distinct(r.value.inputs)
                  && (forall k :: k in r.value.inputs ==> k in s.vault.table)
                  && V.SeqTotal(V.Amounts(s.vault.table), r.value.inputs) == Values(r.value.outputs) + BTC_TX_FEE
                  && r.value.outputs[0] == TxOut(row.amount, PayTo(Remove0xPrefix(row.receiver)))
                  && row.amount > 0)
  {
    Always(cfg, steps);
    var s := Final(cfg, steps);
    var row := s.redeems[h];
    var ks := KeysOf(row.outpoints);
    assert InvRow(s, h, row) && RR.RowOk(h, row);
    BackingPays(s, h, row);
    SumIsTotal(s.vault.table, ks);
    ValueConserved(cfg.net, Sum(AmountsOf(s.vault.table, ks)), Remove0xPrefix(row.receiver), row.amount,
                   Some(NullDataScript(HashBytes(h))), cfg.change, BTC_TX_FEE);
    RedeemTxExactly(cfg, s.vault.table, h, row);
  }

  lemma PaymentOutputs(cfg: Config, s: Bridge, p: Payout)
    requires Justified(cfg, s, p)
    ensures |p.tx.outputs| >= 2
    ensures p.tx.outputs[0] == TxOut(s.redeems[p.request].amount, PayTo(Remove0xPrefix(s.redeems[p.request].receiver)))
    ensures p.tx.outputs[1] == TxOut(0, Other(NullDataScript(HashBytes(p.request))))
  {
    RedeemTxExactly(cfg, s.vault.table, p.request, s.redeems[p.request]);
  }

  /** The change comes back: beyond its payment and its OP_RETURN a broadcast has at most one output, which pays the
      bridge's own change address all that the inputs are worth beyond the amount and the fee. */
  lemma ChangeComesBack(cfg: Config, steps: seq<Step>, p: Payout)
    requires Run(cfg, steps) && p in Final(cfg, steps).book.sent
    ensures var t := Final(cfg, steps).vault.table; var os := p.tx.outputs;
            && (forall k :: k in p.tx.inputs ==> k in t)
            && 2 <= |os| <= 3
            && var rest := V.SeqTotal(V.Amounts(t), p.tx.inputs) - os[0].value - BTC_TX_FEE;
            && rest >= 0
            && (|os| == 3 <==> rest > 0)
            && (|os| == 3 ==> os[2] == TxOut(rest, PayTo(cfg.change)))
  {
    Always(cfg, steps);
    var s := Final(cfg, steps);
    assert Justified(cfg, s, p);
    RedeemTxExactly(cfg, s.vault.table, p.request, s.redeems[p.request]);
  }

  /** Redeems are paid: the next turn for a prepared redeem that is not on record broadcasts its payment, if the calls
      of that turn succeed and the addresses decode, and records it if the INSERT succeeds. */
  lemma PreparedIsPaid(cfg: Config, steps: seq<Step>, h: Hash, answer: Answer)
    requires Run(cfg, steps)
    requires h in Final(cfg, steps).redeems && Final(cfg, steps).redeems[h].status == R.Prepared
    requires h !in Final(cfg, steps).book.tracking && answer.queryOk && answer.txId.Some?
    requires cfg.net.decodes(Remove0xPrefix(Final(cfg, steps).redeems[h].receiver)) && cfg.net.decodes(cfg.change)
    ensures var s := Final(cfg, steps);
            && Enabled(s, Withdraw(h, answer))
            && var u := Do(cfg, s, Withdraw(h, answer));
            && |u.book.sent| == |s.book.sent| + 1
            && u.book.sent[|s.book.sent|].request == h
            && u.book.sent[|s.book.sent|].txId == answer.txId.value
            && u.book.sent[|s.book.sent|].tx.inputs == KeysOf(s.redeems[h].outpoints)
            && (h in u.book.tracking <==> answer.insertOk)
  {
    var s := Final(cfg, steps);
    FundingSuffices(cfg, steps, h);
    RedeemTxExactly(cfg, s.vault.table, h, s.redeems[h]);
    PaysExactly(cfg, s.vault.table, s.book, h, s.redeems[h], answer);
  }

  /** End to end: every payment pays exactly what a valid request on the chain asked for, to whom it asked, whatever
      the order in which its events arrived. */
  lemma PaymentWasRequested(cfg: Config, steps: seq<Step>, p: Payout)
    requires Run(cfg, steps) && p in Final(cfg, steps).book.sent
    ensures exists r :: r in Final(cfg, steps).requests && r.request == p.request && r.validReceiver && r.amount.Some?
                        && p.tx.outputs != []
                        && p.tx.outputs[0] == TxOut(r.amount.value, PayTo(Remove0xPrefix(r.receiver)))
  {
    Always(cfg, steps);
    var s := Final(cfg, steps);
    assert Justified(cfg, s, p);
    var row := s.redeems[p.request];
    PaymentOutputs(cfg, s, p);
    assert InvRow(s, p.request, row);
    var r := R.RequestedEvent(p.request, row.requester, row.receiver, Some(row.amount), true);
    assert r in s.requests;
  }

  /** Payments of different redeems are different transactions. */
  lemma PaymentsDiffer(cfg: Config, steps: seq<Step>, p: Payout, q: Payout)
    requires Run(cfg, steps)
    requires p in Final(cfg, steps).book.sent && q in Final(cfg, steps).book.sent && p.request != q.request
    ensures p.tx != q.tx
  {
    Always(cfg, steps);
    var s := Final(cfg, steps);
    assert Justified(cfg, s, p) && Justified(cfg, s, q);
    PaymentOutputs(cfg, s, p);
    PaymentOutputs(cfg, s, q);
    if p.tx == q.tx {
      assert NullDataScript(HashBytes(p.request))[2..] == NullDataScript(HashBytes(q.request))[2..];
      HashBytesInjective(p.request, q.request);
    }
  }

  /** A prepared or completed row names its preparation and the outpoints it pays with. */
  lemma SettledRows(cfg: Config, steps: seq<Step>, h: Hash)
    requires Run(cfg, steps)
    requires h in Final(cfg, steps).redeems && Settled(Final(cfg, steps).redeems[h])
    ensures var row := Final(cfg, steps).redeems[h];
            && row.prepare.Some? && row.prepare != Some(ZERO_HASH)
            && row.outpoints != [] && forall o :: o in row.outpoints ==> o.txId != ZERO_HASH
  {
    Always(cfg, steps);
    assert InvRow(Final(cfg, steps), h, Final(cfg, steps).redeems[h]);
    BackingPays(Final(cfg, steps), h, Final(cfg, steps).redeems[h]);
    assert RR.RowOk(h, Final(cfg, steps).redeems[h]);
  }

  /** A completed redeem was prepared, broadcast and recorded, and carries the recorded transaction id. */
  lemma CompletionFollowsPayment(cfg: Config, steps: seq<Step>, h: Hash)
    requires Run(cfg, steps)
    requires h in Final(cfg, steps).redeems && Final(cfg, steps).redeems[h].status == R.Completed
    ensures var s := Final(cfg, steps); var row := s.redeems[h];
            exists p :: p in s.book.sent && p.request == h && row.btcTxId == Some(p.txId) && p.tx.inputs == KeysOf(row.outpoints)
  {
    Always(cfg, steps);
    var s := Final(cfg, steps);
    var p :| p in s.book.sent && p.request == h && p.txId == s.book.tracking[h].btcHash;
    assert Justified(cfg, s, p);
  }

  lemma RunSnoc(cfg: Config, steps: seq<Step>, st: Step)
    requires Run(cfg, steps) && Enabled(Final(cfg, steps), st)
    ensures Run(cfg, steps + [st]) && Final(cfg, steps + [st]) == Do(cfg, Final(cfg, steps), st)
  {
    assert (steps + [st])[..|steps|] == steps;
  }

  /** A pass of the withdrawal loop over prepared redeems is a run of Withdraw steps. */
  lemma {:induction false} RoundIsSteps(cfg: Config, steps: seq<Step>, todo: seq<(Hash, R.Row)>, answers: seq<Answer>)
    requires Run(cfg, steps) && |answers| == |todo|
    requires forall x :: x in todo ==>
                           var t := Final(cfg, steps).redeems; x.0 in t && t[x.0] == x.1 && x.1.status == R.Prepared
    ensures var s := Final(cfg, steps); var all := steps + Withdrawals(todo, answers);
            Run(cfg, all) && Final(cfg, all) == s.(book := PayAll(cfg, s.vault.table, s.book, todo, answers))
  {
    var s, all := Final(cfg, steps), steps + Withdrawals(todo, answers);
    if todo == [] {
      assert all == steps;
    } else {
      var last := |todo| - 1;
      var before, step := steps + Withdrawals(todo[..last], answers[..last]), Withdraw(todo[last].0, answers[last]);
      RoundIsSteps(cfg, steps, todo[..last], answers[..last]);
      assert todo[last] in todo;
      RunSnoc(cfg, before, step);
      assert all == before + [step];
    }
  }

  function Withdrawals(todo: seq<(Hash, R.Row)>, answers: seq<Answer>): seq<Step>
    requires |answers| == |todo|
  {
    seq(|todo|, i requires 0 <= i < |todo| => Withdraw(todo[i].0, answers[i]))
  }
}

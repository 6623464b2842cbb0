/** Paying prepared redeems on Bitcoin and tracking the payments. */
module Withdraw {
  import opened Common
  import opened Assembler
  import V = Vault
  import R = Redeem

  const BTC_TX_FEE: int := 10_000

  /** What is fixed for one bridge: the network and the address that takes the change. */
  datatype Config = Config(net: Net, change: string)

  datatype BtcTx = BtcTx(inputs: seq<Key>, outputs: seq<TxOut>)

  /** A row of btc_action_redeem; the key is EthRequestTxID. */
  datatype RedeemAction = RedeemAction(btcHash: Hash, sent: bool, mined: bool)

  /** A transaction that the Bitcoin node accepted. */
  datatype Payout = Payout(request: Hash, tx: BtcTx, txId: Hash)

  /** The tracking table, with the history of accepted broadcasts and of broadcasts that were not recorded. */
  datatype Book = Book(tracking: map<Hash, RedeemAction>, sent: seq<Payout>, unrecorded: multiset<Hash>)

  /** How the outside answers one turn of the loop: the HasRedeem query, the transaction id that the node
      returns (None when it refuses), the INSERT. */
  datatype Answer = Answer(queryOk: bool, txId: Option<Hash>, insertOk: bool)

  function Remove0xPrefix(s: string): string {
    if |s| >= 2 && s[..2] == "0x" then s[2..] else s
  }

  function KeysOf(os: seq<BtcOutpoint>): (ks: seq<Key>)
    ensures |ks| == |os|
    ensures forall i :: 0 <= i < |ks| ==> ks[i] == ToKey(os[i])
  {
    seq(|os|, i requires 0 <= i < |os| => ToKey(os[i]))
  }

  function AmountsOf(t: V.Table, ks: seq<Key>): (a: seq<int>)
    requires forall k :: k in ks ==> k in t
    ensures |a| == |ks|
    ensures forall i :: 0 <= i < |a| ==> a[i] == t[ks[i]].amount
  {
    seq(|ks|, i requires 0 <= i < |ks| => t[ks[i]].amount)
  }

  lemma {:induction false} SumIsTotal(t: V.Table, ks: seq<Key>)
    requires forall k :: k in ks ==> k in t
    ensures Sum(AmountsOf(t, ks)) == V.SeqTotal(V.Amounts(t), ks)
  {
    if ks != [] {
      var front, last := ks[..|ks| - 1], ks[|ks| - 1];
      SumIsTotal(t, front);
      V.SeqTotalSplit(V.Amounts(t), ks, |ks| - 1);
      assert ks[|ks| - 1..] == [last];
      assert AmountsOf(t, ks)[..|ks| - 1] == AmountsOf(t, front);
    }
  }

  /** The transaction for a prepared row: inputs are its outpoints, looked up in the vault. */
  function RedeemTx(cfg: Config, t: V.Table, h: Hash, row: R.Row): Result<BtcTx, TxError> {
    var ks := KeysOf(row.outpoints);
    if !(forall k :: k in ks ==> k in t) then Err(MissingUtxo) else
      var os := Outputs(cfg.net, Sum(AmountsOf(t, ks)), Remove0xPrefix(row.receiver), row.amount,
                        Some(NullDataScript(HashBytes(h))), cfg.change, BTC_TX_FEE);
      if os.Err? then Err(os.error) else Ok(BtcTx(ks, os.value))
  }

  /** One turn of the withdrawal loop. */
  function PayOne(cfg: Config, t: V.Table, b: Book, h: Hash, row: R.Row, answer: Answer): Book {
    if !answer.queryOk || h in b.tracking then b else
      var tx := RedeemTx(cfg, t, h, row);
      if tx.Err? || answer.txId.None? then b else
        var sent := b.sent + [Payout(h, tx.value, answer.txId.value)];
        if answer.insertOk
        then Book(b.tracking[h := RedeemAction(answer.txId.value, true, false)], sent, b.unrecorded)
        else Book(b.tracking, sent, b.unrecorded + multiset{h})
  }

  function PayAll(cfg: Config, t: V.Table, b: Book, todo: seq<(Hash, R.Row)>, answers: seq<Answer>): Book
    requires |answers| == |todo|
  {
    if todo == [] then b else
      var last := |todo| - 1;
      PayOne(cfg, t, PayAll(cfg, t, b, todo[..last], answers[..last]), todo[last].0, todo[last].1, answers[last])
  }

  /** `CompleteRedeem`; `ok` says that its query and its UPDATE both succeed. */
  function Complete(b: Book, h: Hash, ok: bool): Book {
    if ok && h in b.tracking && !b.tracking[h].mined then b.(tracking := b.tracking[h := b.tracking[h].(mined := true)]) else b
  }

  // ---------- What a turn of the loop does ----------

  /** Exactly one leading "0x" is removed. */
  lemma PrefixIsRemoved(s: string)
    ensures Remove0xPrefix("0x" + s) == s
    ensures !(exists t :: s == "0x" + t) ==> Remove0xPrefix(s) == s
  {
    if |s| >= 2 && s[..2] == "0x" {
      assert s == "0x" + s[2..];
    }
  }

  /** The transaction of a row, in full. It fails when an outpoint is not in the vault, when the outpoints are worth
      less than amount plus fee, or when an address it pays does not decode. Otherwise it spends the outpoints in
      order, pays the receiver, names the request, and sends what is left over to the change address. */
  lemma RedeemTxExactly(cfg: Config, t: V.Table, h: Hash, row: R.Row)
    ensures var r := RedeemTx(cfg, t, h, row);
            var ks := KeysOf(row.outpoints);
            var dst := Remove0xPrefix(row.receiver);
            && (r == Err(MissingUtxo) <==> exists k :: k in ks && k !in t)
            && ((forall k :: k in ks ==> k in t) ==>
                  var rest := V.SeqTotal(V.Amounts(t), ks) - row.amount - BTC_TX_FEE;
                  && (r == Err(NegativeChange) <==> rest < 0)
                  && (r.Ok? <==> rest >= 0 && cfg.net.decodes(dst) && (rest > 0 ==> cfg.net.decodes(cfg.change)))
                  && (r.Ok? ==>
                        && r.value.inputs == ks
                        && r.value.outputs == [TxOut(row.amount, PayTo(dst)), TxOut(0, Other(NullDataScript(HashBytes(h))))]
                                              + if rest > 0 then [TxOut(rest, PayTo(cfg.change))] else []))
  {
    var ks := KeysOf(row.outpoints);
    if forall k :: k in ks ==> k in t {
      SumIsTotal(t, ks);
      PaymentThenChange(cfg.net, Sum(AmountsOf(t, ks)), Remove0xPrefix(row.receiver), row.amount,
                        Some(NullDataScript(HashBytes(h))), cfg.change, BTC_TX_FEE);
    }
  }

  /** A turn broadcasts exactly when its query works, the redeem is not on record, its transaction can be built and
      the node accepts it. It then records the transaction unless the INSERT fails. */
  lemma PaysExactly(cfg: Config, t: V.Table, b: Book, h: Hash, row: R.Row, answer: Answer)
    ensures var c := PayOne(cfg, t, b, h, row, answer);
            var pays := answer.queryOk && h !in b.tracking && RedeemTx(cfg, t, h, row).Ok? && answer.txId.Some?;
            && (!pays ==> c == b)
            && (pays ==>
                  && c.sent == b.sent + [Payout(h, RedeemTx(cfg, t, h, row).value, answer.txId.value)]
                  && (h in c.tracking <==> answer.insertOk)
                  && (answer.insertOk ==> c.tracking == b.tracking[h := RedeemAction(answer.txId.value, true, false)])
                  && (!answer.insertOk ==> c.tracking == b.tracking)
                  && c.unrecorded == b.unrecorded + if answer.insertOk then multiset{} else multiset{h})
  {
  }

  /** A completion that succeeds leaves the redeem marked as mined, and touches nothing else. */
  lemma CompletionMarks(b: Book, h: Hash)
    ensures var c := Complete(b, h, true);
            && c.sent == b.sent && c.unrecorded == b.unrecorded && c.tracking.Keys == b.tracking.Keys
            && (forall g :: g in b.tracking && g != h ==> c.tracking[g] == b.tracking[g])
            && (h in b.tracking ==>
                  c.tracking[h].mined && c.tracking[h].btcHash == b.tracking[h].btcHash && c.tracking[h].sent == b.tracking[h].sent)
    ensures Complete(b, h, false) == b
  {
  }

  class BtcTxManager {
    const cfg: Config
    var tracking: map<Hash, RedeemAction>
    var sent: seq<Payout>
    var unrecorded: multiset<Hash>

    constructor (cfg: Config)
      ensures this.cfg == cfg && State() == Book(map[], [], multiset{})
    {
      this.cfg := cfg;
      tracking, sent, unrecorded := map[], [], multiset{};
    }

    function State(): Book
      reads this
    {
      Book(tracking, sent, unrecorded)
    }

    method FetchUTXOs(vault: V.Table, row: R.Row) returns (ks: Option<seq<Key>>)
      ensures ks == if forall k :: k in KeysOf(row.outpoints) ==> k in vault then Some(KeysOf(row.outpoints)) else None
    {
      var utxos: seq<Key> := [];
      for i := 0 to |row.outpoints|
        invariant utxos == KeysOf(row.outpoints[..i])
        invariant forall k :: k in utxos ==> k in vault
      {
        var k := ToKey(row.outpoints[i]);
        assert k == KeysOf(row.outpoints)[i];
        if k !in vault {
          return None;
        }
        utxos := utxos + [k];
        assert utxos == KeysOf(row.outpoints[..i + 1]);
      }
      assert row.outpoints[..|row.outpoints|] == row.outpoints;
      ks := Some(utxos);
    }

    method CreateBTCRedeemTx(vault: V.Table, h: Hash, row: R.Row) returns (r: Result<BtcTx, TxError>)
      ensures r == RedeemTx(cfg, vault, h, row)
    {
      var ks := FetchUTXOs(vault, row);
      if ks.None? {
        return Err(MissingUtxo);
      }
      var tx := new MsgTx();
      var error := CraftRedeemOutput(cfg.net, tx, AmountsOf(vault, ks.value), Remove0xPrefix(row.receiver), row.amount,
                                     HashBytes(h), cfg.change, BTC_TX_FEE);
      if error.Some? {
        return Err(error.value);
      }
      r := Ok(BtcTx(ks.value, tx.outputs));
    }

    /** One pass of `WithdrawLoop` over the prepared redeems. */
    method WithdrawRound(vault: V.Table, todo: seq<(Hash, R.Row)>, answers: seq<Answer>)
      requires |answers| == |todo|
      modifies this
      ensures State() == PayAll(cfg, vault, old(State()), todo, answers)
    {
      ghost var start := State();
      for i := 0 to |todo|
        invariant State() == PayAll(cfg, vault, start, todo[..i], answers[..i])
      {
        assert todo[..i + 1][..i] == todo[..i] && answers[..i + 1][..i] == answers[..i];
        var h, row, answer := todo[i].0, todo[i].1, answers[i];
        if !answer.queryOk || h in tracking {
          continue;
        }
        var tx := CreateBTCRedeemTx(vault, h, row);
        if tx.Err? || answer.txId.None? {
          continue;
        }
        sent := sent + [Payout(h, tx.value, answer.txId.value)];
        if answer.insertOk {
          tracking := tracking[h := RedeemAction(answer.txId.value, true, false)];
        } else {
          unrecorded := unrecorded + multiset{h};
        }
      }
      assert todo[..|todo|] == todo && answers[..|todo|] == answers;
    }

    method CompleteRedeem(h: Hash, queryOk: bool, updateOk: bool) returns (ok: bool)
      modifies this
      ensures State() == Complete(old(State()), h, queryOk && updateOk)
      ensures ok == (queryOk && (updateOk || h !in old(tracking) || old(tracking)[h].mined))
    {
      if !queryOk {
        return false;
      }
      ok := true;
      if h in tracking && !tracking[h].mined {
        if !updateOk {
          return false;
        }
        tracking := tracking[h := tracking[h].(mined := true)];
      }
    }
  }
}

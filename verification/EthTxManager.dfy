/** The Ethereum transaction manager: resending only what timed out. */
module EthTxManager {
  import opened Common

  datatype Status = Pending | Timeout | Success | Reverted | Reorg

  /** A row of MonitoredTx; the key is txHash. sentAfterBlk is no column of the table. */
  datatype MonitoredTx = MonitoredTx(id: Hash, sentAfter: Hash, status: Status)

  type Table = map<Hash, MonitoredTx>

  /** Block numbers are uint64, and so is their difference. */
  const TWO_64: int := 0x1_0000_0000_0000_0000

  /** How the chain answers about one pending transaction: the receipt query, the receipt's status if it is
      mined, the number of the block `sentAfter` if it is still found by hash, whether the fallback by number
      works, the latest block number (None when that fails), and the two UPDATE statements. */
  datatype MonitorAnswer = MonitorAnswer(
    receiptOk: bool, mined: Option<bool>, minedUpdateOk: bool,
    sentAfterNumber: Option<nat>, fallbackOk: bool, latest: Option<nat>, timeoutUpdateOk: bool)

  /** How the outside answers for one redeem or mint in a send tick: the lookup of earlier transactions; then the
      check on chain, the outpoints and the signature together; the latest header; the transaction; the INSERT. */
  datatype SendAnswer = SendAnswer(
    lookupOk: bool, ready: bool, header: Option<Hash>, txHash: Option<Hash>, insertOk: bool)

  // ---------- Monitor tick ----------

  function SetStatus(t: Table, tx: Hash, s: Status): Table {
    if tx in t then t[tx := t[tx].(status := s)] else t
  }

  /** `monitorPendingTxs`: after a mined transaction is marked, the timeout check still runs. The fallback looks
      the block up by sentAfterBlk, which reads back as 0 because it is never stored. */
  function MonitorOne(t: Table, tx: Hash, a: MonitorAnswer, timeout: nat): Table {
    if !a.receiptOk then t
    else if a.mined.Some? && !a.minedUpdateOk then t
    else
      var marked := if a.mined.Some? then SetStatus(t, tx, if a.mined.value then Success else Reverted) else t;
      if (a.sentAfterNumber.None? && !a.fallbackOk) || a.latest.None? then marked
      else
        var sentAfter := if a.sentAfterNumber.Some? then a.sentAfterNumber.value else 0;
        if (a.latest.value - sentAfter) % TWO_64 > timeout && a.timeoutUpdateOk then SetStatus(marked, tx, Timeout)
        else marked
  }

  function MonitorAll(t: Table, txs: seq<Hash>, answers: seq<MonitorAnswer>, timeout: nat): Table
    requires |answers| == |txs|
  {
    if txs == [] then t else
      var last := |txs| - 1;
      MonitorOne(MonitorAll(t, txs[..last], answers[..last], timeout), txs[last], answers[last], timeout)
  }

  // ---------- Send ticks ----------

  /** Some earlier transaction of the redeem or mint has not timed out. */
  ghost predicate Live(t: Table, id: Hash) {
    exists tx :: tx in t && t[tx].id == id && t[tx].status != Timeout
  }

  /** The filter of the prepare and mint ticks. A lookup that fails yields no transactions, which reads as
      "never sent". */
  ghost function Filter(t: Table, ids: seq<Hash>, answers: seq<SendAnswer>): seq<(Hash, SendAnswer)>
    requires |answers| == |ids|
  {
    if ids == [] then [] else
      var last := |ids| - 1;
      Filter(t, ids[..last], answers[..last])
      + if !answers[last].lookupOk || !Live(t, ids[last]) then [(ids[last], answers[last])] else []
  }

  function SendOne(t: Table, id: Hash, a: SendAnswer): Table {
    if !a.ready || a.header.None? || a.txHash.None? then t
    else if !a.insertOk || a.txHash.value in t || ZERO_HASH in {a.txHash.value, id, a.header.value} then t
    else t[a.txHash.value := MonitoredTx(id, a.header.value, Pending)]
  }

  function SendAll(t: Table, todo: seq<(Hash, SendAnswer)>): Table {
    if todo == [] then t else
      var last := |todo| - 1;
      SendOne(SendAll(t, todo[..last]), todo[last].0, todo[last].1)
  }

  // ---------- The manager ----------

  class EthTxManager {
    const timeout: nat
    var txs: Table

    constructor (timeout: nat)
      ensures this.timeout == timeout && txs == map[]
    {
      this.timeout := timeout;
      txs := map[];
    }

    /** The loop over the transactions of one id: all of them timed out? */
    method AllTimedOut(id: Hash) returns (timedOut: bool)
      ensures timedOut == !Live(txs, id)
    {
      var todo := set tx | tx in txs && txs[tx].id == id;
      ghost var all := todo;
      timedOut := true;
      while todo != {}
        invariant todo <= all && timedOut
        invariant forall tx :: tx in all && tx !in todo ==> txs[tx].status == Timeout
        decreases todo
      {
        var tx :| tx in todo;
        if txs[tx].status != Timeout {
          return false;
        }
        todo := todo - {tx};
      }
      assert forall tx :: tx in txs && txs[tx].id == id ==> tx in all;
    }

    method Resendable(ids: seq<Hash>, answers: seq<SendAnswer>) returns (todo: seq<(Hash, SendAnswer)>)
      requires |answers| == |ids|
      ensures todo == Filter(txs, ids, answers)
    {
      todo := [];
      for i := 0 to |ids|
        invariant todo == Filter(txs, ids[..i], answers[..i])
      {
        assert ids[..i + 1][..i] == ids[..i] && answers[..i + 1][..i] == answers[..i];
        var again := AllTimedOut(ids[i]);
        if !answers[i].lookupOk || again {
          todo := todo + [(ids[i], answers[i])];
        }
      }
      assert ids[..|ids|] == ids && answers[..|ids|] == answers;
    }

    /** The prepare and the mint tick; the senders work on different ids and are run in turn. */
    method SendTick(ids: seq<Hash>, answers: seq<SendAnswer>)
      requires |answers| == |ids|
      modifies this
      ensures txs == SendAll(old(txs), Filter(old(txs), ids, answers))
    {
      var todo := Resendable(ids, answers);
      ghost var start := txs;
      for i := 0 to |todo|
        invariant txs == SendAll(start, todo[..i])
      {
        assert todo[..i + 1][..i] == todo[..i];
        var id, a := todo[i].0, todo[i].1;
        if !a.ready || a.header.None? || a.txHash.None? {
          continue;
        }
        if a.insertOk && a.txHash.value !in txs && a.txHash.value != ZERO_HASH && id != ZERO_HASH && a.header.value != ZERO_HASH {
          txs := txs[a.txHash.value := MonitoredTx(id, a.header.value, Pending)];
        }
      }
      assert todo[..|todo|] == todo;
    }

    method MonitorTick(pending: seq<Hash>, answers: seq<MonitorAnswer>)
      requires |answers| == |pending|
      modifies this
      ensures txs == MonitorAll(old(txs), pending, answers, timeout)
    {
      ghost var start := txs;
      for i := 0 to |pending|
        invariant txs == MonitorAll(start, pending[..i], answers[..i], timeout)
      {
        assert pending[..i + 1][..i] == pending[..i] && answers[..i + 1][..i] == answers[..i];
        MonitorPendingTxs(pending[i], answers[i]);
      }
      assert pending[..|pending|] == pending && answers[..|pending|] == answers;
    }

    method MonitorPendingTxs(tx: Hash, a: MonitorAnswer)
      modifies this
      ensures txs == MonitorOne(old(txs), tx, a, timeout)
    {
      if !a.receiptOk {
        return;
      }
      if a.mined.Some? {
        if !a.minedUpdateOk {
          return;
        }
        txs := SetStatus(txs, tx, if a.mined.value then Success else Reverted);
      }
      var sentAfter: nat := 0;
      if a.sentAfterNumber.Some? {
        sentAfter := a.sentAfterNumber.value;
      } else if !a.fallbackOk {
        return;
      }
      if a.latest.None? {
        return;
      }
      var diff := (a.latest.value - sentAfter) % TWO_64;
      if diff > timeout && a.timeoutUpdateOk {
        txs := SetStatus(txs, tx, Timeout);
      }
    }
  }
}

/** What the ticks of the Ethereum transaction manager do to each transaction, exactly. */
module EthTxManagerExact {
  import opened Common
  import opened EthTxManager
  import opened EthTxManagerRuns

  // ---------- Monitoring ----------

  /** The receipt query works, and if the transaction is mined, so does the UPDATE that says so. */
  predicate Seen(a: MonitorAnswer) {
    a.receiptOk && (a.mined.Some? ==> a.minedUpdateOk)
  }

  /** The block the transaction was sent after is found by hash, or else by the number 0; the latest block is known;
      their distance modulo 2^64 is above the timeout. */
  predicate Overdue(a: MonitorAnswer, timeout: nat) {
    && (a.sentAfterNumber.Some? || a.fallbackOk) && a.latest.Some?
    && (a.latest.value - (if a.sentAfterNumber.Some? then a.sentAfterNumber.value else 0)) % TWO_64 > timeout
  }

  /** The status after monitoring a transaction of status s. */
  predicate Monitored(s: Status, u: Status, a: MonitorAnswer, timeout: nat) {
    if Seen(a) && Overdue(a, timeout) && a.timeoutUpdateOk then u == Timeout
    else if Seen(a) && a.mined.Some? then u == if a.mined.value then Success else Reverted
    else u == s
  }

  /** Monitoring one transaction, exactly. One that is not mined ends as timed out if and only if the receipt query
      worked, it is overdue and the UPDATE works, and otherwise stays as it was. One that is mined ends as success or
      reverted, unless it is overdue just the same. No other transaction changes. */
  lemma MonitorsExactly(t: Table, tx: Hash, a: MonitorAnswer, timeout: nat)
    requires tx in t
    ensures var u := MonitorOne(t, tx, a, timeout);
            && u.Keys == t.Keys
            && (forall x :: x in t && x != tx ==> u[x] == t[x])
            && u[tx].id == t[tx].id && u[tx].sentAfter == t[tx].sentAfter
            && Monitored(t[tx].status, u[tx].status, a, timeout)
            && (a.mined.None? && t[tx].status == Pending ==>
                  (u[tx].status == Timeout <==> a.receiptOk && Overdue(a, timeout) && a.timeoutUpdateOk)
                  && (u[tx].status != Timeout ==> u == t))
  {
    var u := MonitorOne(t, tx, a, timeout);
    if a.mined.None? && u[tx].status == t[tx].status {
      assert u[tx] == t[tx] && u == t;
    }
  }

  lemma {:induction false} MonitorElsewhere(t: Table, txs: seq<Hash>, answers: seq<MonitorAnswer>, timeout: nat, x: Hash)
    requires |answers| == |txs| && x !in txs && forall tx :: tx in txs ==> tx in t
    ensures var u := MonitorAll(t, txs, answers, timeout); u.Keys == t.Keys && (x in t ==> u[x] == t[x])
  {
    if txs != [] {
      var last := |txs| - 1;
      assert txs[last] in txs && x !in txs[..last];
      MonitorElsewhere(t, txs[..last], answers[..last], timeout, x);
      MonitorsExactly(MonitorAll(t, txs[..last], answers[..last], timeout), txs[last], answers[last], timeout);
    }
  }

  /** A monitor tick, exactly: each of its transactions is monitored by its own answer, and no other one changes. */
  lemma {:induction false} TickMonitorsExactly(t: Table, txs: seq<Hash>, answers: seq<MonitorAnswer>, timeout: nat, i: nat)
    requires |answers| == |txs| && Distinct(txs) && i < |txs| && forall tx :: tx in txs ==> tx in t
    ensures var u := MonitorAll(t, txs, answers, timeout);
            && u.Keys == t.Keys
            && (forall x :: x in t && x !in txs ==> u[x] == t[x])
            && u[txs[i]].id == t[txs[i]].id && u[txs[i]].sentAfter == t[txs[i]].sentAfter
            && Monitored(t[txs[i]].status, u[txs[i]].status, answers[i], timeout)
    decreases |txs|
  {
    var last, tx := |txs| - 1, txs[i];
    var front := txs[..last];
    var before, u := MonitorAll(t, front, answers[..last], timeout), MonitorAll(t, txs, answers, timeout);
    assert txs[last] in txs && txs[last] !in front && tx in txs;
    MonitorElsewhere(t, front, answers[..last], timeout, txs[last]);
    MonitorsExactly(before, txs[last], answers[last], timeout);
    if i < last {
      TickMonitorsExactly(t, front, answers[..last], timeout, i);
      assert front[i] == tx && answers[..last][i] == answers[i];
    }
    forall x | x in t && x !in txs ensures u[x] == t[x] {
      MonitorElsewhere(t, txs, answers, timeout, x);
    }
  }

  // ---------- Sending ----------

  /** The filter of a send tick keeps exactly the items whose lookup fails or all of whose transactions timed out. */
  lemma {:induction false} FilterKeeps(t: Table, ids: seq<Hash>, answers: seq<SendAnswer>, x: (Hash, SendAnswer))
    requires |answers| == |ids|
    ensures x in Filter(t, ids, answers) <==>
            exists i :: 0 <= i < |ids| && x == (ids[i], answers[i])
                        && (!answers[i].lookupOk || forall tx :: tx in t && t[tx].id == ids[i] ==> t[tx].status == Timeout)
  {
    if ids != [] {
      var last := |ids| - 1;
      FilterKeeps(t, ids[..last], answers[..last], x);
      assert Live(t, ids[last]) <==> !(forall tx :: tx in t && t[tx].id == ids[last] ==> t[tx].status == Timeout);
      forall i | 0 <= i < last ensures ids[..last][i] == ids[i] && answers[..last][i] == answers[i] { }
      if x in Filter(t, ids, answers) && x !in Filter(t, ids[..last], answers[..last]) {
        assert x == (ids[last], answers[last]);
      }
    }
  }

  /** The transaction went out and its INSERT is one that the table takes. */
  predicate Recordable(id: Hash, a: SendAnswer) {
    && a.ready && a.header.Some? && a.txHash.Some? && a.insertOk
    && a.txHash.value != ZERO_HASH && id != ZERO_HASH && a.header.value != ZERO_HASH
  }

  /** One item: a pending transaction is recorded with the id and the latest header, exactly when it went out and the
      INSERT works under a hash that is new. */
  lemma SendOneExactly(t: Table, id: Hash, a: SendAnswer)
    ensures SendOne(t, id, a) ==
            if Recordable(id, a) && a.txHash.value !in t then t[a.txHash.value := MonitoredTx(id, a.header.value, Pending)] else t
  {
  }

  /** Rows stay, and a new row is one that an item of the tick recorded. */
  lemma {:induction false} SendAllNew(t: Table, todo: seq<(Hash, SendAnswer)>, tx: Hash)
    ensures var u := SendAll(t, todo);
            && (tx in t ==> tx in u && u[tx] == t[tx])
            && (tx in u && tx !in t ==>
                  exists i :: 0 <= i < |todo| && Recordable(todo[i].0, todo[i].1) && todo[i].1.txHash.value == tx
                              && u[tx] == MonitoredTx(todo[i].0, todo[i].1.header.value, Pending))
            && (tx !in u ==> forall i :: 0 <= i < |todo| && Recordable(todo[i].0, todo[i].1) ==> todo[i].1.txHash.value != tx)
  {
    if todo != [] {
      var last := |todo| - 1;
      SendAllNew(t, todo[..last], tx);
      SendOneExactly(SendAll(t, todo[..last]), todo[last].0, todo[last].1);
      assert forall i :: 0 <= i < last ==> todo[..last][i] == todo[i];
    }
  }

  /** Item i of a send tick has to be sent, and its transaction goes on record. */
  ghost predicate Resent(t: Table, ids: seq<Hash>, answers: seq<SendAnswer>, i: int)
    requires 0 <= i < |ids| == |answers|
  {
    && (!answers[i].lookupOk || forall tx :: tx in t && t[tx].id == ids[i] ==> t[tx].status == Timeout)
    && Recordable(ids[i], answers[i])
  }

  /** A send tick, exactly: rows stay; every new row is the pending transaction of an item of the tick that had to be
      sent; and the transaction of every such item is on record afterwards. */
  lemma TickSendsExactly(t: Table, ids: seq<Hash>, answers: seq<SendAnswer>, tx: Hash)
    requires |answers| == |ids|
    ensures var u := SendAll(t, Filter(t, ids, answers));
            && (tx in t ==> tx in u && u[tx] == t[tx])
            && (tx in u && tx !in t ==>
                  exists i :: 0 <= i < |ids| && Resent(t, ids, answers, i) && answers[i].txHash.value == tx
                              && u[tx] == MonitoredTx(ids[i], answers[i].header.value, Pending))
            && (forall i :: 0 <= i < |ids| && Resent(t, ids, answers, i) && answers[i].txHash.value == tx ==> tx in u)
  {
    var todo := Filter(t, ids, answers);
    SendAllNew(t, todo, tx);
    var u := SendAll(t, todo);
    if tx in u && tx !in t {
      var k :| 0 <= k < |todo| && Recordable(todo[k].0, todo[k].1) && todo[k].1.txHash.value == tx
               && u[tx] == MonitoredTx(todo[k].0, todo[k].1.header.value, Pending);
      FilterKeeps(t, ids, answers, todo[k]);
      var i :| 0 <= i < |ids| && todo[k] == (ids[i], answers[i])
               && (!answers[i].lookupOk || forall x :: x in t && t[x].id == ids[i] ==> t[x].status == Timeout);
      assert Resent(t, ids, answers, i);
    }
    forall i | 0 <= i < |ids| && Resent(t, ids, answers, i) && answers[i].txHash.value == tx ensures tx in u {
      FilterKeeps(t, ids, answers, (ids[i], answers[i]));
    }
  }
}

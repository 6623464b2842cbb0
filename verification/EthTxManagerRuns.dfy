/** Retry safety of the Ethereum transaction manager over all interleavings of its ticks. */
module EthTxManagerRuns {
  import opened Common
  import opened EthTxManager

  datatype Tick =
    | Send(ids: seq<Hash>, sendAnswers: seq<SendAnswer>)
    | Monitor(pending: seq<Hash>, monitorAnswers: seq<MonitorAnswer>)

  /** Ids and pending transactions come from tables that they are the keys of. */
  ghost predicate Legal(t: Table, k: Tick) {
    match k
    case Send(ids, answers) => |answers| == |ids| && Distinct(ids)
    case Monitor(pending, answers) => |answers| == |pending| && forall tx :: tx in pending ==> tx in t && t[tx].status == Pending
  }

  ghost function Do(t: Table, k: Tick, timeout: nat): Table
    requires Legal(t, k)
  {
    match k
    case Send(ids, answers) => SendAll(t, Filter(t, ids, answers))
    case Monitor(pending, answers) => MonitorAll(t, pending, answers, timeout)
  }

  ghost predicate Run(ks: seq<Tick>, timeout: nat)
    decreases |ks|, 0
  {
    ks == [] || (Run(ks[..|ks| - 1], timeout) && Legal(After(ks[..|ks| - 1], timeout), ks[|ks| - 1]))
  }

  ghost function After(ks: seq<Tick>, timeout: nat): Table
    requires Run(ks, timeout)
    decreases |ks|, 1
  {
    if ks == [] then map[] else Do(After(ks[..|ks| - 1], timeout), ks[|ks| - 1], timeout)
  }

  /** At most one transaction of each redeem or mint has not timed out. */
  ghost predicate OneLive(t: Table) {
    forall tx, tx' :: tx in t && tx' in t && t[tx].id == t[tx'].id && t[tx].status != Timeout && t[tx'].status != Timeout
                      ==> tx == tx'
  }

  /** No lookup failed for an id that has a live transaction. */
  ghost predicate LookupsSound(t: Table, k: Tick) {
    k.Send? && |k.sendAnswers| == |k.ids| ==>
      forall i :: 0 <= i < |k.ids| ==> k.sendAnswers[i].lookupOk || !Live(t, k.ids[i])
  }

  /** The items of a send tick are distinct and none has a live transaction. */
  ghost predicate Dead(t: Table, todo: seq<(Hash, SendAnswer)>) {
    && (forall i, j :: 0 <= i < j < |todo| ==> todo[i].0 != todo[j].0)
    && forall i :: 0 <= i < |todo| ==> !Live(t, todo[i].0)
  }

  lemma {:induction false} FilterDead(t: Table, ids: seq<Hash>, answers: seq<SendAnswer>)
    requires |answers| == |ids| && Distinct(ids)
    requires forall i :: 0 <= i < |ids| ==> answers[i].lookupOk || !Live(t, ids[i])
    ensures Dead(t, Filter(t, ids, answers))
    ensures forall i :: 0 <= i < |Filter(t, ids, answers)| ==> Filter(t, ids, answers)[i].0 in ids
  {
    if ids != [] {
      var last := |ids| - 1;
      FilterDead(t, ids[..last], answers[..last]);
      assert ids[last] !in ids[..last];
    }
  }

  lemma SendOneKeeps(t: Table, id: Hash, a: SendAnswer)
    requires OneLive(t) && !Live(t, id)
    ensures OneLive(SendOne(t, id, a))
    ensures forall g :: Live(SendOne(t, id, a), g) ==> Live(t, g) || g == id
  {
  }

  lemma {:induction false} SendAllKeeps(t: Table, todo: seq<(Hash, SendAnswer)>)
    requires OneLive(t) && Dead(t, todo)
    ensures OneLive(SendAll(t, todo))
    ensures forall g :: Live(SendAll(t, todo), g) ==> Live(t, g) || exists i :: 0 <= i < |todo| && todo[i].0 == g
  {
    if todo != [] {
      var last := |todo| - 1;
      SendAllKeeps(t, todo[..last]);
      var before := SendAll(t, todo[..last]);
      assert !Live(before, todo[last].0);
      SendOneKeeps(before, todo[last].0, todo[last].1);
      forall g | Live(SendAll(t, todo), g) ensures Live(t, g) || exists i :: 0 <= i < |todo| && todo[i].0 == g {
        if Live(before, g) && !Live(t, g) {
          var i :| 0 <= i < last && todo[..last][i].0 == g;
          assert todo[i].0 == g;
        }
      }
    }
  }

  /** Monitoring a live transaction never revives another one. */
  lemma {:induction false} MonitorAllKeeps(t: Table, txs: seq<Hash>, answers: seq<MonitorAnswer>, timeout: nat)
    requires |answers| == |txs| && forall tx :: tx in txs ==> tx in t && t[tx].status != Timeout
    ensures var u := MonitorAll(t, txs, answers, timeout);
            && u.Keys == t.Keys
            && forall tx :: tx in t ==> u[tx].id == t[tx].id && (u[tx].status != Timeout ==> t[tx].status != Timeout)
  {
    if txs != [] {
      MonitorAllKeeps(t, txs[..|txs| - 1], answers[..|txs| - 1], timeout);
      assert txs[|txs| - 1] in txs;
    }
  }

  /** A tick keeps at most one live transaction per id unless it sends for an id whose lookup failed. */
  lemma TickKeepsOneLive(t: Table, k: Tick, timeout: nat)
    requires OneLive(t) && Legal(t, k) && LookupsSound(t, k)
    ensures OneLive(Do(t, k, timeout))
  {
    match k
    case Send(ids, answers) =>
      FilterDead(t, ids, answers);
      SendAllKeeps(t, Filter(t, ids, answers));
    case Monitor(pending, answers) =>
      MonitorAllKeeps(t, pending, answers, timeout);
  }

  ghost predicate LookupsSoundThroughout(ks: seq<Tick>, timeout: nat)
    requires Run(ks, timeout)
  {
    ks == [] || (
      var before := ks[..|ks| - 1];
      LookupsSoundThroughout(before, timeout) && LookupsSound(After(before, timeout), ks[|ks| - 1]))
  }

  /** Retry safety across all interleavings of mint, prepare and monitor ticks. */
  lemma {:induction false} RetrySafety(ks: seq<Tick>, timeout: nat)
    requires Run(ks, timeout) && LookupsSoundThroughout(ks, timeout)
    ensures OneLive(After(ks, timeout))
  {
    if ks != [] {
      var before := ks[..|ks| - 1];
      RetrySafety(before, timeout);
      TickKeepsOneLive(After(before, timeout), ks[|ks| - 1], timeout);
    }
  }

  lemma {:induction false} FilterIs(t: Table, ids: seq<Hash>, answers: seq<SendAnswer>)
    requires |answers| == |ids| && Distinct(ids)
    ensures forall i :: 0 <= i < |Filter(t, ids, answers)| ==> Filter(t, ids, answers)[i].0 in ids
    ensures forall i :: 0 <= i < |Filter(t, ids, answers)| ==>
                          Filter(t, ids, answers)[i].1.lookupOk ==> !Live(t, Filter(t, ids, answers)[i].0)
    ensures forall i, j :: 0 <= i < j < |Filter(t, ids, answers)| ==>
                             Filter(t, ids, answers)[i].0 != Filter(t, ids, answers)[j].0
  {
    if ids != [] {
      var last := |ids| - 1;
      FilterIs(t, ids[..last], answers[..last]);
      assert ids[last] !in ids[..last];
    }
  }

  lemma SendOneOnlyAdds(t: Table, id: Hash, a: SendAnswer)
    ensures var u := SendOne(t, id, a);
            && (forall tx :: tx in t ==> tx in u && u[tx] == t[tx])
            && (forall g :: Live(u, g) <==> Live(t, g) || (u != t && g == id))
            && (u != t && Live(t, id) ==> !OneLive(u))
  {
    var u := SendOne(t, id, a);
    forall g | Live(t, g) ensures Live(u, g) {
      var tx :| tx in t && t[tx].id == g && t[tx].status != Timeout;
      assert tx in u && u[tx] == t[tx];
    }
    if u != t {
      assert a.txHash.value in u && u[a.txHash.value].id == id;
      if Live(t, id) {
        var tx :| tx in t && t[tx].id == id && t[tx].status != Timeout;
        assert u[tx] == t[tx] && tx != a.txHash.value;
      }
    }
  }

  lemma {:induction false} SendAllOnlyAdds(t: Table, todo: seq<(Hash, SendAnswer)>)
    ensures var u := SendAll(t, todo);
            && (forall tx :: tx in t ==> tx in u && u[tx] == t[tx])
            && (forall g :: Live(t, g) ==> Live(u, g))
            && forall g :: Live(u, g) ==> Live(t, g) || exists i :: 0 <= i < |todo| && todo[i].0 == g
  {
    if todo != [] {
      var last := |todo| - 1;
      SendAllOnlyAdds(t, todo[..last]);
      SendOneOnlyAdds(SendAll(t, todo[..last]), todo[last].0, todo[last].1);
      assert forall i :: 0 <= i < last ==> todo[..last][i] == todo[i];
    }
  }

  /** Item i of a tick sends for an id that had a live transaction when the tick began. */
  ghost predicate Resends(t: Table, todo: seq<(Hash, SendAnswer)>, i: int)
    requires 0 <= i < |todo|
  {
    Live(t, todo[i].0) && SendAll(t, todo[..i + 1]) != SendAll(t, todo[..i])
  }

  lemma OneLiveStep(t: Table, id: Hash, a: SendAnswer)
    ensures OneLive(SendOne(t, id, a)) <==> OneLive(t) && !(Live(t, id) && SendOne(t, id, a) != t)
  {
    var u := SendOne(t, id, a);
    SendOneOnlyAdds(t, id, a);
    if OneLive(t) && !Live(t, id) {
      SendOneKeeps(t, id, a);
    }
    if OneLive(u) {
      forall x, y | x in t && y in t && t[x].id == t[y].id && t[x].status != Timeout && t[y].status != Timeout ensures x == y {
        assert u[x] == t[x] && u[y] == t[y];
      }
    }
  }

  lemma {:induction false} OneLiveIff(t: Table, todo: seq<(Hash, SendAnswer)>)
    requires OneLive(t) && forall i, j :: 0 <= i < j < |todo| ==> todo[i].0 != todo[j].0
    ensures OneLive(SendAll(t, todo)) <==> forall i :: 0 <= i < |todo| ==> !Resends(t, todo, i)
  {
    if todo != [] {
      var last := |todo| - 1;
      var front, id, a := todo[..last], todo[last].0, todo[last].1;
      var before := SendAll(t, front);
      OneLiveIff(t, front);
      SendAllOnlyAdds(t, front);
      assert Live(before, id) <==> Live(t, id);
      assert todo[..last + 1] == todo;
      forall i | 0 <= i < last ensures Resends(t, front, i) <==> Resends(t, todo, i) {
        assert front[i] == todo[i] && front[..i + 1] == todo[..i + 1] && front[..i] == todo[..i];
      }
      OneLiveStep(before, id, a);
      assert Resends(t, todo, last) <==> Live(t, id) && SendOne(before, id, a) != before;
      assert (forall i :: 0 <= i < |todo| ==> !Resends(t, todo, i)) <==>
             (forall i :: 0 <= i < |front| ==> !Resends(t, front, i)) && !Resends(t, todo, last);
    }
  }

  /** What a send tick keeps is decided by its lookups: at most one transaction per id stays live exactly when the
      tick sends for no id that has a live one, and it can do so only where the lookup failed. */
  lemma LookupDecides(t: Table, ids: seq<Hash>, answers: seq<SendAnswer>)
    requires OneLive(t) && |answers| == |ids| && Distinct(ids)
    ensures var todo := Filter(t, ids, answers);
            && (OneLive(SendAll(t, todo)) <==> forall i :: 0 <= i < |todo| ==> !Resends(t, todo, i))
            && forall i :: 0 <= i < |todo| && Resends(t, todo, i) ==> !todo[i].1.lookupOk
  {
    FilterIs(t, ids, answers);
    OneLiveIff(t, Filter(t, ids, answers));
  }

  /** A transaction that was just seen mined ends the tick as timed out exactly when the timeout check still runs and
      finds the block distance, modulo 2^64, beyond the timeout. */
  lemma MinedMayTimeOut(t: Table, tx: Hash, a: MonitorAnswer, timeout: nat)
    requires tx in t && a.receiptOk && a.mined.Some? && a.minedUpdateOk
    ensures tx in MonitorOne(t, tx, a, timeout)
    ensures var status := MonitorOne(t, tx, a, timeout)[tx].status;
            var sentAfter := if a.sentAfterNumber.Some? then a.sentAfterNumber.value else 0;
            && (status == Timeout <==>
                  && a.latest.Some? && (a.sentAfterNumber.Some? || a.fallbackOk) && a.timeoutUpdateOk
                  && (a.latest.value - sentAfter) % TWO_64 > timeout)
            && (status != Timeout ==> status == if a.mined.value then Success else Reverted)
  {
  }
}

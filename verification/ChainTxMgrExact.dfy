/** What the rounds of the chain transaction manager do to each record, exactly. */
module ChainTxMgrExact {
  import opened Common
  import opened ChainTxMgr
  import opened ChainTxMgrRuns

  // ---------- Sending ----------

  /** The filter keeps exactly the items whose lookup works and that no record refers to, each with its answer. */
  lemma {:induction false} FilterKeeps(t: Table, refs: seq<Hash>, answers: seq<SendAnswer>, x: (Hash, SendAnswer))
    requires |answers| == |refs|
    ensures x in Filter(t, refs, answers) <==>
            exists i :: 0 <= i < |refs| && x == (refs[i], answers[i]) && answers[i].lookupOk
                        && forall id :: id in t ==> t[id].ref != refs[i]
  {
    if refs != [] {
      var last := |refs| - 1;
      FilterKeeps(t, refs[..last], answers[..last], x);
      assert Has(t, refs[last]) <==> exists id :: id in t && t[id].ref == refs[last];
      forall i | 0 <= i < last ensures refs[..last][i] == refs[i] && answers[..last][i] == answers[i] { }
      if x in Filter(t, refs, answers) && x !in Filter(t, refs[..last], answers[..last]) {
        assert x == (refs[last], answers[last]);
      }
    }
  }

  /** The transaction of an item goes out: nothing was found on chain, its parameters are there, the call succeeds. */
  predicate GoesOut(a: SendAnswer) {
    a.check == NotFound && a.paramsOk && a.reply.Some?
  }

  /** The ledger number of a send: that of the reply, else the latest one. */
  predicate SentAt(a: SendAnswer, n: nat)
    requires a.reply.Some?
  {
    a.reply.value.1 == Some(n) || (a.reply.value.1.None? && a.latest == Some(n))
  }

  predicate Numbered(a: SendAnswer) {
    a.reply.Some? ==> a.reply.value.1.Some? || a.latest.Some?
  }

  /** One item: it is sent if it goes out, and then recorded as pending under its reference, with its ledger number and
      nothing found, unless the INSERT fails or the number is unknown. */
  lemma SendOneExactly(m: Mgr, ref: Hash, a: SendAnswer)
    requires !m.crashed
    ensures var n := SendOne(m, ref, a);
            && (!GoesOut(a) ==> n == m)
            && (GoesOut(a) ==>
                  var id := a.reply.value.0;
                  && n.sends == m.sends + multiset{ref}
                  && (n.crashed <==> !Numbered(a))
                  && (!Numbered(a) || !a.insertOk || id in m.txs ==> n.txs == m.txs && n.unrecorded == m.unrecorded + multiset{ref})
                  && forall at :: Numbered(a) && a.insertOk && id !in m.txs && SentAt(a, at) ==>
                                    n.txs == m.txs[id := MonitoredTx(ref, Some(at), None, Pending)] && n.unrecorded == m.unrecorded)
  {
  }

  ghost predicate AllNumbered(todo: seq<(Hash, SendAnswer)>) {
    forall i :: 0 <= i < |todo| ==> Numbered(todo[i].1)
  }

  lemma {:induction false} SendAllElsewhere(m: Mgr, todo: seq<(Hash, SendAnswer)>, ref: Hash)
    requires !m.crashed && AllNumbered(todo) && forall i :: 0 <= i < |todo| ==> todo[i].0 != ref
    ensures var n := SendAll(m, todo);
            && !n.crashed && n.sends[ref] == m.sends[ref]
            && forall id :: id in m.txs ==> id in n.txs && n.txs[id] == m.txs[id]
  {
    if todo != [] {
      var last := |todo| - 1;
      SendAllElsewhere(m, todo[..last], ref);
      SendOneExactly(SendAll(m, todo[..last]), todo[last].0, todo[last].1);
    }
  }

  /** A new record comes from an item whose reply named it. */
  lemma {:induction false} SendAllNew(m: Mgr, todo: seq<(Hash, SendAnswer)>, id: TxId)
    requires id !in m.txs && forall i :: 0 <= i < |todo| && todo[i].1.reply.Some? ==> todo[i].1.reply.value.0 != id
    ensures id !in SendAll(m, todo).txs
  {
    if todo != [] {
      SendAllNew(m, todo[..|todo| - 1], id);
    }
  }

  /** No other reply of the round names the transaction that item i was told. */
  predicate NamedOnce(todo: seq<(Hash, SendAnswer)>, i: nat)
    requires i < |todo| && todo[i].1.reply.Some?
  {
    forall j :: 0 <= j < |todo| && j != i && todo[j].1.reply.Some? ==> todo[j].1.reply.value.0 != todo[i].1.reply.value.0
  }

  predicate Recorded(t: Table, ref: Hash, a: SendAnswer, at: nat)
    requires a.reply.Some?
  {
    a.reply.value.0 in t && t[a.reply.value.0] == MonitoredTx(ref, Some(at), None, Pending)
  }

  lemma {:induction false} SendAllCounts(m: Mgr, todo: seq<(Hash, SendAnswer)>, i: nat)
    requires !m.crashed && AllNumbered(todo) && i < |todo|
    requires forall j, k :: 0 <= j < k < |todo| ==> todo[j].0 != todo[k].0
    ensures var n := SendAll(m, todo);
            !n.crashed && n.sends[todo[i].0] == m.sends[todo[i].0] + (if GoesOut(todo[i].1) then 1 else 0)
    decreases |todo|
  {
    var last := |todo| - 1;
    var front, before := todo[..last], SendAll(m, todo[..last]);
    if i == last {
      SendAllElsewhere(m, front, todo[i].0);
    } else {
      SendAllCounts(m, front, i);
      assert todo[last].0 != todo[i].0;
    }
    SendOneExactly(before, todo[last].0, todo[last].1);
  }

  lemma {:induction false} SendAllRecords(m: Mgr, todo: seq<(Hash, SendAnswer)>, i: nat, at: nat)
    requires !m.crashed && AllNumbered(todo) && i < |todo|
    requires GoesOut(todo[i].1) && todo[i].1.insertOk && todo[i].1.reply.value.0 !in m.txs
    requires SentAt(todo[i].1, at) && NamedOnce(todo, i)
    ensures !SendAll(m, todo).crashed && Recorded(SendAll(m, todo).txs, todo[i].0, todo[i].1, at)
    decreases |todo|
  {
    var last := |todo| - 1;
    var front, before := todo[..last], SendAll(m, todo[..last]);
    NeverCrashes(m, front);
    if i == last {
      SendAllNew(m, front, todo[i].1.reply.value.0);
    } else {
      SendAllRecords(m, front, i, at);
    }
    SendOneExactly(before, todo[last].0, todo[last].1);
  }

  lemma {:induction false} NeverCrashes(m: Mgr, todo: seq<(Hash, SendAnswer)>)
    requires !m.crashed && AllNumbered(todo)
    ensures !SendAll(m, todo).crashed
  {
    if todo != [] {
      NeverCrashes(m, todo[..|todo| - 1]);
    }
  }

  /** A send round, exactly, when every send learns a ledger number: a reference of the round is sent once more if its
      lookup works, no record refers to it, and it goes out, and not otherwise. If its INSERT works and the reply names a
      transaction that no record and no other reply of the round names, its pending record is there afterwards. */
  lemma RoundSendsExactly(m: Mgr, refs: seq<Hash>, answers: seq<SendAnswer>, i: nat, at: nat)
    requires |answers| == |refs| && Distinct(refs) && i < |refs|
    requires forall j :: 0 <= j < |refs| ==> Numbered(answers[j])
    ensures var n := SendRound(m, refs, answers); var a := answers[i];
            var sends := a.lookupOk && (forall id :: id in m.txs ==> m.txs[id].ref != refs[i]) && GoesOut(a);
            && n.sends[refs[i]] == m.sends[refs[i]] + (if sends then 1 else 0)
            && (sends && a.insertOk && a.reply.value.0 !in m.txs && SentAt(a, at)
                && (forall j :: 0 <= j < |refs| && j != i && answers[j].reply.Some? ==> answers[j].reply.value.0 != a.reply.value.0)
                ==> a.reply.value.0 in n.txs && n.txs[a.reply.value.0] == MonitoredTx(refs[i], Some(at), None, Pending))
  {
    var start, todo, a := m.(crashed := false), Filter(m.txs, refs, answers), answers[i];
    FilterUntracked(m.txs, refs, answers);
    FilterNumbered(m.txs, refs, answers);
    FilterKeeps(m.txs, refs, answers, (refs[i], a));
    if (refs[i], a) in todo {
      var k :| 0 <= k < |todo| && todo[k] == (refs[i], a);
      SendAllCounts(start, todo, k);
      OthersInRound(m.txs, refs, answers, i, k);
      if GoesOut(a) && a.insertOk && a.reply.value.0 !in m.txs && SentAt(a, at) && NamedOnce(todo, k) {
        SendAllRecords(start, todo, k, at);
      }
    } else {
      forall j | 0 <= j < |todo| ensures todo[j].0 != refs[i] {
        FilterKeeps(m.txs, refs, answers, todo[j]);
      }
      SendAllElsewhere(start, todo, refs[i]);
    }
  }

  lemma OthersInRound(t: Table, refs: seq<Hash>, answers: seq<SendAnswer>, i: nat, k: nat)
    requires |answers| == |refs| && i < |refs| && Untracked(t, Filter(t, refs, answers))
    requires k < |Filter(t, refs, answers)| && Filter(t, refs, answers)[k] == (refs[i], answers[i])
    ensures forall j :: 0 <= j < |Filter(t, refs, answers)| && j != k ==>
                          exists l :: 0 <= l < |refs| && l != i && Filter(t, refs, answers)[j] == (refs[l], answers[l])
  {
    var todo := Filter(t, refs, answers);
    forall j | 0 <= j < |todo| && j != k ensures exists l :: 0 <= l < |refs| && l != i && todo[j] == (refs[l], answers[l]) {
      FilterKeeps(t, refs, answers, todo[j]);
      assert todo[j].0 != todo[k].0;
    }
  }

  lemma FilterNumbered(t: Table, refs: seq<Hash>, answers: seq<SendAnswer>)
    requires |answers| == |refs| && forall j :: 0 <= j < |refs| ==> Numbered(answers[j])
    ensures AllNumbered(Filter(t, refs, answers))
  {
    var todo := Filter(t, refs, answers);
    forall i | 0 <= i < |todo| ensures Numbered(todo[i].1) {
      FilterKeeps(t, refs, answers, todo[i]);
    }
  }

  // ---------- Tracking ----------

  /** The transaction is included in the chain but the answer lacks its ledger number. */
  predicate EndsRound(a: TrackAnswer) {
    a.status.Some? && a.updateOk && (a.status.value.0 == Success || a.status.value.0 == Reverted) && a.status.value.1.None?
  }

  lemma {:induction false} TrackBreaksOff(m: Mgr, todo: seq<(TxId, Option<nat>)>, answers: seq<TrackAnswer>, timeout: nat)
    requires |answers| == |todo| && !m.crashed
    ensures TrackAll(m, todo, answers, timeout).crashed <==> exists i :: 0 <= i < |answers| && EndsRound(answers[i])
  {
    if todo != [] {
      var last := |todo| - 1;
      TrackBreaksOff(m, todo[..last], answers[..last], timeout);
      assert forall i :: 0 <= i < last ==> answers[..last][i] == answers[i];
    }
  }

  /** A tracking round, exactly. It breaks off when an included transaction comes without its ledger number. If it does
      not break off, every unfinished record is treated by its own answer: it stays as it was if the query or its first
      UPDATE fails; it is included with the answered status, and with the answered number if that UPDATE works; and
      otherwise it has the answered status, or Timeout if the latest ledger number is known and has reached the sent
      number plus the timeout and that UPDATE works. Other records are left alone. */
  lemma TrackingExactly(m: Mgr, todo: seq<(TxId, Option<nat>)>, answers: seq<TrackAnswer>, timeout: nat, id: TxId)
    requires |answers| == |todo| && Unfinished(m.txs, todo) && id in m.txs
    ensures var n := TrackAll(m.(crashed := false), todo, answers, timeout); var r := m.txs[id];
            && (n.crashed <==> exists i :: 0 <= i < |answers| && EndsRound(answers[i]))
            && id in n.txs && n.txs[id].ref == r.ref && n.txs[id].sent == r.sent
            && (r.status != Limbo && r.status != Pending ==> n.txs[id] == r)
            && (r.status == Limbo || r.status == Pending ==>
                  exists i :: 0 <= i < |todo| && todo[i].0 == id && (!n.crashed ==> Treated(r, n.txs[id], answers[i], timeout)))
  {
    var start, n := m.(crashed := false), TrackAll(m.(crashed := false), todo, answers, timeout);
    TrackBreaksOff(start, todo, answers, timeout);
    TrackKeepsIdentity(start, todo, answers, timeout);
    if Final(m.txs[id].status) {
      TrackElsewhere(start, todo, answers, timeout, id);
    } else {
      var i :| 0 <= i < |todo| && todo[i].0 == id;
      TrackAt(start, todo, answers, timeout, i);
      assert !n.crashed ==> !EndsRound(answers[i]);
      assert !n.crashed ==> Treated(m.txs[id], n.txs[id], answers[i], timeout);
    }
  }

  /** How record r becomes u by an answer, when the round does not break off. */
  predicate Treated(r: MonitoredTx, u: MonitoredTx, a: TrackAnswer, timeout: nat) {
    if a.status.None? || !a.updateOk then u == r
    else if a.status.value.0 == Success || a.status.value.0 == Reverted then
      u.status == a.status.value.0 && u.found == if a.foundOk then a.status.value.1 else r.found
    else
      && u.found == r.found
      && (u.status == Timeout <==>
            || a.status.value.0 == Timeout
            || (r.sent.Some? && a.latest.Some? && r.sent.value + timeout <= a.latest.value && a.timeoutOk))
      && (u.status != Timeout ==> u.status == a.status.value.0)
  }
}

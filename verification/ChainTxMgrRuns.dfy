/** Guarantees of the chain transaction manager over all runs of its rounds. */
module ChainTxMgrRuns {
  import opened Common
  import opened ChainTxMgr

  /** The references of one send round come from a table that they are the key of, so they are distinct. */
  datatype Round =
    | Send(refs: seq<Hash>, sendAnswers: seq<SendAnswer>)
    | Track(todo: seq<(TxId, Option<nat>)>, trackAnswers: seq<TrackAnswer>)

  const START: Mgr := Mgr(map[], multiset{}, multiset{}, false)

  ghost predicate Legal(m: Mgr, r: Round) {
    match r
    case Send(refs, answers) => |answers| == |refs| && Distinct(refs)
    case Track(todo, answers) => |answers| == |todo| && Unfinished(m.txs, todo)
  }

  ghost function Do(m: Mgr, r: Round, timeout: nat): Mgr
    requires Legal(m, r)
  {
    match r
    case Send(refs, answers) => SendRound(m, refs, answers)
    case Track(todo, answers) => TrackAll(m.(crashed := false), todo, answers, timeout)
  }

  ghost predicate Run(m: Mgr, rs: seq<Round>, timeout: nat)
    decreases |rs|, 0
  {
    rs == [] || (Run(m, rs[..|rs| - 1], timeout) && Legal(After(m, rs[..|rs| - 1], timeout), rs[|rs| - 1]))
  }

  ghost function After(m: Mgr, rs: seq<Round>, timeout: nat): Mgr
    requires Run(m, rs, timeout)
    decreases |rs|, 1
  {
    if rs == [] then m else Do(After(m, rs[..|rs| - 1], timeout), rs[|rs| - 1], timeout)
  }

  // ---------- Invariant ----------

  ghost predicate Inv(m: Mgr) {
    && (forall id, id' :: id in m.txs && id' in m.txs && m.txs[id].ref == m.txs[id'].ref ==> id == id')
    && (forall ref :: m.sends[ref] == m.unrecorded[ref] + if Has(m.txs, ref) then 1 else 0)
    && forall id :: id in m.txs ==> m.txs[id].sent.Some? && (m.txs[id].found.Some? ==> Included(m.txs[id].status))
  }

  // ---------- Send rounds ----------

  ghost predicate Untracked(t: Table, todo: seq<(Hash, SendAnswer)>) {
    && (forall i, j :: 0 <= i < j < |todo| ==> todo[i].0 != todo[j].0)
    && forall i :: 0 <= i < |todo| ==> !Has(t, todo[i].0)
  }

  lemma {:induction false} FilterUntracked(t: Table, refs: seq<Hash>, answers: seq<SendAnswer>)
    requires |answers| == |refs| && Distinct(refs)
    ensures Untracked(t, Filter(t, refs, answers))
    ensures forall i :: 0 <= i < |Filter(t, refs, answers)| ==> Filter(t, refs, answers)[i].0 in refs
  {
    if refs != [] {
      var last := |refs| - 1;
      FilterUntracked(t, refs[..last], answers[..last]);
      assert refs[last] !in refs[..last];
    }
  }

  /** Sending a reference without a record keeps the invariant and records at most that reference. */
  lemma SendOneKeeps(m: Mgr, ref: Hash, answer: SendAnswer)
    requires Inv(m) && !Has(m.txs, ref)
    ensures var n := SendOne(m, ref, answer);
            && Inv(n)
            && (forall g :: Has(n.txs, g) ==> Has(m.txs, g) || g == ref)
            && forall id :: id in m.txs ==> id in n.txs && n.txs[id] == m.txs[id]
  {
    var n := SendOne(m, ref, answer);
    if n.txs != m.txs {
      var id := answer.reply.value.0;
      assert n.txs == m.txs[id := n.txs[id]] && n.txs[id].ref == ref;
      forall g ensures Has(n.txs, g) <==> Has(m.txs, g) || g == ref {
        if Has(m.txs, g) {
          var x :| x in m.txs && m.txs[x].ref == g;
          assert x in n.txs && n.txs[x].ref == g;
        }
      }
    }
  }

  lemma {:induction false} SendAllKeeps(m: Mgr, todo: seq<(Hash, SendAnswer)>)
    requires Inv(m) && Untracked(m.txs, todo)
    ensures var n := SendAll(m, todo);
            && Inv(n)
            && (forall g :: Has(n.txs, g) ==> Has(m.txs, g) || exists i :: 0 <= i < |todo| && todo[i].0 == g)
            && forall id :: id in m.txs ==> id in n.txs && n.txs[id] == m.txs[id]
  {
    if todo != [] {
      var last := |todo| - 1;
      SendAllKeeps(m, todo[..last]);
      var before := SendAll(m, todo[..last]);
      assert !Has(before.txs, todo[last].0);
      SendOneKeeps(before, todo[last].0, todo[last].1);
      forall g | Has(SendAll(m, todo).txs, g)
        ensures Has(m.txs, g) || exists i :: 0 <= i < |todo| && todo[i].0 == g
      {
        if Has(before.txs, g) && !Has(m.txs, g) {
          var i :| 0 <= i < last && todo[..last][i].0 == g;
          assert todo[i].0 == g;
        }
      }
    }
  }

  // ---------- Tracking rounds ----------

  ghost predicate In(id: TxId, todo: seq<(TxId, Option<nat>)>) {
    exists i :: 0 <= i < |todo| && todo[i].0 == id
  }

  lemma {:induction false} TrackElsewhere(m: Mgr, todo: seq<(TxId, Option<nat>)>, answers: seq<TrackAnswer>, timeout: nat, id: TxId)
    requires |answers| == |todo| && id in m.txs && forall i :: 0 <= i < |todo| ==> todo[i].0 != id
    ensures var n := TrackAll(m, todo, answers, timeout); id in n.txs && n.txs[id] == m.txs[id]
  {
    if todo != [] {
      var last := |todo| - 1;
      TrackElsewhere(m, todo[..last], answers[..last], timeout, id);
      TrackOneElsewhere(TrackAll(m, todo[..last], answers[..last], timeout), todo[last].0, id, todo[last].1, answers[last], timeout);
    }
  }

  lemma TrackOneAt(m: Mgr, id: TxId, answer: TrackAnswer, timeout: nat)
    requires id in m.txs && !m.crashed
    ensures var n := TrackOne(m, id, m.txs[id].sent, answer, timeout);
            id in n.txs && n.txs[id] == TrackRecord(m.txs[id], answer, timeout)
  {
    var n, r, q := TrackOne(m, id, m.txs[id].sent, answer, timeout), m.txs[id], TrackRecord(m.txs[id], answer, timeout);
    if answer.status.Some? && answer.updateOk {
      var (status, ledger) := answer.status.value;
      if Included(status) {
        if ledger.Some? && answer.foundOk {
          assert n.txs[id].found == Some(ledger.value);
        }
        assert n.txs[id] == q;
      } else if Expired(r.sent, answer.latest, timeout) && answer.timeoutOk {
        assert n.txs[id] == q;
      } else {
        assert n.txs[id] == q;
      }
    }
  }

  lemma TrackOneElsewhere(m: Mgr, id: TxId, other: TxId, sent: Option<nat>, answer: TrackAnswer, timeout: nat)
    requires other in m.txs && other != id
    ensures var n := TrackOne(m, id, sent, answer, timeout); other in n.txs && n.txs[other] == m.txs[other]
    ensures m.crashed ==> TrackOne(m, id, sent, answer, timeout) == m
  {
  }

  /** A tracking round rewrites record i by its own answer, or leaves it because the round broke off. */
  lemma {:induction false} TrackAt(m: Mgr, todo: seq<(TxId, Option<nat>)>, answers: seq<TrackAnswer>, timeout: nat, i: nat)
    requires |answers| == |todo| && i < |todo|
    requires forall j, k :: 0 <= j < k < |todo| ==> todo[j].0 != todo[k].0
    requires todo[i].0 in m.txs && todo[i].1 == m.txs[todo[i].0].sent
    ensures var n := TrackAll(m, todo, answers, timeout);
            && todo[i].0 in n.txs
            && (n.txs[todo[i].0] == TrackRecord(m.txs[todo[i].0], answers[i], timeout)
                || (n.crashed && n.txs[todo[i].0] == m.txs[todo[i].0]))
    decreases |todo|
  {
    var last := |todo| - 1;
    var front, id := todo[..last], todo[i].0;
    var before := TrackAll(m, front, answers[..last], timeout);
    if i == last {
      TrackElsewhere(m, front, answers[..last], timeout, id);
      if !before.crashed {
        TrackOneAt(before, id, answers[i], timeout);
      }
    } else {
      TrackAt(m, front, answers[..last], timeout, i);
      assert todo[last].0 != id;
      TrackOneElsewhere(before, todo[last].0, id, todo[last].1, answers[last], timeout);
    }
  }

  lemma {:induction false} TrackKeepsIdentity(m: Mgr, todo: seq<(TxId, Option<nat>)>, answers: seq<TrackAnswer>, timeout: nat)
    requires |answers| == |todo|
    ensures var n := TrackAll(m, todo, answers, timeout);
            && n.sends == m.sends && n.unrecorded == m.unrecorded && n.txs.Keys == m.txs.Keys
            && forall id :: id in m.txs ==> n.txs[id].ref == m.txs[id].ref && n.txs[id].sent == m.txs[id].sent
  {
    if todo != [] {
      TrackKeepsIdentity(m, todo[..|todo| - 1], answers[..|todo| - 1], timeout);
    }
  }

  lemma TrackRoundKeeps(m: Mgr, r: Round, timeout: nat)
    requires Inv(m) && r.Track? && Legal(m, r)
    ensures Inv(Do(m, r, timeout))
  {
    var start, n := m.(crashed := false), Do(m, r, timeout);
    TrackKeepsIdentity(start, r.todo, r.trackAnswers, timeout);
    forall ref ensures Has(n.txs, ref) == Has(m.txs, ref) {
      if Has(m.txs, ref) {
        var id :| id in m.txs && m.txs[id].ref == ref;
        assert id in n.txs && n.txs[id].ref == ref;
      }
    }
    forall id | id in n.txs ensures n.txs[id].sent.Some? && (n.txs[id].found.Some? ==> Included(n.txs[id].status)) {
      if In(id, r.todo) {
        var i :| 0 <= i < |r.todo| && r.todo[i].0 == id;
        TrackAt(start, r.todo, r.trackAnswers, timeout, i);
      } else {
        TrackElsewhere(start, r.todo, r.trackAnswers, timeout, id);
      }
    }
  }

  // ---------- Theorems ----------

  lemma {:induction false} Always(rs: seq<Round>, timeout: nat)
    requires Run(START, rs, timeout)
    ensures Inv(After(START, rs, timeout))
  {
    if rs != [] {
      var m, r := After(START, rs[..|rs| - 1], timeout), rs[|rs| - 1];
      Always(rs[..|rs| - 1], timeout);
      if r.Send? {
        FilterUntracked(m.txs, r.refs, r.sendAnswers);
        SendAllKeeps(m.(crashed := false), Filter(m.txs, r.refs, r.sendAnswers));
      } else {
        TrackRoundKeeps(m, r, timeout);
      }
    }
  }

  /** At most once: no reference has two records, whatever lookups, checks and sends failed; and a reference
      was sent once for each unrecorded send, and once more if it has a record. */
  lemma AtMostOnce(rs: seq<Round>, timeout: nat, ref: Hash)
    requires Run(START, rs, timeout)
    ensures var m := After(START, rs, timeout);
            && (forall id, id' :: id in m.txs && id' in m.txs && m.txs[id].ref == ref == m.txs[id'].ref ==> id == id')
            && m.sends[ref] == m.unrecorded[ref] + (if Has(m.txs, ref) then 1 else 0)
            && (m.unrecorded[ref] == 0 ==> m.sends[ref] <= 1)
  {
    Always(rs, timeout);
  }

  /** A found ledger number implies success or reverted, however many updates failed. */
  lemma FoundMeansIncluded(rs: seq<Round>, timeout: nat, id: TxId)
    requires Run(START, rs, timeout) && id in After(START, rs, timeout).txs
    ensures var r := After(START, rs, timeout).txs[id]; r.found.Some? ==> Included(r.status)
  {
    Always(rs, timeout);
  }

  lemma {:induction false} SendKeepsRecords(m: Mgr, todo: seq<(Hash, SendAnswer)>, id: TxId)
    requires id in m.txs
    ensures id in SendAll(m, todo).txs && SendAll(m, todo).txs[id] == m.txs[id]
  {
    if todo != [] {
      SendKeepsRecords(m, todo[..|todo| - 1], id);
    }
  }

  /** Statuses other than limbo and pending are absorbing: no later round touches the record. */
  lemma {:induction false} FinalIsAbsorbing(m: Mgr, rs: seq<Round>, timeout: nat, id: TxId)
    requires Run(m, rs, timeout) && id in m.txs && Final(m.txs[id].status)
    ensures id in After(m, rs, timeout).txs && After(m, rs, timeout).txs[id] == m.txs[id]
  {
    if rs != [] {
      FinalIsAbsorbing(m, rs[..|rs| - 1], timeout, id);
      var n, r := After(m, rs[..|rs| - 1], timeout), rs[|rs| - 1];
      if r.Send? {
        SendKeepsRecords(n.(crashed := false), Filter(n.txs, r.refs, r.sendAnswers), id);
      } else {
        TrackElsewhere(n.(crashed := false), r.todo, r.trackAnswers, timeout, id);
      }
    }
  }

  // ---------- Bounded tracking ----------

  function Tracks(rs: seq<Round>): nat {
    if rs == [] then 0 else Tracks(rs[..|rs| - 1]) + if rs[|rs| - 1].Track? then 1 else 0
  }

  /** The ledger number in a failure-free answer to a tracking round. */
  predicate FailureFree(a: TrackAnswer, ledger: nat) {
    && a.status.Some? && a.updateOk && a.foundOk && a.timeoutOk && a.latest == Some(ledger)
    && (Included(a.status.value.0) ==> a.status.value.1.Some?)
  }

  ghost predicate AllFailureFree(answers: seq<TrackAnswer>, ledger: nat) {
    forall i :: 0 <= i < |answers| ==> FailureFree(answers[i], ledger)
  }

  /** The last round is a tracking round without failures, at the least ledger number its turn calls for. */
  ghost predicate InTime(rs: seq<Round>, start: nat, ledger: nat)
    requires rs != [] && rs[|rs| - 1].Track?
  {
    AllFailureFree(rs[|rs| - 1].trackAnswers, ledger) && ledger >= start + Tracks(rs[..|rs| - 1])
  }

  /** Tracking rounds do not fail, and the k-th one (from 0) sees a ledger number of at least start + k. */
  ghost predicate Growing(rs: seq<Round>, start: nat) {
    rs == [] || (
      && Growing(rs[..|rs| - 1], start)
      && (rs[|rs| - 1].Track? ==> exists ledger: nat :: InTime(rs, start, ledger)))
  }

  lemma {:induction false} NoCrash(m: Mgr, todo: seq<(TxId, Option<nat>)>, answers: seq<TrackAnswer>, timeout: nat, ledger: nat)
    requires |answers| == |todo| && !m.crashed && AllFailureFree(answers, ledger)
    ensures !TrackAll(m, todo, answers, timeout).crashed
  {
    if todo != [] {
      var last := |todo| - 1;
      NoCrash(m, todo[..last], answers[..last], timeout, ledger);
      assert FailureFree(answers[last], ledger);
    }
  }

  /** One failure-free tracking round past the deadline finishes a record. */
  lemma LateRoundFinishes(m: Mgr, r: Round, timeout: nat, id: TxId, ledger: nat)
    requires r.Track? && Legal(m, r) && id in m.txs && m.txs[id].sent.Some?
    requires AllFailureFree(r.trackAnswers, ledger)
    requires ledger >= m.txs[id].sent.value + timeout
    ensures id in Do(m, r, timeout).txs && Final(Do(m, r, timeout).txs[id].status)
  {
    var start := m.(crashed := false);
    if Final(m.txs[id].status) {
      TrackElsewhere(start, r.todo, r.trackAnswers, timeout, id);
    } else {
      var i :| 0 <= i < |r.todo| && r.todo[i].0 == id;
      assert FailureFree(r.trackAnswers[i], ledger);
      TrackAt(start, r.todo, r.trackAnswers, timeout, i);
      NoCrash(start, r.todo, r.trackAnswers, timeout, ledger);
    }
  }

  lemma {:induction false} RecordPersists(m: Mgr, rs: seq<Round>, timeout: nat, id: TxId)
    requires Run(m, rs, timeout) && id in m.txs
    ensures id in After(m, rs, timeout).txs && After(m, rs, timeout).txs[id].sent == m.txs[id].sent
  {
    if rs != [] {
      RecordPersists(m, rs[..|rs| - 1], timeout, id);
      var n, r := After(m, rs[..|rs| - 1], timeout), rs[|rs| - 1];
      if r.Send? {
        SendKeepsRecords(n.(crashed := false), Filter(n.txs, r.refs, r.sendAnswers), id);
      } else {
        TrackKeepsIdentity(n.(crashed := false), r.todo, r.trackAnswers, timeout);
      }
    }
  }

  /** A record with a known sent number is final after timeout + 1 failure-free tracking rounds. */
  lemma {:induction false} FinishesInTime(m: Mgr, rs: seq<Round>, timeout: nat, id: TxId)
    requires Run(m, rs, timeout) && id in m.txs && m.txs[id].sent.Some?
    requires Growing(rs, m.txs[id].sent.value) && Tracks(rs) >= timeout + 1
    ensures id in After(m, rs, timeout).txs && Final(After(m, rs, timeout).txs[id].status)
  {
    var before, r := rs[..|rs| - 1], rs[|rs| - 1];
    var n := After(m, before, timeout);
    RecordPersists(m, before, timeout, id);
    if Tracks(before) >= timeout + 1 {
      FinishesInTime(m, before, timeout, id);
      assert Run(n, [r][..0], timeout) && [r][..0] == [];
      FinalIsAbsorbing(n, [r], timeout, id);
    } else {
      var ledger: nat :| InTime(rs, m.txs[id].sent.value, ledger);
      LateRoundFinishes(n, r, timeout, id, ledger);
    }
  }

  /** Every record of every run is final timeout + 1 tracking rounds after it was there, whatever is sent in between,
      if those rounds do not fail and the ledger grows by at least one per round. */
  lemma TrackingIsBounded(start: seq<Round>, rs: seq<Round>, timeout: nat, id: TxId)
    requires Run(START, start, timeout) && id in After(START, start, timeout).txs
    requires Run(After(START, start, timeout), rs, timeout) && Tracks(rs) >= timeout + 1
    requires var sent := After(START, start, timeout).txs[id].sent; sent.Some? ==> Growing(rs, sent.value)
    ensures var m := After(After(START, start, timeout), rs, timeout); id in m.txs && Final(m.txs[id].status)
  {
    Always(start, timeout);
    FinishesInTime(After(START, start, timeout), rs, timeout, id);
  }

  /** When a send ends the process, exactly: the transaction went out and neither its reply nor the latest-ledger
      query gave a number. The send is then on no record. */
  lemma NilLedgerEndsTheProcess(m: Mgr, ref: Hash, answer: SendAnswer)
    requires !m.crashed
    ensures var n := SendOne(m, ref, answer);
            && (n.crashed <==>
                  && answer.check == NotFound && answer.paramsOk && answer.reply.Some?
                  && answer.reply.value.1.None? && answer.latest.None?)
            && (n.crashed ==> n.sends[ref] == m.sends[ref] + 1 && n.txs == m.txs && n.unrecorded[ref] == m.unrecorded[ref] + 1)
  {
  }
}

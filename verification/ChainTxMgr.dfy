/** The chain transaction manager: sending mints and prepares, and tracking what was sent. */
module ChainTxMgr {
  import opened Common

  type TxId = seq<byte>

  datatype Status = MalForm | Limbo | Pending | Success | Reverted | Timeout | Reorg

  /** A row of chain_tx_mgr_db; the key is TxIdentifier. None is the -1 that stands for an unknown number. */
  datatype MonitoredTx = MonitoredTx(ref: Hash, sent: Option<nat>, found: Option<nat>, status: Status)

  type Table = map<TxId, MonitoredTx>

  datatype Check = CheckFailed | Found | NotFound

  /** How the outside answers for one mint or redeem in one round: the lookup by reference, the check on chain,
      the preparation of parameters, the transaction (None when the call fails, otherwise its id and its ledger
      number if known), the latest ledger number (None when that fails or is nil), and the INSERT. */
  datatype SendAnswer = SendAnswer(
    lookupOk: bool, check: Check, paramsOk: bool, reply: Option<(TxId, Option<nat>)>, latest: Option<nat>, insertOk: bool)

  /** How the outside answers for one monitored transaction in one tracking round. `status` is None when the
      query fails. */
  datatype TrackAnswer = TrackAnswer(
    status: Option<(Status, Option<nat>)>, updateOk: bool, foundOk: bool, latest: Option<nat>, timeoutOk: bool)

  /** The table, with the history of successful sends and of sends that were not recorded. `crashed` says that
      the round ended in a nil dereference. */
  datatype Mgr = Mgr(txs: Table, sends: multiset<Hash>, unrecorded: multiset<Hash>, crashed: bool)

  ghost predicate Has(t: Table, ref: Hash) {
    exists id :: id in t && t[id].ref == ref
  }

  // ---------- Sending ----------

  /** The mints or redeems that no record refers to. A lookup that fails drops its item from the round. */
  ghost function Filter(t: Table, refs: seq<Hash>, answers: seq<SendAnswer>): seq<(Hash, SendAnswer)>
    requires |answers| == |refs|
  {
    if refs == [] then [] else
      var last := |refs| - 1;
      Filter(t, refs[..last], answers[..last])
      + if answers[last].lookupOk && !Has(t, refs[last]) then [(refs[last], answers[last])] else []
  }

  /** Steps 3 to 6 for one item. Without a ledger number the record cannot be built: cloning the nil number
      ends the process after the transaction went out. */
  function SendOne(m: Mgr, ref: Hash, answer: SendAnswer): Mgr {
    if m.crashed || answer.check != NotFound || !answer.paramsOk || answer.reply.None? then m else
      var (id, ledger) := answer.reply.value;
      var sentAt := if ledger.Some? then ledger else answer.latest;
      var sends := m.sends + multiset{ref};
      if sentAt.None? then Mgr(m.txs, sends, m.unrecorded + multiset{ref}, true)
      else if !answer.insertOk || id in m.txs then Mgr(m.txs, sends, m.unrecorded + multiset{ref}, false)
      else Mgr(m.txs[id := MonitoredTx(ref, sentAt, None, Pending)], sends, m.unrecorded, false)
  }

  function SendAll(m: Mgr, todo: seq<(Hash, SendAnswer)>): Mgr {
    if todo == [] then m else
      var last := |todo| - 1;
      SendOne(SendAll(m, todo[..last]), todo[last].0, todo[last].1)
  }

  ghost function SendRound(m: Mgr, refs: seq<Hash>, answers: seq<SendAnswer>): Mgr
    requires |answers| == |refs|
  {
    SendAll(m.(crashed := false), Filter(m.txs, refs, answers))
  }

  // ---------- Tracking ----------

  predicate Final(s: Status) {
    s != Limbo && s != Pending
  }

  predicate Included(s: Status) {
    s == Success || s == Reverted
  }

  /** Both updates are UPDATE statements: a missing row stays missing. */
  function SetStatus(t: Table, id: TxId, s: Status): Table {
    if id in t then t[id := t[id].(status := s)] else t
  }

  function SetFound(t: Table, id: TxId, n: nat): Table {
    if id in t then t[id := t[id].(found := Some(n))] else t
  }

  predicate Expired(sent: Option<nat>, latest: Option<nat>, timeout: nat) {
    sent.Some? && latest.Some? && sent.value + timeout <= latest.value
  }

  /** What one turn of the tracking loop does to its record. */
  function TrackRecord(r: MonitoredTx, answer: TrackAnswer, timeout: nat): MonitoredTx {
    if answer.status.None? || !answer.updateOk then r else
      var (status, ledger) := answer.status.value;
      if Included(status) then
        if ledger.Some? && answer.foundOk then r.(status := status, found := ledger) else r.(status := status)
      else if Expired(r.sent, answer.latest, timeout) && answer.timeoutOk then r.(status := Timeout)
      else r.(status := status)
  }

  function TrackOne(m: Mgr, id: TxId, sent: Option<nat>, answer: TrackAnswer, timeout: nat): Mgr {
    if m.crashed || answer.status.None? || !answer.updateOk then m else
      var (status, ledger) := answer.status.value;
      var t := SetStatus(m.txs, id, status);
      if Included(status) then
        if ledger.None? then m.(txs := t, crashed := true)
        else if !answer.foundOk then m.(txs := t)
        else m.(txs := SetFound(t, id, ledger.value))
      else if Expired(sent, answer.latest, timeout) && answer.timeoutOk then m.(txs := SetStatus(t, id, Timeout))
      else m.(txs := t)
  }

  function TrackAll(m: Mgr, todo: seq<(TxId, Option<nat>)>, answers: seq<TrackAnswer>, timeout: nat): Mgr
    requires |answers| == |todo|
  {
    if todo == [] then m else
      var last := |todo| - 1;
      TrackOne(TrackAll(m, todo[..last], answers[..last], timeout), todo[last].0, todo[last].1, answers[last], timeout)
  }

  /** What `GetMonitoredTxByStatus([limbo, pending])` may return. */
  ghost predicate Unfinished(t: Table, todo: seq<(TxId, Option<nat>)>) {
    && (forall i, j :: 0 <= i < j < |todo| ==> todo[i].0 != todo[j].0)
    && (forall i :: 0 <= i < |todo| ==> todo[i].0 in t && !Final(t[todo[i].0].status) && todo[i].1 == t[todo[i].0].sent)
    && forall id :: id in t && !Final(t[id].status) ==> exists i :: 0 <= i < |todo| && todo[i].0 == id
  }

  // ---------- The manager ----------

  class ChainTxMgr {
    const timeout: nat
    var txs: Table
    var sends: multiset<Hash>
    var unrecorded: multiset<Hash>
    var crashed: bool

    constructor (timeout: nat)
      ensures this.timeout == timeout && State() == Mgr(map[], multiset{}, multiset{}, false)
    {
      this.timeout := timeout;
      txs, sends, unrecorded, crashed := map[], multiset{}, multiset{}, false;
    }

    function State(): Mgr
      reads this
    {
      Mgr(txs, sends, unrecorded, crashed)
    }

    method GetByRef(ref: Hash) returns (hit: bool)
      ensures hit == Has(txs, ref)
    {
      var ids := set id | id in txs && txs[id].ref == ref;
      hit := ids != {};
      if hit {
        var id :| id in ids;
      } else {
        forall id | id in txs ensures txs[id].ref != ref {
          assert txs[id].ref == ref ==> id in ids;
        }
      }
    }

    /** `FilterMints` and `FilterUnPrepared` */
    method FilterTracked(refs: seq<Hash>, answers: seq<SendAnswer>) returns (todo: seq<(Hash, SendAnswer)>)
      requires |answers| == |refs|
      ensures todo == Filter(txs, refs, answers)
    {
      todo := [];
      for i := 0 to |refs|
        invariant todo == Filter(txs, refs[..i], answers[..i])
      {
        assert refs[..i + 1][..i] == refs[..i] && answers[..i + 1][..i] == answers[..i];
        if answers[i].lookupOk {
          var hit := GetByRef(refs[i]);
          if !hit {
            todo := todo + [(refs[i], answers[i])];
          }
        }
      }
      assert refs[..|refs|] == refs && answers[..|refs|] == answers;
    }

    /** `procedureMint` and `procedurePrepare`: they differ in where `refs` comes from and in the calls behind
        the answers. */
    method SendProcedure(refs: seq<Hash>, answers: seq<SendAnswer>)
      requires |answers| == |refs|
      modifies this
      ensures State() == SendRound(old(State()), refs, answers)
    {
      crashed := false;
      var todo := FilterTracked(refs, answers);
      ghost var start := State();
      for i := 0 to |todo|
        invariant State() == SendAll(start, todo[..i])
      {
        assert todo[..i + 1][..i] == todo[..i];
        Send(todo[i].0, todo[i].1);
      }
      assert todo[..|todo|] == todo;
    }

    method Send(ref: Hash, answer: SendAnswer)
      modifies this
      ensures State() == SendOne(old(State()), ref, answer)
    {
      if crashed || answer.check != NotFound || !answer.paramsOk || answer.reply.None? {
        return;
      }
      var id, ledger := answer.reply.value.0, answer.reply.value.1;
      sends := sends + multiset{ref};
      if ledger.None? {
        ledger := answer.latest;
      }
      if ledger.None? {
        crashed := true;
      }
      if ledger.None? || !answer.insertOk || id in txs {
        unrecorded := unrecorded + multiset{ref};
      } else {
        txs := txs[id := MonitoredTx(ref, ledger, None, Pending)];
      }
    }

    /** `procedureMarkTxStatus` over the limbo and pending records. */
    method MarkTxStatus(todo: seq<(TxId, Option<nat>)>, answers: seq<TrackAnswer>)
      requires |answers| == |todo|
      modifies this
      ensures State() == TrackAll(old(State()).(crashed := false), todo, answers, timeout)
    {
      crashed := false;
      ghost var start := State();
      for i := 0 to |todo|
        invariant State() == TrackAll(start, todo[..i], answers[..i], timeout)
      {
        assert todo[..i + 1][..i] == todo[..i] && answers[..i + 1][..i] == answers[..i];
        var id, sent, answer := todo[i].0, todo[i].1, answers[i];
        if crashed || answer.status.None? || !answer.updateOk {
          continue;
        }
        var status, ledger := answer.status.value.0, answer.status.value.1;
        txs := SetStatus(txs, id, status);
        if Included(status) {
          if ledger.None? {
            crashed := true;
          } else if answer.foundOk {
            txs := SetFound(txs, id, ledger.value);
          }
        } else if sent.Some? && answer.latest.Some? {
          var threshold := sent.value + timeout;
          if threshold <= answer.latest.value && answer.timeoutOk {
            txs := SetStatus(txs, id, Timeout);
          }
        }
      }
      assert todo[..|todo|] == todo && answers[..|todo|] == answers;
    }
  }
}

/** The shared redeem table and the handlers of `State.Start` that write it. */
module Redeem {
  import opened Common

  type Bytes = seq<byte>

  /** The requester that chk_requester refuses: forty hex zeros. */
  predicate ZeroAddress(b: Bytes) {
    |b| == 20 && forall i :: 0 <= i < |b| ==> b[i] == 0
  }

  /** `amount` is None for a nil big.Int. */
  datatype RequestedEvent = RequestedEvent(
    request: Hash, requester: Bytes, receiver: string, amount: Option<int>, validReceiver: bool)

  datatype PreparedEvent = PreparedEvent(
    request: Hash, prepare: Hash, requester: Bytes, receiver: string, amount: int,
    txIds: seq<Hash>, idxs: seq<uint16>)

  datatype Status = Requested | Prepared | Completed | Invalid

  /** A row; None is SQL NULL. */
  datatype Row = Row(
    prepare: Option<Hash>, btcTxId: Option<Hash>, requester: Bytes, receiver: string, amount: int,
    outpoints: seq<BtcOutpoint>, status: Status)

  /** The key is requestTxHash. */
  type Table = map<Hash, Row>

  datatype Error =
    | RequestedEventInvalid
    | PreparedEventInvalid
    | PreparedEventUnmatched
    | UpdateInvalidRedeem
    | UpdateRedeemFailed
    | NilAmountPanic

  // ---------- Building rows from events ----------

  function FromRequested(ev: RequestedEvent): Option<Row> {
    if ev.request == ZERO_HASH || ev.amount.None? || ev.amount.value <= 0 then None
    else Some(Row(None, None, ev.requester, ev.receiver, ev.amount.value, [],
                  if ev.validReceiver then Requested else Invalid))
  }

  function Zip(txIds: seq<Hash>, idxs: seq<uint16>): (os: seq<BtcOutpoint>)
    requires |txIds| == |idxs|
    ensures |os| == |txIds|
    ensures forall i :: 0 <= i < |os| ==> os[i] == BtcOutpoint(txIds[i], idxs[i])
  {
    seq(|txIds|, i requires 0 <= i < |txIds| => BtcOutpoint(txIds[i], idxs[i]))
  }

  predicate OutpointsOk(ev: PreparedEvent) {
    && ev.txIds != [] && ev.idxs != [] && |ev.txIds| == |ev.idxs|
    && forall i :: 0 <= i < |ev.idxs| ==> ev.txIds[i] != ZERO_HASH
  }

  predicate Matches(r: Row, ev: PreparedEvent) {
    ev.requester == r.requester && ev.amount == r.amount && ev.receiver == r.receiver
  }

  function UpdateFrom(r: Row, ev: PreparedEvent): Option<Row> {
    if !Matches(r, ev) || ev.prepare == ZERO_HASH || !OutpointsOk(ev) then None
    else Some(r.(prepare := Some(ev.prepare), status := Prepared, outpoints := Zip(ev.txIds, ev.idxs)))
  }

  function FromPrepared(ev: PreparedEvent): Option<Row> {
    var r := FromRequested(RequestedEvent(ev.request, ev.requester, ev.receiver, Some(ev.amount), true));
    if r.None? then None else UpdateFrom(r.value, ev)
  }

  // ---------- SQL ----------

  /** UNIQUE(prepareTxHash) and UNIQUE(btcTxId); SQL never counts two NULLs as equal. */
  predicate UniqueAgainst(t: Table, h: Hash, r: Row) {
    forall g :: g in t && g != h ==>
                  && (r.prepare.Some? ==> t[g].prepare != r.prepare)
                  && (r.btcTxId.Some? ==> t[g].btcTxId != r.btcTxId)
  }

  /** The CHECK constraints of the table. */
  predicate ChecksOk(h: Hash, r: Row) {
    && r.amount > 0 && h != ZERO_HASH
    && r.prepare != Some(ZERO_HASH) && r.btcTxId != Some(ZERO_HASH)
    && !ZeroAddress(r.requester)
  }

  /** INSERT OR IGNORE: a row that breaks a constraint is dropped without an error. */
  function InsertOrIgnore(t: Table, h: Hash, r: Row): Table {
    if h in t || !ChecksOk(h, r) || !UniqueAgainst(t, h, r) then t else t[h := r]
  }

  /** UPDATE: a row that would break a constraint is an error. */
  function Update(t: Table, h: Hash, r: Row): Option<Table>
    requires h in t
  {
    if !ChecksOk(h, r) || !UniqueAgainst(t, h, r) then None else Some(t[h := r])
  }

  // ---------- Handlers ----------

  function OnRequested(t: Table, ev: RequestedEvent): Result<Table, Error> {
    if ev.request in t then Ok(t) else
      var r := FromRequested(ev);
      if r.None? then Err(RequestedEventInvalid) else Ok(InsertOrIgnore(t, ev.request, r.value))
  }

  function OnPrepared(t: Table, ev: PreparedEvent): Result<Table, Error> {
    if ev.request in t then
      match t[ev.request].status
      case Prepared => Ok(t)
      case Completed => Ok(t)
      case Invalid => Err(UpdateInvalidRedeem)
      case Requested =>
        var r := UpdateFrom(t[ev.request], ev);
        if r.None? then Err(PreparedEventUnmatched) else
          var u := Update(t, ev.request, r.value);
          if u.None? then Err(UpdateRedeemFailed) else Ok(u.value)
    else
      var r := FromPrepared(ev);
      if r.None? then Err(PreparedEventInvalid) else Ok(InsertOrIgnore(t, ev.request, r.value))
  }

  /** `UpdateAfterRedeemed`: the encoder reads the amount before the UPDATE, although the UPDATE does not
      write it. UPDATE of a missing row changes nothing. */
  function OnRedeemed(t: Table, h: Hash, btcTxId: Hash, amount: Option<int>): Result<Table, Error> {
    if amount.None? then Err(NilAmountPanic)
    else if h !in t then Ok(t)
    else
      var u := Update(t, h, t[h].(btcTxId := Some(btcTxId), status := Completed));
      if u.None? then Err(UpdateRedeemFailed) else Ok(u.value)
  }

  /** A prepared event either changes nothing or writes one prepared row with its own outpoints. */
  lemma PreparedWrites(t: Table, ev: PreparedEvent)
    requires OnPrepared(t, ev).Ok? && OnPrepared(t, ev).value != t
    ensures OutpointsOk(ev) && ev.prepare != ZERO_HASH
    ensures var h := ev.request; var u := OnPrepared(t, ev).value;
            && (h in t ==> t[h].status == Requested && Matches(t[h], ev))
            && h in u && u == t[h := u[h]] && ChecksOk(h, u[h])
            && u[h] == Row(Some(ev.prepare), if h in t then t[h].btcTxId else None, ev.requester, ev.receiver, ev.amount,
                           Zip(ev.txIds, ev.idxs), Prepared)
  {
  }

  /** A completion either changes nothing or writes one completed row. */
  lemma RedeemedWrites(t: Table, h: Hash, b: Hash, amount: Option<int>)
    requires OnRedeemed(t, h, b, amount).Ok?
    ensures var u := OnRedeemed(t, h, b, amount).value;
            if h !in t then u == t
            else u == t[h := t[h].(btcTxId := Some(b), status := Completed)] && ChecksOk(h, u[h])
  {
  }

  // ---------- Which events are accepted ----------

  /** A request that the state accepts, by its fields. */
  predicate RequestOk(ev: RequestedEvent) {
    ev.request != ZERO_HASH && ev.amount.Some? && ev.amount.value > 0
  }

  /** Equally many transaction ids and indices, at least one, no id zero. */
  predicate ListsOk(ev: PreparedEvent) {
    |ev.txIds| == |ev.idxs| > 0 && forall i :: 0 <= i < |ev.txIds| ==> ev.txIds[i] != ZERO_HASH
  }

  /** A prepared event that the state accepts without a stored row, by its fields. */
  predicate PreparedOk(ev: PreparedEvent) {
    ev.request != ZERO_HASH && ev.amount > 0 && ev.prepare != ZERO_HASH && ListsOk(ev)
  }

  function RequestedRow(ev: RequestedEvent): Row
    requires RequestOk(ev)
  {
    Row(None, None, ev.requester, ev.receiver, ev.amount.value, [], if ev.validReceiver then Requested else Invalid)
  }

  function PreparedRow(ev: PreparedEvent): Row
    requires ListsOk(ev)
  {
    Row(Some(ev.prepare), None, ev.requester, ev.receiver, ev.amount, Zip(ev.txIds, ev.idxs), Prepared)
  }

  /** Building a row succeeds exactly for acceptable fields; against a stored row, requester, receiver and amount
      must match too. */
  lemma RowsAreBuilt(r: RequestedEvent, p: PreparedEvent, stored: Row)
    ensures FromRequested(r) == if RequestOk(r) then Some(RequestedRow(r)) else None
    ensures FromPrepared(p) == if PreparedOk(p) then Some(PreparedRow(p)) else None
    ensures UpdateFrom(stored, p) ==
            if p.requester == stored.requester && p.receiver == stored.receiver && p.amount == stored.amount
               && p.prepare != ZERO_HASH && ListsOk(p)
            then Some(stored.(prepare := Some(p.prepare), status := Prepared, outpoints := Zip(p.txIds, p.idxs)))
            else None
  {
  }

  /** Every request, exactly: a known one changes nothing; a new one is an error if its hash is zero or its amount
      missing or not positive; otherwise its row is stored, with the status by the receiver, unless the requester is
      the zero address: then INSERT OR IGNORE drops the row without an error. */
  lemma RequestHandled(t: Table, ev: RequestedEvent)
    ensures ev.request in t ==> OnRequested(t, ev) == Ok(t)
    ensures ev.request !in t ==>
              OnRequested(t, ev) ==
              if ev.request == ZERO_HASH || ev.amount.None? || ev.amount.value <= 0 then Err(RequestedEventInvalid)
              else if |ev.requester| == 20 && forall i :: 0 <= i < 20 ==> ev.requester[i] == 0 then Ok(t)
              else Ok(t[ev.request := Row(None, None, ev.requester, ev.receiver, ev.amount.value, [],
                                          if ev.validReceiver then Requested else Invalid)])
  {
  }

  /** Another row names the same preparation. */
  ghost predicate Clashes(t: Table, ev: PreparedEvent) {
    exists g :: g in t && g != ev.request && t[g].prepare == Some(ev.prepare)
  }

  /** A prepared event without a stored row, exactly: an error if its fields are not acceptable; otherwise its row is
      stored, or dropped without an error if the requester is the zero address or another row names the same
      preparation. */
  lemma NewPreparedHandled(t: Table, ev: PreparedEvent)
    requires ev.request !in t
    ensures OnPrepared(t, ev) ==
            if ev.request == ZERO_HASH || ev.amount <= 0 || ev.prepare == ZERO_HASH || |ev.txIds| != |ev.idxs|
               || |ev.txIds| == 0 || (exists i :: 0 <= i < |ev.txIds| && ev.txIds[i] == ZERO_HASH)
            then Err(PreparedEventInvalid)
            else if (|ev.requester| == 20 && forall i :: 0 <= i < 20 ==> ev.requester[i] == 0) || Clashes(t, ev)
            then Ok(t)
            else Ok(t[ev.request := Row(Some(ev.prepare), None, ev.requester, ev.receiver, ev.amount,
                                        Zip(ev.txIds, ev.idxs), Prepared)])
  {
    if PreparedOk(ev) {
      assert UniqueAgainst(t, ev.request, PreparedRow(ev)) <==> !Clashes(t, ev);
    }
  }

  /** A prepared event with a stored row, exactly. A prepared or completed row stays; an invalid one is an error; a
      requested row is prepared if requester, receiver and amount match and the rest of the event is acceptable, but a
      preparation that another row names is an error of the UPDATE. */
  lemma StoredPreparedHandled(t: Table, ev: PreparedEvent)
    requires ev.request in t && ChecksOk(ev.request, t[ev.request])
    requires t[ev.request].status == Requested ==> t[ev.request].btcTxId.None?
    ensures var r := t[ev.request];
            OnPrepared(t, ev) ==
            match r.status
            case Prepared => Ok(t)
            case Completed => Ok(t)
            case Invalid => Err(UpdateInvalidRedeem)
            case Requested =>
              if ev.requester != r.requester || ev.receiver != r.receiver || ev.amount != r.amount || ev.prepare == ZERO_HASH
                 || |ev.txIds| != |ev.idxs| || |ev.txIds| == 0
                 || (exists i :: 0 <= i < |ev.txIds| && ev.txIds[i] == ZERO_HASH)
              then Err(PreparedEventUnmatched)
              else if Clashes(t, ev) then Err(UpdateRedeemFailed)
              else Ok(t[ev.request := r.(prepare := Some(ev.prepare), status := Prepared, outpoints := Zip(ev.txIds, ev.idxs))])
  {
    var r := t[ev.request];
    if r.status == Requested && UpdateFrom(r, ev).Some? {
      assert UniqueAgainst(t, ev.request, UpdateFrom(r, ev).value) <==> !Clashes(t, ev);
    }
  }

  /** No preparation and no Bitcoin transaction is named twice. */
  ghost predicate TableUnique(t: Table) {
    forall h :: h in t ==> UniqueAgainst(t, h, t[h])
  }

  /** A completion, exactly: a nil amount ends the program, a missing row is passed over, a zero or taken Bitcoin
      transaction id is an error, and otherwise the row is completed. */
  lemma RedeemedHandled(t: Table, h: Hash, b: Hash, amount: Option<int>)
    requires TableUnique(t) && (h in t ==> ChecksOk(h, t[h]))
    ensures OnRedeemed(t, h, b, amount) ==
            if amount.None? then Err(NilAmountPanic)
            else if h !in t then Ok(t)
            else if b == ZERO_HASH || (exists g :: g in t && g != h && t[g].btcTxId == Some(b)) then Err(UpdateRedeemFailed)
            else Ok(t[h := t[h].(btcTxId := Some(b), status := Completed)])
  {
    if h in t {
      var r := t[h].(btcTxId := Some(b), status := Completed);
      assert UniqueAgainst(t, h, r) <==> !(exists g :: g in t && g != h && t[g].btcTxId == Some(b));
    }
  }

  // ---------- The state object ----------

  class State {
    var redeems: Table

    constructor ()
      ensures redeems == map[]
    {
      redeems := map[];
    }

    method HandleRequested(ev: RequestedEvent) returns (error: Option<Error>)
      modifies this
      ensures match OnRequested(old(redeems), ev)
              case Ok(t) => error == None && redeems == t
              case Err(e) => error == Some(e) && redeems == old(redeems)
    {
      if ev.request in redeems {
        return None;
      }
      if ev.request == ZERO_HASH || ev.amount.None? || ev.amount.value <= 0 {
        return Some(RequestedEventInvalid);
      }
      var status := if ev.validReceiver then Requested else Invalid;
      Insert(ev.request, Row(None, None, ev.requester, ev.receiver, ev.amount.value, [], status));
      error := None;
    }

    method HandlePrepared(ev: PreparedEvent) returns (error: Option<Error>)
      modifies this
      ensures match OnPrepared(old(redeems), ev)
              case Ok(t) => error == None && redeems == t
              case Err(e) => error == Some(e) && redeems == old(redeems)
    {
      if ev.request in redeems {
        var stored := redeems[ev.request];
        if stored.status == Prepared || stored.status == Completed {
          return None;
        }
        if stored.status == Invalid {
          return Some(UpdateInvalidRedeem);
        }
        var r := UpdateFromPreparedEvent(stored, ev);
        if r.None? {
          return Some(PreparedEventUnmatched);
        }
        if !ChecksOk(ev.request, r.value) || !UniqueAgainst(redeems, ev.request, r.value) {
          return Some(UpdateRedeemFailed);
        }
        redeems := redeems[ev.request := r.value];
      } else {
        if ev.request == ZERO_HASH || ev.amount <= 0 {
          return Some(PreparedEventInvalid);
        }
        var created := Row(None, None, ev.requester, ev.receiver, ev.amount, [], Requested);
        var r := UpdateFromPreparedEvent(created, ev);
        if r.None? {
          return Some(PreparedEventInvalid);
        }
        Insert(ev.request, r.value);
      }
      error := None;
    }

    method UpdateAfterRedeemed(h: Hash, btcTxId: Hash, amount: Option<int>) returns (error: Option<Error>)
      modifies this
      ensures match OnRedeemed(old(redeems), h, btcTxId, amount)
              case Ok(t) => error == None && redeems == t
              case Err(e) => error == Some(e) && redeems == old(redeems)
    {
      if amount.None? {
        return Some(NilAmountPanic);
      }
      if h in redeems {
        var r := redeems[h].(btcTxId := Some(btcTxId), status := Completed);
        if !ChecksOk(h, r) || !UniqueAgainst(redeems, h, r) {
          return Some(UpdateRedeemFailed);
        }
        redeems := redeems[h := r];
      }
      error := None;
    }

    /** Completion as the BTC side calls it leaves the amount nil, so the row is never written. */
    method SetRedeemCompleted(h: Hash, btcTxId: Hash) returns (error: Option<Error>)
      modifies this
      ensures error == Some(NilAmountPanic) && redeems == old(redeems)
    {
      error := UpdateAfterRedeemed(h, btcTxId, None);
    }

    /** `updateFromPreparedEvent`: checks the event against the row, then copies the outpoints. */
    static method UpdateFromPreparedEvent(r: Row, ev: PreparedEvent) returns (updated: Option<Row>)
      ensures updated == UpdateFrom(r, ev)
    {
      if ev.requester != r.requester || ev.amount != r.amount || ev.receiver != r.receiver || ev.prepare == ZERO_HASH {
        return None;
      }
      if |ev.txIds| == 0 || |ev.idxs| == 0 || |ev.txIds| != |ev.idxs| {
        return None;
      }
      for i := 0 to |ev.idxs|
        invariant forall j :: 0 <= j < i ==> ev.txIds[j] != ZERO_HASH
      {
        if ev.txIds[i] == ZERO_HASH {
          return None;
        }
      }
      var outpoints: seq<BtcOutpoint> := [];
      for i := 0 to |ev.txIds|
        invariant |outpoints| == i
        invariant forall j :: 0 <= j < i ==> outpoints[j] == BtcOutpoint(ev.txIds[j], ev.idxs[j])
      {
        outpoints := outpoints + [BtcOutpoint(ev.txIds[i], ev.idxs[i])];
      }
      assert outpoints == Zip(ev.txIds, ev.idxs);
      updated := Some(r.(prepare := Some(ev.prepare), status := Prepared, outpoints := outpoints));
    }

    method Insert(h: Hash, r: Row)
      modifies this
      ensures redeems == InsertOrIgnore(old(redeems), h, r)
    {
      if h !in redeems && ChecksOk(h, r) && UniqueAgainst(redeems, h, r) {
        redeems := redeems[h := r];
      }
    }
  }
}

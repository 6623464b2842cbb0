/** What the redeem table guarantees over whole event streams. */
module RedeemRuns {
  import opened Common
  import opened Redeem

  datatype Event =
    | Request(r: RequestedEvent)
    | Prepare(p: PreparedEvent)
    | Redeem(h: Hash, btcTxId: Hash, amount: int)

  function Id(e: Event): Hash {
    match e
    case Request(r) => r.request
    case Prepare(p) => p.request
    case Redeem(h, _, _) => h
  }

  function OnEvent(t: Table, e: Event): Result<Table, Error> {
    match e
    case Request(r) => OnRequested(t, r)
    case Prepare(p) => OnPrepared(t, p)
    case Redeem(h, b, amount) => OnRedeemed(t, h, b, Some(amount))
  }

  /** `State.Start` stops at the first error. */
  function Play(es: seq<Event>): Result<Table, Error> {
    if es == [] then Ok(map[]) else
      var before := Play(es[..|es| - 1]);
      if before.Err? then before else OnEvent(before.value, es[|es| - 1])
  }

  // ---------- Confluence ----------

  predicate WellFormed(e: Event) {
    match e
    case Request(r) => RequestOk(r) && !ZeroAddress(r.requester)
    case Prepare(p) => PreparedOk(p) && !ZeroAddress(p.requester)
    case Redeem(h, b, _) => b != ZERO_HASH
  }

  /** A prepared event repeats a request with a valid receiver. */
  predicate Agrees(r: RequestedEvent, p: PreparedEvent) {
    r.validReceiver && p.requester == r.requester && p.receiver == r.receiver && r.amount == Some(p.amount)
  }

  /** Two events one chain may both emit. */
  predicate Compatible(e: Event, f: Event) {
    && (e.Request? && f.Request? && Id(e) == Id(f) ==> e == f)
    && (e.Prepare? && f.Prepare? ==> (Id(e) == Id(f) <==> e.p.prepare == f.p.prepare) && (Id(e) == Id(f) ==> e == f))
    && (e.Request? && f.Prepare? && Id(e) == Id(f) ==> Agrees(e.r, f.p))
    && (e.Redeem? && f.Redeem? ==> (Id(e) == Id(f) <==> e.btcTxId == f.btcTxId))
  }

  ghost predicate Consistent(s: set<Event>) {
    && (forall e :: e in s ==> WellFormed(e))
    && forall e, f :: e in s && f in s ==> Compatible(e, f)
  }

  ghost predicate IsPrepared(s: set<Event>, h: Hash) {
    exists p :: Prepare(p) in s && p.request == h
  }

  ghost predicate IsRedeemed(s: set<Event>, h: Hash) {
    exists b, a :: Redeem(h, b, a) in s
  }

  /** A completion is reported only for a redeem that was prepared. */
  ghost predicate Causal(es: seq<Event>) {
    forall i :: 0 <= i < |es| && es[i].Redeem? ==> IsPrepared(Elements(es[..i]), es[i].h)
  }

  ghost function Known(s: set<Event>): set<Hash> {
    set e | e in s && !e.Redeem? :: Id(e)
  }

  /** The row the set of events calls for. */
  ghost function RowFor(s: set<Event>, h: Hash): Row
    requires Consistent(s) && h in Known(s)
  {
    if IsPrepared(s, h) then
      var p :| Prepare(p) in s && p.request == h;
      var row := PreparedRow(p);
      if IsRedeemed(s, h) then
        var b, a :| Redeem(h, b, a) in s;
        row.(btcTxId := Some(b), status := Completed)
      else row
    else
      var r :| Request(r) in s && r.request == h;
      RequestedRow(r)
  }

  ghost function FinalTable(s: set<Event>): Table
    requires Consistent(s)
  {
    map h | h in Known(s) :: RowFor(s, h)
  }

  lemma RequestOf(s: set<Event>, h: Hash)
    requires h in Known(s) && !IsPrepared(s, h)
    ensures exists r :: Request(r) in s && r.request == h
  {
  }

  /** `RowFor` without its choices. */
  lemma RowForIs(s: set<Event>, h: Hash)
    requires Consistent(s) && h in Known(s)
    ensures forall p :: Prepare(p) in s && p.request == h && !IsRedeemed(s, h) ==> RowFor(s, h) == PreparedRow(p)
    ensures forall p, b, a :: Prepare(p) in s && p.request == h && Redeem(h, b, a) in s ==>
                                RowFor(s, h) == PreparedRow(p).(btcTxId := Some(b), status := Completed)
    ensures forall r :: Request(r) in s && r.request == h && !IsPrepared(s, h) ==> RowFor(s, h) == RequestedRow(r)
  {
    forall p, q | Prepare(p) in s && Prepare(q) in s && p.request == h && q.request == h ensures p == q {
      assert Compatible(Prepare(p), Prepare(q));
    }
    forall p, q | Request(p) in s && Request(q) in s && p.request == h && q.request == h ensures p == q {
      assert Compatible(Request(p), Request(q));
    }
    forall b, a, c, d | Redeem(h, b, a) in s && Redeem(h, c, d) in s ensures b == c {
      assert Compatible(Redeem(h, b, a), Redeem(h, c, d));
    }
    if !IsPrepared(s, h) {
      RequestOf(s, h);
    }
  }

  /** Adding an event leaves the rows of other redeems as they were. */
  lemma RowForOther(s: set<Event>, e: Event, h: Hash)
    requires Consistent(s + {e}) && h in Known(s) && h != Id(e)
    ensures Consistent(s) && h in Known(s + {e}) && RowFor(s + {e}, h) == RowFor(s, h)
  {
    RowForIs(s, h);
    RowForIs(s + {e}, h);
    assert IsPrepared(s + {e}, h) == IsPrepared(s, h);
    assert IsRedeemed(s + {e}, h) == IsRedeemed(s, h);
    if IsPrepared(s, h) {
      var p :| Prepare(p) in s && p.request == h;
      if IsRedeemed(s, h) {
        var b, a :| Redeem(h, b, a) in s;
        assert Redeem(h, b, a) in s + {e} && Prepare(p) in s + {e};
      } else {
        assert Prepare(p) in s + {e};
      }
    } else {
      RequestOf(s, h);
      var r :| Request(r) in s && r.request == h;
      assert Request(r) in s + {e};
    }
  }

  lemma PrefixConsistent(s: set<Event>, e: Event)
    requires Consistent(s + {e})
    ensures Consistent(s)
  {
  }

  /** Rows called for by different events never collide in a UNIQUE column. */
  lemma FinalTableUnique(s: set<Event>, h: Hash, g: Hash)
    requires Consistent(s) && h in Known(s) && g in Known(s) && h != g
    ensures RowFor(s, h).prepare.Some? ==> RowFor(s, g).prepare != RowFor(s, h).prepare
    ensures RowFor(s, h).btcTxId.Some? ==> RowFor(s, g).btcTxId != RowFor(s, h).btcTxId
  {
  }

  lemma RowShape(s: set<Event>, h: Hash)
    requires Consistent(s) && h in Known(s)
    ensures ChecksOk(h, RowFor(s, h))
    ensures RowFor(s, h).prepare.Some? <==> IsPrepared(s, h)
    ensures RowFor(s, h).btcTxId.Some? <==> IsPrepared(s, h) && IsRedeemed(s, h)
    ensures RowFor(s, h).status ==
            if IsPrepared(s, h) then (if IsRedeemed(s, h) then Completed else Prepared)
            else RowFor(s, h).status
    ensures !IsPrepared(s, h) ==> RowFor(s, h).status in {Requested, Invalid}
  {
  }

  /** Completions in the set have their prepared event in it. */
  ghost predicate Settled(s: set<Event>) {
    forall h :: IsRedeemed(s, h) ==> IsPrepared(s, h)
  }

  /** A request that arrives when its row exists changes nothing that the set calls for. */
  lemma LateRequest(s: set<Event>, r: RequestedEvent)
    requires Consistent(s) && Consistent(s + {Request(r)}) && r.request in Known(s)
    ensures r.request in Known(s + {Request(r)})
    ensures RowFor(s + {Request(r)}, r.request) == RowFor(s, r.request)
  {
    var h, s' := r.request, s + {Request(r)};
    assert IsPrepared(s', h) == IsPrepared(s, h) && IsRedeemed(s', h) == IsRedeemed(s, h);
    assert Request(r) in s' && Id(Request(r)) == h;
    RowForIs(s', h);
    RowForIs(s, h);
    if IsPrepared(s, h) {
      var p :| Prepare(p) in s && p.request == h;
      assert Prepare(p) in s';
      if IsRedeemed(s, h) {
        var b, a :| Redeem(h, b, a) in s;
        assert Redeem(h, b, a) in s';
      }
    } else {
      RequestOf(s, h);
      var q :| Request(q) in s && q.request == h;
      assert Compatible(Request(q), Request(r));
    }
  }

  lemma StepRequest(s: set<Event>, r: RequestedEvent)
    requires Consistent(s) && Consistent(s + {Request(r)}) && r.request in Known(s + {Request(r)})
    requires UniqueAgainst(FinalTable(s), r.request, RowFor(s + {Request(r)}, r.request))
    ensures OnRequested(FinalTable(s), r) == Ok(FinalTable(s)[r.request := RowFor(s + {Request(r)}, r.request)])
  {
    var h, t, s' := r.request, FinalTable(s), s + {Request(r)};
    if h in t {
      LateRequest(s, r);
      assert t[h := t[h]] == t;
    } else {
      assert !IsPrepared(s', h) by {
        assert forall p :: Prepare(p) in s' ==> Prepare(p) in s && Id(Prepare(p)) in Known(s);
      }
      RowForIs(s', h);
      RowShape(s', h);
      assert Request(r) in s' && WellFormed(Request(r));
    }
  }

  lemma StepPrepare(s: set<Event>, p: PreparedEvent)
    requires Consistent(s) && Settled(s) && Consistent(s + {Prepare(p)}) && p.request in Known(s + {Prepare(p)})
    requires UniqueAgainst(FinalTable(s), p.request, RowFor(s + {Prepare(p)}, p.request))
    ensures OnPrepared(FinalTable(s), p) == Ok(FinalTable(s)[p.request := RowFor(s + {Prepare(p)}, p.request)])
  {
    var h, t, s' := p.request, FinalTable(s), s + {Prepare(p)};
    RowForIs(s', h);
    RowShape(s', h);
    assert Prepare(p) in s' && WellFormed(Prepare(p));
    assert IsRedeemed(s', h) == IsRedeemed(s, h);
    if IsPrepared(s, h) {
      var q :| Prepare(q) in s && q.request == h;
      assert Compatible(Prepare(q), Prepare(p));
      assert s' == s;
      assert h == Id(Prepare(q)) && h in t;
      RowShape(s, h);
      assert t[h := t[h]] == t;
    } else if h in t {
      RequestOf(s, h);
      RowForIs(s, h);
      var r :| Request(r) in s && r.request == h;
      assert Compatible(Request(r), Prepare(p));
      assert UpdateFrom(t[h], p) == Some(PreparedRow(p));
    }
  }

  lemma StepRedeem(s: set<Event>, h: Hash, b: Hash, a: int)
    requires var e := Redeem(h, b, a);
             && Consistent(s) && Consistent(s + {e}) && IsPrepared(s, h) && h in Known(s) && h in Known(s + {e})
             && UniqueAgainst(FinalTable(s), h, RowFor(s + {e}, h))
    ensures OnRedeemed(FinalTable(s), h, b, Some(a)) == Ok(FinalTable(s)[h := RowFor(s + {Redeem(h, b, a)}, h)])
  {
    var e := Redeem(h, b, a);
    var t, s' := FinalTable(s), s + {e};
    RowForIs(s, h);
    RowForIs(s', h);
    RowShape(s', h);
    var p :| Prepare(p) in s && p.request == h;
    assert Prepare(p) in s' && e in s';
    assert t[h].(btcTxId := Some(b), status := Completed) == RowFor(s', h) by {
      if IsRedeemed(s, h) {
        var c, d :| Redeem(h, c, d) in s;
        assert Compatible(e, Redeem(h, c, d));
      }
    }
  }

  /** The larger set calls for the old rows and one row for the redeem of the event. */
  lemma OthersKept(s: set<Event>, e: Event)
    requires Consistent(s) && Consistent(s + {e}) && Id(e) in Known(s + {e})
    ensures FinalTable(s + {e}) == FinalTable(s)[Id(e) := RowFor(s + {e}, Id(e))]
  {
    var h := Id(e);
    assert Known(s + {e}) == Known(s) + {h};
    forall g | g in Known(s) && g != h ensures RowFor(s + {e}, g) == RowFor(s, g) {
      RowForOther(s, e, g);
    }
  }

  lemma NewRowUnique(s: set<Event>, e: Event)
    requires Consistent(s) && Consistent(s + {e}) && Id(e) in Known(s + {e})
    ensures UniqueAgainst(FinalTable(s), Id(e), RowFor(s + {e}, Id(e)))
  {
    var h, t := Id(e), FinalTable(s);
    var row := RowFor(s + {e}, h);
    forall g | g in t && g != h
      ensures row.prepare.Some? ==> t[g].prepare != row.prepare
      ensures row.btcTxId.Some? ==> t[g].btcTxId != row.btcTxId
    {
      RowForOther(s, e, g);
      FinalTableUnique(s + {e}, h, g);
    }
  }

  lemma EventIsKnown(s: set<Event>, e: Event)
    requires e.Redeem? ==> IsPrepared(s, e.h)
    ensures Id(e) in Known(s + {e})
    ensures e.Redeem? ==> Id(e) in Known(s)
  {
  }

  /** One more event takes the table of a set to the table of the larger set. */
  lemma ConfluenceStep(s: set<Event>, e: Event)
    requires Consistent(s + {e}) && Settled(s)
    requires e.Redeem? ==> IsPrepared(s, e.h)
    ensures Consistent(s)
    ensures OnEvent(FinalTable(s), e) == Ok(FinalTable(s + {e}))
  {
    PrefixConsistent(s, e);
    EventIsKnown(s, e);
    OthersKept(s, e);
    NewRowUnique(s, e);
    match e
    case Request(r) => StepRequest(s, r);
    case Prepare(p) => StepPrepare(s, p);
    case Redeem(h, b, a) => StepRedeem(s, h, b, a);
  }

  /** Confluence: every causal ordering of a consistent set of events, with any repetition, runs without an
      error to the table that the set calls for. */
  lemma {:induction false} Confluence(es: seq<Event>)
    requires Consistent(Elements(es)) && Causal(es)
    ensures Play(es) == Ok(FinalTable(Elements(es)))
    ensures Settled(Elements(es))
  {
    if es == [] {
      assert Elements(es) == {};
      assert forall h :: !IsRedeemed({}, h);
    } else {
      var before, e := es[..|es| - 1], es[|es| - 1];
      assert Elements(es) == Elements(before) + {e};
      assert Causal(before) by {
        forall i | 0 <= i < |before| && before[i].Redeem? ensures IsPrepared(Elements(before[..i]), before[i].h) {
          assert before[..i] == es[..i];
        }
      }
      Confluence(before);
      ConfluenceStep(Elements(before), e);
      SettledStep(Elements(before), e);
    }
  }

  lemma SettledStep(s: set<Event>, e: Event)
    requires Settled(s) && (e.Redeem? ==> IsPrepared(s, e.h))
    ensures Settled(s + {e})
  {
    forall h | IsRedeemed(s + {e}, h) ensures IsPrepared(s + {e}, h) {
      assert IsPrepared(s, h);
      var p :| Prepare(p) in s && p.request == h;
      assert Prepare(p) in s + {e};
    }
  }

  /** Hence any two such orderings of the same events agree. */
  lemma OrderingsAgree(es: seq<Event>, fs: seq<Event>)
    requires Elements(es) == Elements(fs) && Consistent(Elements(es)) && Causal(es) && Causal(fs)
    ensures Play(es) == Play(fs) && Play(es).Ok?
  {
    Confluence(es);
    Confluence(fs);
  }

  /** For any request and any prepared event of one redeem, the order is irrelevant, down to the error it ends in,
      exactly in these cases: the request is dropped; or both events are well formed and agree, with a valid receiver;
      or the request is malformed and the prepared event is dropped. */
  lemma OrderIrrelevantIff(r: RequestedEvent, p: PreparedEvent)
    requires r.request == p.request
    ensures Play([Request(r), Prepare(p)]) == Play([Prepare(p), Request(r)]) <==>
            if RequestOk(r) then ZeroAddress(r.requester) || (PreparedOk(p) && Agrees(r, p))
            else PreparedOk(p) && ZeroAddress(p.requester)
  {
    PlayTwo(Request(r), Prepare(p));
    PlayTwo(Prepare(p), Request(r));
    FirstRequest(r);
    FirstPrepared(p);
    if RequestOk(r) && !ZeroAddress(r.requester) {
      PreparedSecond(r, p);
    }
  }

  lemma FirstRequest(r: RequestedEvent)
    ensures OnRequested(map[], r) ==
            if !RequestOk(r) then Err(RequestedEventInvalid)
            else Ok(if ZeroAddress(r.requester) then map[] else map[r.request := RequestedRow(r)])
  {
  }

  lemma FirstPrepared(p: PreparedEvent)
    ensures OnPrepared(map[], p) ==
            if !PreparedOk(p) then Err(PreparedEventInvalid)
            else Ok(if ZeroAddress(p.requester) then map[] else map[p.request := PreparedRow(p)])
  {
  }

  /** A prepared event after a request that was stored. */
  lemma PreparedSecond(r: RequestedEvent, p: PreparedEvent)
    requires r.request == p.request && RequestOk(r) && !ZeroAddress(r.requester)
    ensures var t := map[r.request := RequestedRow(r)];
            if PreparedOk(p) && Agrees(r, p) then OnPrepared(t, p) == Ok(map[p.request := PreparedRow(p)])
            else OnPrepared(t, p) == Err(if r.validReceiver then PreparedEventUnmatched else UpdateInvalidRedeem)
  {
    var h, row := r.request, RequestedRow(r);
    if PreparedOk(p) && Agrees(r, p) {
      assert UpdateFrom(row, p) == Some(PreparedRow(p));
      assert map[h := row][h := PreparedRow(p)] == map[h := PreparedRow(p)];
    }
  }

  lemma PlayTwo(e: Event, f: Event)
    ensures Play([e, f]) == var first := OnEvent(map[], e); if first.Err? then first else OnEvent(first.value, f)
  {
    assert [e, f][..1] == [e] && [e][..0] == [];
    assert Play([e]) == OnEvent(map[], e);
  }

  // ---------- Rows over arbitrary streams ----------

  /** Every prepared row names its prepare transaction and at least one real outpoint. */
  predicate RowOk(h: Hash, r: Row) {
    && ChecksOk(h, r)
    && (r.status == Prepared ==>
          r.prepare.Some? && r.outpoints != [] && forall o :: o in r.outpoints ==> o.txId != ZERO_HASH)
    && (r.status == Requested || r.status == Invalid ==> r.prepare.None? && r.btcTxId.None?)
  }

  predicate TableOk(t: Table) {
    forall h :: h in t ==> RowOk(h, t[h])
  }

  /** Whatever the events say, every reachable row is well formed. */
  lemma {:induction false} RowsAreOk(es: seq<Event>)
    requires Play(es).Ok?
    ensures TableOk(Play(es).value)
  {
    if es != [] {
      RowsAreOk(es[..|es| - 1]);
    }
  }

  lemma UniqueKept(t: Table, h: Hash, r: Row)
    requires TableUnique(t) && UniqueAgainst(t, h, r)
    ensures TableUnique(t[h := r])
  {
    var u := t[h := r];
    forall g | g in u ensures UniqueAgainst(u, g, u[g]) {
      assert g != h ==> UniqueAgainst(t, g, t[g]);
    }
  }

  lemma EventKeepsUnique(t: Table, e: Event)
    requires TableUnique(t) && OnEvent(t, e).Ok?
    ensures TableUnique(OnEvent(t, e).value)
  {
    var u := OnEvent(t, e).value;
    if u != t {
      assert u == t[Id(e) := u[Id(e)]] && UniqueAgainst(t, Id(e), u[Id(e)]);
      UniqueKept(t, Id(e), u[Id(e)]);
    }
  }

  /** Nor is any preparation or Bitcoin transaction named twice. */
  lemma {:induction false} RowsAreUnique(es: seq<Event>)
    requires Play(es).Ok?
    ensures TableUnique(Play(es).value)
  {
    if es != [] {
      RowsAreUnique(es[..|es| - 1]);
      EventKeepsUnique(Play(es[..|es| - 1]).value, es[|es| - 1]);
    }
  }

  /** Once a row is prepared, no event changes what it pays, to whom, or from which outpoints. */
  lemma {:induction false} PreparedIsFrozen(es: seq<Event>, n: nat, h: Hash)
    requires n <= |es| && Play(es).Ok?
    ensures Play(es[..n]).Ok?
    ensures var t, u := Play(es[..n]).value, Play(es).value;
            h in t && t[h].status in {Prepared, Completed} ==>
              && h in u
              && u[h] == t[h].(btcTxId := u[h].btcTxId, status := u[h].status)
              && u[h].status in {Prepared, Completed}
    decreases |es|
  {
    if n == |es| {
      assert es[..n] == es;
    } else {
      PreparedIsFrozen(es[..|es| - 1], n, h);
      assert es[..|es| - 1][..n] == es[..n];
    }
  }
}

/** The vault as a state machine whose steps are single UPDATE statements. Only selections take the mutex, so the
    statements of a release can fall anywhere inside a selection. */
module VaultRuns {
  import opened Common
  import opened Vault

  /** A selection: what it asked for, the rows it read when `at` statements had been executed, the clock at each
      row, and for each of its own statements so far the position in the log. */
  datatype Claim = Claim(id: Option<Hash>, target: int, sel: seq<Key>, clock: seq<int>, at: nat, spots: seq<nat>)

  /** `log` holds the UPDATE statements executed so far, `claim` the selection that has the mutex, `services` the
      selections that were returned, `releases` what every release in progress has still to execute. */
  datatype State = State(
    table: Table, log: seq<Setter>, claim: Option<Claim>, services: seq<Claim>, releases: seq<seq<Setter>>)

  const START: State := State(map[], [], None, [], [])

  datatype Step =
    | Add(k: Key, blockNumber: int, blockHash: Hash, amount: nat, pkScript: seq<byte>)
    | Begin(rows: seq<Key>, target: int, id: Option<Hash>, clock: seq<int>)
    | Mark
    | Abort
    | Expire(keys: seq<Key>, now: int)
    | Command(key: Key)
    | Release(i: nat)
    | Drop(j: nat)

  predicate Sized(c: Claim) {
    |c.clock| == |c.sel| && |c.spots| <= 3 * |c.sel|
  }

  /** Statement n of the locking loop. */
  function Statement(c: Claim, n: nat): Setter
    requires Sized(c) && n < 3 * |c.sel|
  {
    var k := c.sel[n / 3];
    if n % 3 == 0 then SetLockup(k, true)
    else if n % 3 == 1 then SetTimeout(k, c.clock[n / 3] + TIMEOUT_DELAY)
    else SetLinkedId(k, c.id)
  }

  /** Query results are results the database may return now. */
  ghost predicate Legal(s: State, st: Step) {
    match st
    case Add(_, _, _, _, _) => true
    case Begin(rows, _, _, clock) => s.claim.None? && Descending(s.table, rows) && |clock| == |rows|
    case Mark => s.claim.Some? && Sized(s.claim.value) && |s.claim.value.spots| < 3 * |s.claim.value.sel|
    case Abort => s.claim.Some?
    case Expire(keys, now) => Lists(keys, Expired(s.table, now))
    case Command(_) => true
    case Release(i) => i < |s.releases| && s.releases[i] != []
    case Drop(i) => i < |s.releases|
  }

  function Execute(s: State, x: Setter): State {
    s.(table := Apply(s.table, x), log := s.log + [x])
  }

  /** A selection that has executed all its statements is returned and gives back the mutex. */
  function Settle(s: State, c: Claim): State {
    if |c.spots| == 3 * |c.sel| then s.(claim := None, services := s.services + [c]) else s.(claim := Some(c))
  }

  /** Abort and Drop are failed UPDATE statements, or the end of the process. */
  ghost function Do(s: State, st: Step): State
    requires Legal(s, st)
  {
    match st
    case Add(k, blockNumber, blockHash, amount, pkScript) =>
      s.(table := AddRow(s.table, k, NewUtxo(blockNumber, blockHash, amount, pkScript)))
    case Begin(rows, target, id, clock) =>
      var sel := Choice(s.table, rows, target, id);
      if sel.None? then s else Settle(s, Claim(id, target, sel.value, clock[..|sel.value|], |s.log|, []))
    case Mark =>
      var c := s.claim.value;
      Settle(Execute(s, Statement(c, |c.spots|)), c.(spots := c.spots + [|s.log|]))
    case Abort => s.(claim := None)
    case Expire(keys, _) => s.(releases := s.releases + [ReleaseScript(keys)])
    case Command(k) => if k in s.table then s.(releases := s.releases + [ReleaseScript([k])]) else s
    case Release(i) => Execute(s, s.releases[i][0]).(releases := s.releases[i := s.releases[i][1..]])
    case Drop(i) => s.(releases := s.releases[i := []])
  }

  ghost predicate Run(s: State, steps: seq<Step>)
    decreases |steps|, 0
  {
    steps == [] || (Run(s, steps[..|steps| - 1]) && Legal(After(s, steps[..|steps| - 1]), steps[|steps| - 1]))
  }

  ghost function After(s: State, steps: seq<Step>): State
    requires Run(s, steps)
    decreases |steps|, 1
  {
    if steps == [] then s else Do(After(s, steps[..|steps| - 1]), steps[|steps| - 1])
  }

  lemma RunSnoc(s: State, steps: seq<Step>, st: Step)
    requires Run(s, steps) && Legal(After(s, steps), st)
    ensures Run(s, steps + [st]) && After(s, steps + [st]) == Do(After(s, steps), st)
  {
    assert (steps + [st])[..|steps|] == steps;
  }

  // ---------- What the log says ----------

  /** A release cleared the lock of k between two positions. */
  ghost predicate Cleared(log: seq<Setter>, from: int, to: int, k: Key) {
    exists p :: from < p < to && 0 <= p < |log| && log[p] == SetLockup(k, false)
  }

  ghost predicate RelockedAt(log: seq<Setter>, p: int, q: int, r: int, k: Key, id: Option<Hash>) {
    && 0 <= p < q < r < |log|
    && log[p] == SetLockup(k, false) && log[q] == SetLockup(k, true)
    && log[r].SetLinkedId? && log[r].k == k && log[r].linkedId != id
  }

  /** Between two positions k was released, then locked again, then linked to another id. */
  ghost predicate Relocked(log: seq<Setter>, from: int, to: int, k: Key, id: Option<Hash>) {
    exists p, q, r :: from < p && r < to && RelockedAt(log, p, q, r, k, id)
  }

  lemma ClearedGrows(log: seq<Setter>, x: Setter, from: int, to: int, later: int, k: Key)
    requires Cleared(log, from, to, k) && to <= later
    ensures Cleared(log + [x], from, later, k)
  {
    var p :| from < p < to && 0 <= p < |log| && log[p] == SetLockup(k, false);
    assert (log + [x])[p] == log[p];
  }

  lemma RelockedGrows(log: seq<Setter>, x: Setter, from: int, to: int, later: int, k: Key, id: Option<Hash>)
    requires Relocked(log, from, to, k, id) && to <= later
    ensures Relocked(log + [x], from, later, k, id)
  {
    var p, q, r :| from < p && r < to && RelockedAt(log, p, q, r, k, id);
    assert RelockedAt(log + [x], p, q, r, k, id);
  }

  // ---------- Invariant ----------

  /** The rows of a selection are worth its target. */
  ghost predicate Funded(t: Table, c: Claim) {
    && Distinct(c.sel) && (forall k :: k in c.sel ==> k in t)
    && SeqTotal(Amounts(t), c.sel) >= c.target
    && (c.target > 0 ==> c.sel != [])
  }

  /** The statements of a selection are in the log, in order. */
  ghost predicate Placed(log: seq<Setter>, c: Claim)
    requires Sized(c)
  {
    && (forall n :: 0 <= n < |c.spots| ==> c.at <= c.spots[n] < |log| && log[c.spots[n]] == Statement(c, n))
    && (forall m, n :: 0 <= m < n < |c.spots| ==> c.spots[m] < c.spots[n])
  }

  /** A row is locked since the selection locked it, or was released since. */
  ghost predicate Guarded(t: Table, log: seq<Setter>, c: Claim, i: int)
    requires Sized(c) && 0 <= i < |c.sel| && 3 * i < |c.spots|
  {
    var k := c.sel[i];
    k in t && (t[k].lockup || Cleared(log, c.spots[3 * i], |log|, k))
  }

  /** A row is linked to the selection's id since it was linked, or was released and taken by another since. */
  ghost predicate Tied(t: Table, log: seq<Setter>, c: Claim, i: int)
    requires Sized(c) && 0 <= i < |c.sel| && 3 * i + 2 < |c.spots|
  {
    var k := c.sel[i];
    k in t && (t[k].linkedId == c.id || Relocked(log, c.spots[3 * i], |log|, k, c.id))
  }

  ghost predicate ClaimOk(t: Table, log: seq<Setter>, c: Claim) {
    && Sized(c) && c.at <= |log| && Funded(t, c) && Placed(log, c)
    && (forall i :: 0 <= i < |c.sel| && 3 * i < |c.spots| ==> Guarded(t, log, c, i))
    && (forall i :: 0 <= i < |c.sel| && 3 * i + 2 < |c.spots| ==> Tied(t, log, c, i))
  }

  predicate Complete(c: Claim) {
    Sized(c) && |c.spots| == 3 * |c.sel|
  }

  /** The returned selection c was over when d read its rows. What they share was released in between; and if
      they have one id, all of c was released and taken by others in between. */
  ghost predicate Apart(log: seq<Setter>, c: Claim, d: Claim)
    requires Complete(c)
  {
    && (forall n :: 0 <= n < |c.spots| ==> c.spots[n] < d.at)
    && (forall i :: 0 <= i < |c.sel| && c.sel[i] in d.sel ==> Cleared(log, c.spots[3 * i], d.at, c.sel[i]))
    && (c.id == d.id ==> forall i :: 0 <= i < |c.sel| ==> Relocked(log, c.spots[3 * i], d.at, c.sel[i], c.id))
  }

  predicate IsRelease(x: Setter) {
    (x.SetLockup? && !x.lockup) || (x.SetTimeout? && x.timeout == 0)
  }

  ghost predicate InvClaims(s: State) {
    && (forall c :: c in s.services ==> Complete(c) && ClaimOk(s.table, s.log, c))
    && (s.claim.Some? ==>
          var d := s.claim.value;
          ClaimOk(s.table, s.log, d) && !Complete(d) && forall c :: c in s.services ==> Apart(s.log, c, d))
    && (forall i, j :: 0 <= i < j < |s.services| ==> Apart(s.log, s.services[i], s.services[j]))
  }

  /** Releases in progress only clear locks and timeouts. */
  ghost predicate InvReleases(s: State) {
    forall ss :: ss in s.releases ==> forall x :: x in ss ==> IsRelease(x) && x.k in s.table
  }

  ghost predicate Inv(s: State) {
    InvClaims(s) && InvReleases(s)
  }

  // ---------- Statements ----------

  lemma ApplyKeeps(t: Table, x: Setter)
    ensures Apply(t, x).Keys == t.Keys && Amounts(Apply(t, x)) == Amounts(t)
    ensures forall k :: k in t ==> Apply(t, x)[k].spent == t[k].spent
  {
  }

  /** A statement that links none of the rows of c elsewhere without a release leaves c in order. */
  lemma ClaimSurvives(t: Table, log: seq<Setter>, c: Claim, x: Setter)
    requires ClaimOk(t, log, c)
    requires x.SetLinkedId? ==>
               forall i :: 0 <= i < |c.sel| && 3 * i + 2 < |c.spots| && c.sel[i] == x.k && x.linkedId != c.id ==>
                             Relocked(log + [x], c.spots[3 * i], |log| + 1, c.sel[i], c.id)
    ensures ClaimOk(Apply(t, x), log + [x], c)
  {
    ApplyKeeps(t, x);
    var u, more := Apply(t, x), log + [x];
    forall n | 0 <= n < |c.spots| ensures c.at <= c.spots[n] < |more| && more[c.spots[n]] == Statement(c, n) { }
    forall i | 0 <= i < |c.sel| && 3 * i < |c.spots| ensures Guarded(u, more, c, i) {
      GuardSurvives(t, log, c, x, i);
    }
    forall i | 0 <= i < |c.sel| && 3 * i + 2 < |c.spots| ensures Tied(u, more, c, i) {
      assert Tied(t, log, c, i);
      if t[c.sel[i]].linkedId != c.id {
        RelockedGrows(log, x, c.spots[3 * i], |log|, |more|, c.sel[i], c.id);
      }
    }
  }

  lemma GuardSurvives(t: Table, log: seq<Setter>, c: Claim, x: Setter, i: nat)
    requires Sized(c) && Placed(log, c) && i < |c.sel| && 3 * i < |c.spots| && Guarded(t, log, c, i)
    ensures Guarded(Apply(t, x), log + [x], c, i)
  {
    var k := c.sel[i];
    if !t[k].lockup {
      ClearedGrows(log, x, c.spots[3 * i], |log|, |log| + 1, k);
    } else if x == SetLockup(k, false) {
      assert c.spots[3 * i] < |log| && (log + [x])[|log|] == x;
    }
  }

  lemma ApartSurvives(log: seq<Setter>, c: Claim, d: Claim, x: Setter)
    requires Complete(c) && Apart(log, c, d)
    ensures Apart(log + [x], c, d)
  {
    forall i | 0 <= i < |c.sel| && c.sel[i] in d.sel ensures Cleared(log + [x], c.spots[3 * i], d.at, c.sel[i]) {
      ClearedGrows(log, x, c.spots[3 * i], d.at, d.at, c.sel[i]);
    }
    if c.id == d.id {
      forall i | 0 <= i < |c.sel| ensures Relocked(log + [x], c.spots[3 * i], d.at, c.sel[i], c.id) {
        RelockedGrows(log, x, c.spots[3 * i], d.at, d.at, c.sel[i], c.id);
      }
    }
  }

  /** A returned selection survives the statements of the one in progress: a row that this one links elsewhere
      was released before it read its rows, and it locked the row first. */
  lemma MarkSpares(t: Table, log: seq<Setter>, c: Claim, d: Claim)
    requires Complete(c) && ClaimOk(t, log, c) && ClaimOk(t, log, d) && !Complete(d) && Apart(log, c, d)
    ensures ClaimOk(Apply(t, Statement(d, |d.spots|)), log + [Statement(d, |d.spots|)], c)
  {
    var n := |d.spots|;
    var x := Statement(d, n);
    if x.SetLinkedId? {
      forall i | 0 <= i < |c.sel| && c.sel[i] == x.k && x.linkedId != c.id
        ensures Relocked(log + [x], c.spots[3 * i], |log| + 1, c.sel[i], c.id)
      {
        assert x.k == d.sel[n / 3];
        assert Cleared(log, c.spots[3 * i], d.at, x.k);
        var p :| c.spots[3 * i] < p < d.at && 0 <= p < |log| && log[p] == SetLockup(x.k, false);
        assert log[d.spots[n - 2]] == Statement(d, n - 2) == SetLockup(x.k, true);
        assert RelockedAt(log + [x], p, d.spots[n - 2], |log|, x.k, c.id);
      }
    }
    ClaimSurvives(t, log, c, x);
  }

  lemma StatementTakesEffect(t: Table, log: seq<Setter>, d: Claim)
    requires Sized(d) && |d.spots| < 3 * |d.sel| && d.sel[|d.spots| / 3] in t
    ensures var n := |d.spots|; var x := Statement(d, n); var e := d.(spots := d.spots + [|log|]);
            && (n % 3 == 0 ==> Guarded(Apply(t, x), log + [x], e, n / 3))
            && (n % 3 == 2 ==> Tied(Apply(t, x), log + [x], e, n / 3))
  {
  }

  /** A statement at the end of the log is recorded as the next one of the selection. */
  lemma RecordSpot(t: Table, log: seq<Setter>, d: Claim, last: nat)
    requires ClaimOk(t, log, d) && !Complete(d) && |log| == last + 1 && log[last] == Statement(d, |d.spots|)
    requires d.at <= last && forall n :: 0 <= n < |d.spots| ==> d.spots[n] < last
    requires var n := |d.spots|; var e := d.(spots := d.spots + [last]);
             && (n % 3 == 0 ==> Guarded(t, log, e, n / 3))
             && (n % 3 == 2 ==> Tied(t, log, e, n / 3))
    ensures ClaimOk(t, log, d.(spots := d.spots + [last]))
  {
    var n, e := |d.spots|, d.(spots := d.spots + [last]);
    forall m | 0 <= m < |e.spots| ensures e.at <= e.spots[m] < |log| && log[e.spots[m]] == Statement(e, m) {
      assert Statement(e, m) == Statement(d, m);
    }
    forall i | 0 <= i < |e.sel| && 3 * i < |e.spots| ensures Guarded(t, log, e, i) {
      assert 3 * i < n ==> Guarded(t, log, d, i);
    }
    forall i | 0 <= i < |e.sel| && 3 * i + 2 < |e.spots| ensures Tied(t, log, e, i) {
      assert 3 * i + 2 < n ==> Tied(t, log, d, i);
    }
  }

  /** The selection in progress with one statement more. */
  lemma MarkExtends(t: Table, log: seq<Setter>, d: Claim)
    requires ClaimOk(t, log, d) && !Complete(d)
    ensures ClaimOk(Apply(t, Statement(d, |d.spots|)), log + [Statement(d, |d.spots|)], d.(spots := d.spots + [|log|]))
  {
    var x := Statement(d, |d.spots|);
    assert x.SetLinkedId? ==> x.linkedId == d.id;
    ClaimSurvives(t, log, d, x);
    assert d.sel[|d.spots| / 3] in d.sel;
    StatementTakesEffect(t, log, d);
    RecordSpot(Apply(t, x), log + [x], d, |log|);
  }

  // ---------- Steps ----------

  lemma SettleKeeps(s: State, d: Claim)
    requires InvClaims(s.(claim := None)) && InvReleases(s) && ClaimOk(s.table, s.log, d)
    requires forall c :: c in s.services ==> Complete(c) && Apart(s.log, c, d)
    ensures Inv(Settle(s, d))
  {
    var u := Settle(s, d);
    forall c | c in u.services ensures Complete(c) && ClaimOk(u.table, u.log, c) {
      assert c in s.services || c == d;
    }
    assert u.claim.Some? ==> forall c :: c in u.services ==> Apart(u.log, c, d);
    forall i, j | 0 <= i < j < |u.services| ensures Apart(u.log, u.services[i], u.services[j]) {
      assert u.services[i] == s.services[i] && s.services[i] in s.services;
    }
  }

  lemma ReleaseKeeps(s: State, i: nat)
    requires Inv(s) && Legal(s, Release(i))
    ensures Inv(Do(s, Release(i)))
  {
    var u, x := Do(s, Release(i)), s.releases[i][0];
    ApplyKeeps(s.table, x);
    assert s.releases[i] in s.releases && x in s.releases[i];
    forall c | c in s.services ensures ClaimOk(u.table, u.log, c) {
      ClaimSurvives(s.table, s.log, c, x);
    }
    if s.claim.Some? {
      ClaimSurvives(s.table, s.log, s.claim.value, x);
    }
    OrderSurvives(s, x);
    forall ss | ss in u.releases ensures forall y :: y in ss ==> IsRelease(y) && y.k in u.table {
      assert ss in s.releases || ss == s.releases[i][1..];
    }
  }

  lemma OrderSurvives(s: State, x: Setter)
    requires InvClaims(s)
    ensures forall i, j :: 0 <= i < j < |s.services| ==> Apart(s.log + [x], s.services[i], s.services[j])
    ensures s.claim.Some? ==> forall c :: c in s.services ==> Apart(s.log + [x], c, s.claim.value)
  {
    forall i, j | 0 <= i < j < |s.services| ensures Apart(s.log + [x], s.services[i], s.services[j]) {
      ApartSurvives(s.log, s.services[i], s.services[j], x);
    }
    if s.claim.Some? {
      forall c | c in s.services ensures Apart(s.log + [x], c, s.claim.value) {
        ApartSurvives(s.log, c, s.claim.value, x);
      }
    }
  }

  lemma MarkKeeps(s: State)
    requires Inv(s) && Legal(s, Mark)
    ensures Inv(Do(s, Mark))
  {
    var d := s.claim.value;
    var x, e := Statement(d, |d.spots|), d.(spots := d.spots + [|s.log|]);
    var u := Execute(s, x);
    ApplyKeeps(s.table, x);
    forall c | c in s.services ensures ClaimOk(u.table, u.log, c) {
      MarkSpares(s.table, s.log, c, d);
    }
    MarkExtends(s.table, s.log, d);
    OrderSurvives(s, x);
    forall c | c in s.services ensures Apart(u.log, c, e) {
      assert Apart(u.log, c, d);
    }
    SettleKeeps(u, e);
  }

  lemma ChoiceIsUsable(t: Table, rows: seq<Key>, target: int, id: Option<Hash>)
    requires Descending(t, rows) && Choice(t, rows, target, id).Some?
    ensures var sel := Choice(t, rows, target, id).value;
            && |sel| <= |rows| && Distinct(sel) && Elements(sel) <= Usable(t)
            && LinkedTo(t, id) == {}
            && SeqTotal(Amounts(t), sel) >= target
            && (target > 0 ==> sel != [])
  {
  }

  /** What a new selection shares with a returned one was released since: it reads as unlocked, and if the ids are
      equal, as linked elsewhere. */
  lemma BeginApart(t: Table, log: seq<Setter>, c: Claim, d: Claim)
    requires Complete(c) && ClaimOk(t, log, c)
    requires d.at == |log| && Elements(d.sel) <= Usable(t) && LinkedTo(t, d.id) == {}
    ensures Apart(log, c, d)
  {
    forall i | 0 <= i < |c.sel| && c.sel[i] in d.sel ensures Cleared(log, c.spots[3 * i], d.at, c.sel[i]) {
      assert Guarded(t, log, c, i) && c.sel[i] in Elements(d.sel);
    }
    forall i | 0 <= i < |c.sel| && c.id == d.id ensures Relocked(log, c.spots[3 * i], d.at, c.sel[i], c.id) {
      assert Tied(t, log, c, i) && c.sel[i] !in LinkedTo(t, d.id);
    }
  }

  lemma BeginKeeps(s: State, rows: seq<Key>, target: int, id: Option<Hash>, clock: seq<int>)
    requires Inv(s) && Legal(s, Begin(rows, target, id, clock))
    ensures Inv(Do(s, Begin(rows, target, id, clock)))
  {
    var sel := Choice(s.table, rows, target, id);
    if sel.Some? {
      ChoiceIsUsable(s.table, rows, target, id);
      var d := Claim(id, target, sel.value, clock[..|sel.value|], |s.log|, []);
      forall k | k in d.sel ensures k in s.table { assert k in Elements(d.sel); }
      forall c | c in s.services ensures Apart(s.log, c, d) {
        BeginApart(s.table, s.log, c, d);
      }
      SettleKeeps(s, d);
    }
  }

  lemma {:induction false} TotalKept(a: map<Key, nat>, b: map<Key, nat>, ks: seq<Key>)
    requires forall k :: k in ks ==> k in a && k in b && a[k] == b[k]
    ensures SeqTotal(a, ks) == SeqTotal(b, ks)
  {
    if ks != [] {
      TotalKept(a, b, ks[1..]);
    }
  }

  lemma AddSpares(t: Table, u: Table, log: seq<Setter>, c: Claim)
    requires ClaimOk(t, log, c) && forall k :: k in t ==> k in u && u[k] == t[k]
    ensures ClaimOk(u, log, c)
  {
    TotalKept(Amounts(t), Amounts(u), c.sel);
    forall i | 0 <= i < |c.sel| && 3 * i < |c.spots| ensures Guarded(u, log, c, i) {
      assert Guarded(t, log, c, i);
    }
    forall i | 0 <= i < |c.sel| && 3 * i + 2 < |c.spots| ensures Tied(u, log, c, i) {
      assert Tied(t, log, c, i);
    }
  }

  lemma AddKeeps(s: State, u: State)
    requires Inv(s) && u == s.(table := u.table) && forall k :: k in s.table ==> k in u.table && u.table[k] == s.table[k]
    ensures Inv(u)
  {
    forall c | c in s.services || s.claim == Some(c) ensures ClaimOk(u.table, u.log, c) {
      AddSpares(s.table, u.table, s.log, c);
    }
  }

  lemma {:induction false} ReleaseScriptOnly(ks: seq<Key>)
    ensures forall x :: x in ReleaseScript(ks) ==> x.k in ks && IsRelease(x)
  {
    if ks != [] {
      ReleaseScriptOnly(ks[..|ks| - 1]);
    }
  }

  lemma StartReleaseKeeps(s: State, ks: seq<Key>)
    requires Inv(s) && forall k :: k in ks ==> k in s.table
    ensures Inv(s.(releases := s.releases + [ReleaseScript(ks)]))
  {
    ReleaseScriptOnly(ks);
  }

  lemma DropKeeps(s: State, i: nat)
    requires Inv(s) && i < |s.releases|
    ensures Inv(s.(releases := s.releases[i := []]))
  {
    var u := s.(releases := s.releases[i := []]);
    forall ss | ss in u.releases ensures forall x :: x in ss ==> IsRelease(x) && x.k in u.table {
      assert ss == [] || ss in s.releases;
    }
  }

  lemma StepKeepsInv(s: State, st: Step)
    requires Inv(s) && Legal(s, st)
    ensures Inv(Do(s, st))
  {
    match st
    case Add(_, _, _, _, _) => AddKeeps(s, Do(s, st));
    case Begin(rows, target, id, clock) => BeginKeeps(s, rows, target, id, clock);
    case Mark => MarkKeeps(s);
    case Abort =>
      assert InvClaims(Do(s, st));
    case Expire(keys, now) =>
      forall k | k in keys ensures k in s.table { assert k in Elements(keys); }
      StartReleaseKeeps(s, keys);
    case Command(k) =>
      if k in s.table { StartReleaseKeeps(s, [k]); }
    case Release(i) => ReleaseKeeps(s, i);
    case Drop(i) => DropKeeps(s, i);
  }

  /** The invariant holds after every run. */
  lemma {:induction false} Always(steps: seq<Step>)
    requires Run(START, steps)
    ensures Inv(After(START, steps))
  {
    if steps != [] {
      Always(steps[..|steps| - 1]);
      StepKeepsInv(After(START, steps[..|steps| - 1]), steps[|steps| - 1]);
    }
  }

  /** Rows and returned selections stay, and no row changes its amount. */
  lemma StepKeepsHistory(s: State, st: Step)
    requires Legal(s, st)
    ensures s.services <= Do(s, st).services && s.log <= Do(s, st).log
    ensures forall k :: k in s.table ==>
                          k in Do(s, st).table && Do(s, st).table[k].amount == s.table[k].amount
                          && Do(s, st).table[k].spent == s.table[k].spent
  {
    var u := Do(s, st);
    if st.Mark? || st.Release? {
      var x := if st.Mark? then Statement(s.claim.value, |s.claim.value.spots|) else s.releases[st.i][0];
      ApplyKeeps(s.table, x);
      forall k | k in s.table ensures k in u.table && u.table[k].amount == s.table[k].amount {
        assert Amounts(u.table)[k] == Amounts(s.table)[k];
      }
    }
  }

  // ---------- Exclusivity ----------

  /** A UTXO handed out twice was released in between: after the first selection locked it and before the second
      one read it, wherever the statements of other releases fell. */
  lemma Exclusive(steps: seq<Step>, i: nat, j: nat, n: nat)
    requires Run(START, steps) && i < j < |After(START, steps).services|
    requires var ss := After(START, steps).services; n < |ss[i].sel| && ss[i].sel[n] in ss[j].sel
    ensures var s := After(START, steps); var c, d := s.services[i], s.services[j];
            && |c.spots| == 3 * |c.sel| && c.spots[3 * n] < |s.log| && s.log[c.spots[3 * n]] == SetLockup(c.sel[n], true)
            && Cleared(s.log, c.spots[3 * n], d.at, c.sel[n])
  {
    Always(steps);
    var s := After(START, steps);
    assert s.services[i] in s.services && Apart(s.log, s.services[i], s.services[j]);
    assert Statement(s.services[i], 3 * n) == SetLockup(s.services[i].sel[n], true);
  }

  /** A second service of one id comes only after every UTXO of the first one was released, then locked again, then
      linked to another id. */
  lemma SecondService(steps: seq<Step>, i: nat, j: nat, n: nat)
    requires Run(START, steps) && i < j < |After(START, steps).services|
    requires var ss := After(START, steps).services; ss[i].id == ss[j].id && n < |ss[i].sel|
    ensures var s := After(START, steps); var c, d := s.services[i], s.services[j];
            |c.spots| == 3 * |c.sel| && Relocked(s.log, c.spots[3 * n], d.at, c.sel[n], c.id)
  {
    Always(steps);
    var s := After(START, steps);
    assert s.services[i] in s.services && Apart(s.log, s.services[i], s.services[j]);
  }

  /** If no lock is ever cleared, each id is served at most once and all selections are disjoint. */
  lemma NoReleaseNoReuse(steps: seq<Step>, i: nat, j: nat)
    requires Run(START, steps) && i < j < |After(START, steps).services|
    requires forall k :: SetLockup(k, false) !in After(START, steps).log
    ensures var ss := After(START, steps).services;
            && (ss[i].target > 0 ==> ss[i].id != ss[j].id)
            && Elements(ss[i].sel) !! Elements(ss[j].sel)
  {
    Always(steps);
    var s := After(START, steps);
    var c, d := s.services[i], s.services[j];
    assert c in s.services && Apart(s.log, c, d);
    if c.target > 0 && c.id == d.id {
      SecondService(steps, i, j, 0);
    }
    assert forall n :: 0 <= n < |c.sel| ==> c.sel[n] !in d.sel;
  }

  // ---------- Conservation ----------

  /** The distinct outputs ever added, each with the amount first reported. */
  ghost function FirstAdds(steps: seq<Step>): map<Key, nat> {
    if steps == [] then map[] else
      var a, st := FirstAdds(steps[..|steps| - 1]), steps[|steps| - 1];
      if st.Add? && st.k !in a then a[st.k := st.amount] else a
  }

  lemma StepAmounts(s: State, st: Step)
    requires Legal(s, st)
    ensures Amounts(Do(s, st).table) ==
            if st.Add? && st.k !in s.table then Amounts(s.table)[st.k := st.amount] else Amounts(s.table)
    ensures (forall k :: k in s.table ==> !s.table[k].spent) ==> forall k :: k in Do(s, st).table ==> !Do(s, st).table[k].spent
  {
    if st.Mark? {
      ApplyKeeps(s.table, Statement(s.claim.value, |s.claim.value.spots|));
    } else if st.Release? {
      ApplyKeeps(s.table, s.releases[st.i][0]);
    }
  }

  lemma {:induction false} AmountsAreFirstAdds(steps: seq<Step>)
    requires Run(START, steps)
    ensures Amounts(After(START, steps).table) == FirstAdds(steps)
    ensures forall k :: k in After(START, steps).table ==> !After(START, steps).table[k].spent
  {
    if steps != [] {
      var before, st := steps[..|steps| - 1], steps[|steps| - 1];
      AmountsAreFirstAdds(before);
      StepAmounts(After(START, before), st);
      assert Amounts(After(START, before).table).Keys == After(START, before).table.Keys;
    }
  }

  /** Free money plus locked money is the sum of all distinct outputs added, between any two statements. */
  lemma Conservation(steps: seq<Step>)
    requires Run(START, steps)
    ensures var t := After(START, steps).table;
            SumMoney(t) + LockedMoney(t) == Total(FirstAdds(steps), FirstAdds(steps).Keys)
  {
    AmountsAreFirstAdds(steps);
    var t := After(START, steps).table;
    TotalUnion(Amounts(t), Usable(t), Locked(t));
    assert Usable(t) + Locked(t) == Amounts(t).Keys;
  }
}

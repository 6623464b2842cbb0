/** How long a lock lasts: exactly, under every interleaving of selections and releases. */
module VaultLocks {
  import opened Common
  import opened Vault
  import opened VaultRuns
  import opened VaultScripts

  // ---------- The table mirrors the log ----------

  predicate SameColumn(x: Setter, y: Setter) {
    x.k == y.k && x.SetLockup? == y.SetLockup? && x.SetTimeout? == y.SetTimeout?
  }

  /** No later statement writes the same column of the same row. */
  ghost predicate Latest(log: seq<Setter>, a: nat)
    requires a < |log|
  {
    forall p :: a < p < |log| ==> !SameColumn(log[p], log[a])
  }

  predicate Shows(t: Table, x: Setter) {
    && x.k in t
    && match x
       case SetLockup(k, b) => t[k].lockup == b
       case SetTimeout(k, v) => t[k].timeout == v
       case SetLinkedId(k, id) => t[k].linkedId == id
  }

  ghost predicate Mirrors(t: Table, log: seq<Setter>) {
    forall a :: 0 <= a < |log| ==> log[a].k in t && (Latest(log, a) ==> Shows(t, log[a]))
  }

  lemma ExecuteMirrors(t: Table, log: seq<Setter>, x: Setter)
    requires Mirrors(t, log) && x.k in t
    ensures Mirrors(Apply(t, x), log + [x])
  {
    var more := log + [x];
    forall a | 0 <= a < |more|
      ensures more[a].k in Apply(t, x) && (Latest(more, a) ==> Shows(Apply(t, x), more[a]))
    {
      if a < |log| && Latest(more, a) {
        assert !SameColumn(more[|log|], more[a]);
        assert forall p :: a < p < |log| ==> more[p] == log[p];
        assert Latest(log, a);
      }
    }
  }

  lemma StepMirrors(s: State, st: Step)
    requires Inv(s) && Mirrors(s.table, s.log) && Legal(s, st)
    ensures Mirrors(Do(s, st).table, Do(s, st).log)
  {
    if st.Mark? {
      var c := s.claim.value;
      assert c.sel[|c.spots| / 3] in c.sel;
      ExecuteMirrors(s.table, s.log, Statement(c, |c.spots|));
    } else if st.Release? {
      assert s.releases[st.i] in s.releases && s.releases[st.i][0] in s.releases[st.i];
      ExecuteMirrors(s.table, s.log, s.releases[st.i][0]);
    }
  }

  lemma {:induction false} AlwaysMirrors(steps: seq<Step>)
    requires Run(START, steps)
    ensures Mirrors(After(START, steps).table, After(START, steps).log)
  {
    if steps != [] {
      Always(steps[..|steps| - 1]);
      AlwaysMirrors(steps[..|steps| - 1]);
      StepMirrors(After(START, steps[..|steps| - 1]), steps[|steps| - 1]);
    }
  }

  lemma {:induction false} LastWrite(log: seq<Setter>, a: nat) returns (b: nat)
    requires a < |log|
    ensures a <= b < |log| && SameColumn(log[b], log[a]) && Latest(log, b)
    decreases |log| - a
  {
    if p: nat :| a < p < |log| && SameColumn(log[p], log[a]) {
      b := LastWrite(log, p);
    } else {
      b := a;
    }
  }

  // ---------- Exactly how long ----------

  /** k is locked for id until `deadline`. */
  predicate Held(t: Table, k: Key, id: Option<Hash>, deadline: int) {
    k in t && t[k].lockup && t[k].linkedId == id && t[k].timeout == deadline
  }

  function Deadline(c: Claim, i: nat): int
    requires Sized(c) && i < |c.sel|
  {
    c.clock[i] + TIMEOUT_DELAY
  }

  /** Since the selection locked row i, nothing but releases and the selection itself wrote the row. */
  ghost predicate OnlyReleases(log: seq<Setter>, c: Claim, i: nat)
    requires Complete(c) && i < |c.sel|
  {
    forall p :: 0 <= p < |log| && c.spots[3 * i] < p && log[p].k == c.sel[i] ==>
                  p == c.spots[3 * i + 1] || p == c.spots[3 * i + 2] || IsRelease(log[p])
  }

  /** A release reset the timeout of k between two positions. */
  ghost predicate ResetSince(log: seq<Setter>, from: int, k: Key) {
    exists p :: from < p < |log| && 0 <= p && log[p] == SetTimeout(k, 0)
  }

  lemma OwnStatements(log: seq<Setter>, c: Claim, i: nat)
    requires Complete(c) && Placed(log, c) && i < |c.sel|
    ensures c.spots[3 * i] < c.spots[3 * i + 1] < c.spots[3 * i + 2] < |log|
    ensures log[c.spots[3 * i]] == SetLockup(c.sel[i], true)
    ensures log[c.spots[3 * i + 1]] == SetTimeout(c.sel[i], Deadline(c, i))
    ensures log[c.spots[3 * i + 2]] == SetLinkedId(c.sel[i], c.id)
  {
    assert Statement(c, 3 * i) == SetLockup(c.sel[i], true);
    assert Statement(c, 3 * i + 1) == SetTimeout(c.sel[i], Deadline(c, i));
    assert Statement(c, 3 * i + 2) == SetLinkedId(c.sel[i], c.id);
  }

  /** Without an unlock since the lock and without a reset since the timeout, the three writes still show. */
  lemma UndisturbedIsHeld(t: Table, log: seq<Setter>, c: Claim, i: nat)
    requires Mirrors(t, log) && Complete(c) && Placed(log, c) && i < |c.sel| && OnlyReleases(log, c, i)
    requires !Cleared(log, c.spots[3 * i], |log|, c.sel[i]) && !ResetSince(log, c.spots[3 * i + 1], c.sel[i])
    ensures Held(t, c.sel[i], c.id, Deadline(c, i))
  {
    OwnStatements(log, c, i);
    assert Latest(log, c.spots[3 * i]);
    assert Latest(log, c.spots[3 * i + 1]);
    assert Latest(log, c.spots[3 * i + 2]);
  }

  lemma DisturbedIsNotHeld(t: Table, log: seq<Setter>, c: Claim, i: nat)
    requires Mirrors(t, log) && Complete(c) && Placed(log, c) && i < |c.sel| && OnlyReleases(log, c, i)
    requires Deadline(c, i) != 0
    requires Cleared(log, c.spots[3 * i], |log|, c.sel[i]) || ResetSince(log, c.spots[3 * i + 1], c.sel[i])
    ensures !Held(t, c.sel[i], c.id, Deadline(c, i))
  {
    OwnStatements(log, c, i);
    var k := c.sel[i];
    if Cleared(log, c.spots[3 * i], |log|, k) {
      var p :| c.spots[3 * i] < p < |log| && 0 <= p && log[p] == SetLockup(k, false);
      var b := LastWrite(log, p);
      assert Shows(t, log[b]);
    } else {
      var p :| c.spots[3 * i + 1] < p < |log| && 0 <= p && log[p] == SetTimeout(k, 0);
      var b := LastWrite(log, p);
      assert Shows(t, log[b]);
    }
  }

  /** How long a lock lasts, exactly. While no other selection takes the row, it is locked for its id until its
      deadline if and only if no release cleared the lock after the selection set it, and none reset the timeout
      after the selection set that. */
  lemma LockHoldsIff(steps: seq<Step>, c: Claim, i: nat)
    requires Run(START, steps) && c in After(START, steps).services
    requires Complete(c) && i < |c.sel| && Deadline(c, i) != 0 && OnlyReleases(After(START, steps).log, c, i)
    ensures var s := After(START, steps);
            Held(s.table, c.sel[i], c.id, Deadline(c, i)) <==>
            !Cleared(s.log, c.spots[3 * i], |s.log|, c.sel[i]) && !ResetSince(s.log, c.spots[3 * i + 1], c.sel[i])
  {
    Always(steps);
    AlwaysMirrors(steps);
    var s := After(START, steps);
    if !Cleared(s.log, c.spots[3 * i], |s.log|, c.sel[i]) && !ResetSince(s.log, c.spots[3 * i + 1], c.sel[i]) {
      UndisturbedIsHeld(s.table, s.log, c, i);
    } else {
      DisturbedIsNotHeld(s.table, s.log, c, i);
    }
  }

  // ---------- The hour ----------

  /** k is held, no release in progress has a statement for it, and no selection in progress has it. */
  ghost predicate Safe(s: State, k: Key, id: Option<Hash>, deadline: int) {
    && Held(s.table, k, id, deadline)
    && (forall ss :: ss in s.releases ==> forall x :: x in ss ==> x.k != k)
    && (s.claim.Some? ==> k !in s.claim.value.sel)
  }

  lemma StepStaysSafe(s: State, st: Step, k: Key, id: Option<Hash>, deadline: int)
    requires Safe(s, k, id, deadline) && Legal(s, st)
    requires !(st.Command? && st.key == k) && (st.Expire? ==> st.now <= deadline)
    ensures Safe(Do(s, st), k, id, deadline)
  {
    var u := Do(s, st);
    match st
    case Add(_, _, _, _, _) =>
    case Begin(rows, target, _, _) =>
      if u != s {
        ChoiceIsUsable(s.table, rows, target, st.id);
        assert k !in Elements(Choice(s.table, rows, target, st.id).value);
      }
    case Mark =>
      assert s.claim.value.sel[|s.claim.value.spots| / 3] in s.claim.value.sel;
    case Abort =>
    case Expire(keys, now) =>
      ReleaseScriptOnly(keys);
      assert k !in Elements(keys);
    case Command(key) => ReleaseScriptOnly([key]);
    case Release(i) =>
      var ss := s.releases[i];
      assert ss in s.releases && ss[0] in ss;
      forall xs | xs in u.releases ensures forall x :: x in xs ==> x.k != k {
        assert xs in s.releases || xs == ss[1..];
      }
    case Drop(i) =>
      forall xs | xs in u.releases ensures forall x :: x in xs ==> x.k != k {
        assert xs in s.releases || xs == [];
      }
  }

  /** Unless released by command, a row that is held with no release in progress for it stays locked for its id
      until its deadline, whatever else runs. */
  lemma {:induction false} LockLastsAnHour(s: State, steps: seq<Step>, k: Key, id: Option<Hash>, deadline: int)
    requires Run(s, steps) && Safe(s, k, id, deadline)
    requires forall st :: st in steps ==> !(st.Command? && st.key == k) && (st.Expire? ==> st.now <= deadline)
    ensures Safe(After(s, steps), k, id, deadline)
  {
    if steps != [] {
      var before, st := steps[..|steps| - 1], steps[|steps| - 1];
      assert st in steps && forall x :: x in before ==> x in steps;
      LockLastsAnHour(s, before, k, id, deadline);
      StepStaysSafe(After(s, before), st, k, id, deadline);
    }
  }

  /** A selection that runs without interruption starts such an hour for each of its rows that no release in
      progress touches. */
  lemma ServiceStartsTheHour(s: State, rows: seq<Key>, target: int, id: Option<Hash>, clock: seq<int>, i: nat)
    requires Legal(s, Begin(rows, target, id, clock)) && Choice(s.table, rows, target, id).Some?
    requires i < |Choice(s.table, rows, target, id).value|
    requires forall ss :: ss in s.releases ==> forall x :: x in ss ==> x.k != Choice(s.table, rows, target, id).value[i]
    ensures var sel := Choice(s.table, rows, target, id).value;
            var steps := [Begin(rows, target, id, clock)] + Marks(3 * |sel|);
            && i < |clock| && Run(s, steps) && Safe(After(s, steps), sel[i], id, clock[i] + TIMEOUT_DELAY)
  {
    var sel := Choice(s.table, rows, target, id).value;
    ChoiceIsUsable(s.table, rows, target, id);
    ChoiceIsSteps(s, rows, target, id, clock, 3 * |sel|);
    forall k | k in sel ensures k in s.table { assert k in Elements(sel); }
    LockExactly(s.table, sel, id, clock[..|sel|]);
  }

  // ---------- Overlaps ----------

  /** The reset of a release between the statements of a one-row selection matters from its second statement on. */
  lemma ResetAmongMarks(t: Table, k: Key, id: Option<Hash>, now: int, j: nat)
    requires k in t && j <= 3 && now + TIMEOUT_DELAY != 0
    ensures var ss := LockScript([k], id, [now]);
            Held(ApplyAll(Apply(ApplyAll(t, ss[..j]), SetTimeout(k, 0)), ss[j..]), k, id, now + TIMEOUT_DELAY) <==> j <= 1
  {
    var s0, s1, s2 := SetLockup(k, true), SetTimeout(k, now + TIMEOUT_DELAY), SetLinkedId(k, id);
    var ss, reset := LockScript([k], id, [now]), SetTimeout(k, 0);
    assert ss == [s0, s1, s2];
    Unfold3(t, s0, s1, s2);
    if j == 0 {
      assert ss[..0] == [] && ss[0..] == ss;
      Unfold3(Apply(t, reset), s0, s1, s2);
    } else if j == 1 {
      assert ss[..1] == [s0] && ss[1..] == [s1, s2];
      Unfold2(Apply(Apply(t, s0), reset), s1, s2);
    } else if j == 2 {
      assert ss[..2] == [s0, s1] && ss[2..] == [s2];
      Unfold2(Apply(Apply(Apply(t, s0), s1), reset), s2, s2);
    } else {
      assert ss[..3] == ss && ss[3..] == [];
    }
  }

  lemma Unfold2(t: Table, x: Setter, y: Setter)
    ensures ApplyAll(t, [x]) == Apply(t, x) && ApplyAll(t, [y]) == Apply(t, y)
    ensures ApplyAll(t, [x, y]) == Apply(Apply(t, x), y)
  {
    assert [x][..0] == [] && [y][..0] == [] && [x, y][..1] == [x];
  }

  lemma Unfold3(t: Table, x: Setter, y: Setter, z: Setter)
    ensures ApplyAll(t, [x]) == Apply(t, x) && ApplyAll(t, [z]) == Apply(t, z)
    ensures ApplyAll(t, [x, y]) == Apply(Apply(t, x), y)
    ensures ApplyAll(t, [x, y, z]) == Apply(Apply(Apply(t, x), y), z)
  {
    Unfold2(t, x, y);
    Unfold2(t, z, z);
    assert [x, y, z][..2] == [x, y];
  }

  /** A release takes no mutex: it clears the lock, the selection of the row and its first j statements follow,
      then the release resets the timeout, then the selection finishes. */
  function Overlap(i: nat, begin: Step, j: nat): seq<Step>
    requires j <= 3
  {
    [Release(i)] + [begin] + (Marks(j) + [Release(i)] + Marks(3 - j))
  }

  /** A release and a selection of the released row begin. */
  lemma OverlapStarts(s: State, i: nat, k: Key, target: int, id: Hash, now: int) returns (v: State)
    requires i < |s.releases| && s.releases[i] == ReleaseScript([k])
    requires var u := Do(s, Release(i)); var begin := Begin([k], target, Some(id), [now]);
             Legal(u, begin) && Choice(u.table, [k], target, Some(id)) == Some([k])
    ensures var steps := [Release(i)] + [Begin([k], target, Some(id), [now])]; Run(s, steps) && After(s, steps) == v
    ensures v.table == Do(s, Release(i)).table && v.services == s.services
    ensures i < |v.releases| && v.releases[i] == [SetTimeout(k, 0)]
    ensures v.claim == Some(Claim(Some(id), target, [k], [now], |v.log|, []))
  {
    var u := Do(s, Release(i));
    assert s.releases[i] == [SetLockup(k, false), SetTimeout(k, 0)];
    v := Do(u, Begin([k], target, Some(id), [now]));
    assert [now][..1] == [now];
    RunOne(s, Release(i), u);
    RunNext(s, [Release(i)], Begin([k], target, Some(id), [now]), u, v);
  }

  /** n statements of the selection in progress that do not finish it, then one of release i. */
  lemma Interrupt(v: State, i: nat, n: nat) returns (x: State)
    requires CanMark(v, n + 1) && i < |v.releases| && v.releases[i] != []
    ensures Run(v, Marks(n) + [Release(i)]) && After(v, Marks(n) + [Release(i)]) == x
    ensures x.table == Apply(ApplyAll(v.table, Ahead(v, n)), v.releases[i][0])
    ensures x.claim == Some(ClaimAfter(v, n)) && x.services == v.services
  {
    MarksRun(v, n);
    x := Do(Advanced(v, n), Release(i));
    RunNext(v, Marks(n), Release(i), Advanced(v, n), x);
  }

  /** The statements that finish the selection in progress, all n of them. */
  lemma Finish(x: State, n: nat) returns (y: State)
    requires CanMark(x, n) && |x.claim.value.spots| + n == 3 * |x.claim.value.sel|
    ensures Run(x, Marks(n)) && After(x, Marks(n)) == y
    ensures y.table == ApplyAll(x.table, Ahead(x, n)) && y.releases == x.releases && y.claim == None
    ensures y.services == x.services + [ClaimAfter(x, n)]
  {
    MarksRun(x, n);
    y := Advanced(x, n);
  }

  lemma AheadSplits(v: State, x: State, j: nat, n: nat)
    requires CanMark(v, n) && j < n && x.claim == Some(ClaimAfter(v, j))
    ensures Ahead(v, j) == Ahead(v, n)[..j]
    ensures CanMark(x, n - j) && Ahead(x, n - j) == Ahead(v, n)[j..]
  {
  }

  /** One statement of release i falls after j of the n statements that the selection in progress has left. */
  lemma FinishAround(v: State, i: nat, j: nat, n: nat) returns (y: State)
    requires CanMark(v, n) && |v.claim.value.spots| + n == 3 * |v.claim.value.sel| && j < n
    requires i < |v.releases| && v.releases[i] != []
    ensures Run(v, Marks(j) + [Release(i)] + Marks(n - j)) && After(v, Marks(j) + [Release(i)] + Marks(n - j)) == y
    ensures y.table == ApplyAll(Apply(ApplyAll(v.table, Ahead(v, n)[..j]), v.releases[i][0]), Ahead(v, n)[j..])
    ensures |y.services| == |v.services| + 1
  {
    var x := Interrupt(v, i, j);
    AheadSplits(v, x, j, n);
    y := Finish(x, n - j);
    RunConcat(v, Marks(j) + [Release(i)], Marks(n - j));
  }

  /** The statement of release i falls after the selection has finished. */
  lemma FinishBefore(v: State, i: nat, n: nat) returns (y: State)
    requires CanMark(v, n) && |v.claim.value.spots| + n == 3 * |v.claim.value.sel|
    requires i < |v.releases| && v.releases[i] != []
    ensures Run(v, Marks(n) + [Release(i)]) && After(v, Marks(n) + [Release(i)]) == y
    ensures y.table == Apply(ApplyAll(v.table, Ahead(v, n)), v.releases[i][0])
    ensures |y.services| == |v.services| + 1
  {
    var x := Finish(v, n);
    y := Do(x, Release(i));
    RunNext(v, Marks(n), Release(i), x, y);
  }

  lemma OverlapEnds(v: State, i: nat, j: nat) returns (y: State)
    requires CanMark(v, 3) && |v.claim.value.spots| + 3 == 3 * |v.claim.value.sel| && j <= 3
    requires i < |v.releases| && v.releases[i] != []
    ensures Run(v, Marks(j) + [Release(i)] + Marks(3 - j)) && After(v, Marks(j) + [Release(i)] + Marks(3 - j)) == y
    ensures y.table == ApplyAll(Apply(ApplyAll(v.table, Ahead(v, 3)[..j]), v.releases[i][0]), Ahead(v, 3)[j..])
    ensures |y.services| == |v.services| + 1
  {
    if j < 3 {
      y := FinishAround(v, i, j, 3);
    } else {
      y := FinishBefore(v, i, 3);
      assert Marks(3) + [Release(i)] + Marks(0) == Marks(3) + [Release(i)];
      assert Ahead(v, 3)[..3] == Ahead(v, 3) && Ahead(v, 3)[3..] == [];
    }
  }

  /** The selection is served either way. Its row is locked until the deadline if and only if at most one of the
      selection's statements was executed before the reset. Otherwise the row is locked with timeout 0, and the next
      expiry may free it. */
  lemma OverlapBreaksTheHourIff(s: State, i: nat, k: Key, target: int, id: Hash, now: int, j: nat)
    requires i < |s.releases| && s.releases[i] == ReleaseScript([k]) && k in s.table && j <= 3
    requires now + TIMEOUT_DELAY != 0
    requires var u := Do(s, Release(i)); var begin := Begin([k], target, Some(id), [now]);
             Legal(u, begin) && Choice(u.table, [k], target, Some(id)) == Some([k])
    ensures var steps := Overlap(i, Begin([k], target, Some(id), [now]), j);
            && Run(s, steps)
            && |After(s, steps).services| == |s.services| + 1
            && (Held(After(s, steps).table, k, Some(id), now + TIMEOUT_DELAY) <==> j <= 1)
  {
    var begin := Begin([k], target, Some(id), [now]);
    var v := OverlapStarts(s, i, k, target, id, now);
    var y := OverlapEnds(v, i, j);
    RunThrough(s, [Release(i)] + [begin], v, Marks(j) + [Release(i)] + Marks(3 - j), y, Overlap(i, begin, j));
    assert Ahead(v, 3) == LockScript([k], Some(id), [now]);
    ResetAmongMarks(v.table, k, Some(id), now, j);
  }

  // ---------- A release is enough ----------

  lemma OneRowChosen(t: Table, k: Key, target: int, id: Hash)
    requires t.Keys == {k} && k in Usable(t) && t[k].linkedId != Some(id) && 0 < target <= t[k].amount
    ensures Descending(t, [k]) && Choice(t, [k], target, Some(id)) == Some([k])
  {
    var a := Amounts(t);
    assert [k][..1] == [k] && [k][1..] == [];
    assert SeqTotal(a, [k]) == a[k] + SeqTotal(a, []);
    assert RowsRead(a, [k], target) == 1;
  }

  function ChooseOne(k: Key, target: int, id: Hash): seq<Step> {
    [Begin([k], target, Some(id), [0])] + Marks(3)
  }

  /** Choosing the only row of a vault. */
  lemma OneRowServed(s: State, k: Key, target: int, id: Hash)
    requires s.claim.None? && s.table.Keys == {k} && k in Usable(s.table)
    requires s.table[k].linkedId != Some(id) && 0 < target <= s.table[k].amount
    ensures Run(s, ChooseOne(k, target, id))
    ensures var u := After(s, ChooseOne(k, target, id));
            && u.claim.None? && u.releases == s.releases && |u.services| == |s.services| + 1
            && u.services[..|s.services|] == s.services
            && u.services[|s.services|].id == Some(id) && u.services[|s.services|].sel == [k]
            && u.table == s.table[k := Marking(s.table[k], Some(id), 0)]
  {
    OneRowChosen(s.table, k, target, id);
    ChoiceIsSteps(s, [k], target, Some(id), [0], 3);
    LockExactly(s.table, [k], Some(id), [0]);
    assert [0][..1] == [0];
  }

  lemma ReleaseBothRun(u: State, k: Key)
    requires u.releases == [ReleaseScript([k])] && k in u.table
    ensures Run(u, Releases(0, 2))
    ensures var w := After(u, Releases(0, 2));
            && w.table == u.table[k := u.table[k].(lockup := false, timeout := 0)]
            && w.claim == u.claim && w.services == u.services
  {
    var first, second := SetLockup(k, false), SetTimeout(k, 0);
    assert ReleaseScript([k]) == [first, second];
    ReleaseIsSteps(u, 0, 2);
    Unfold2(u.table, first, second);
    assert [first, second][..2] == [first, second];
  }

  lemma OneRowFreed(s: State, k: Key)
    requires s.claim.None? && s.releases == [] && s.table.Keys == {k}
    ensures var steps := [Command(k)] + Releases(0, 2);
            && Run(s, steps)
            && After(s, steps).table == s.table[k := s.table[k].(lockup := false, timeout := 0)]
            && After(s, steps).claim.None? && After(s, steps).services == s.services
  {
    var u := s.(releases := [ReleaseScript([k])]);
    RunOne(s, Command(k), u);
    ReleaseBothRun(u, k);
    RunConcat(s, [Command(k)], Releases(0, 2));
  }

  /** One release is enough for the same UTXO to be handed out again, so `Exclusive` asks for no more than needed. */
  lemma ReleaseAllowsReuse(k: Key, amount: nat, target: int, a: Hash, b: Hash)
    requires 0 < target <= amount && a != b
    ensures var steps := [Add(k, 0, 0, amount, [])] + ChooseOne(k, target, a) + ([Command(k)] + Releases(0, 2)) + ChooseOne(k, target, b);
            && Run(START, steps)
            && |After(START, steps).services| == 2
            && After(START, steps).services[0].id == Some(a) && After(START, steps).services[0].sel == [k]
            && After(START, steps).services[1].id == Some(b) && After(START, steps).services[1].sel == [k]
  {
    var add := [Add(k, 0, 0, amount, [])];
    RunSnoc(START, [], add[0]);
    assert [] + add == add;
    var s := After(START, add);
    OneRowServed(s, k, target, a);
    RunConcat(START, add, ChooseOne(k, target, a));
    var t := After(s, ChooseOne(k, target, a));
    OneRowFreed(t, k);
    RunConcat(START, add + ChooseOne(k, target, a), [Command(k)] + Releases(0, 2));
    var u := After(t, [Command(k)] + Releases(0, 2));
    OneRowServed(u, k, target, b);
    RunConcat(START, add + ChooseOne(k, target, a) + ([Command(k)] + Releases(0, 2)), ChooseOne(k, target, b));
    var v := After(u, ChooseOne(k, target, b));
    assert v.services[..1] == u.services && v.services[0] == u.services[0];
  }
}

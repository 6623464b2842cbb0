/** The loops of the vault as runs of single statements, and what they do when nothing comes between. */
module VaultScripts {
  import opened Common
  import opened Vault
  import opened VaultRuns

  // ---------- Scripts ----------

  lemma {:induction false} ApplyAllConcat(t: Table, ss: seq<Setter>, xs: seq<Setter>)
    ensures ApplyAll(t, ss + xs) == ApplyAll(ApplyAll(t, ss), xs)
  {
    if xs == [] {
      assert ss + xs == ss;
    } else {
      var last := |xs| - 1;
      assert (ss + xs)[..|ss + xs| - 1] == ss + xs[..last];
      ApplyAllConcat(t, ss, xs[..last]);
    }
  }

  lemma {:induction false} ScriptKeeps(t: Table, ss: seq<Setter>)
    ensures ApplyAll(t, ss).Keys == t.Keys && Amounts(ApplyAll(t, ss)) == Amounts(t)
    ensures forall k :: k in t ==> ApplyAll(t, ss)[k].spent == t[k].spent
  {
    if ss != [] {
      ScriptKeeps(t, ss[..|ss| - 1]);
      ApplyKeeps(ApplyAll(t, ss[..|ss| - 1]), ss[|ss| - 1]);
    }
  }

  lemma {:induction false} ScriptElsewhere(t: Table, ss: seq<Setter>, k: Key)
    requires k in t && forall s :: s in ss ==> s.k != k
    ensures k in ApplyAll(t, ss) && ApplyAll(t, ss)[k] == t[k]
  {
    if ss != [] {
      ScriptElsewhere(t, ss[..|ss| - 1], k);
      assert ss[|ss| - 1] in ss;
    }
  }

  lemma {:induction false} LockScriptKeys(sel: seq<Key>, id: Option<Hash>, clock: seq<int>)
    requires |clock| == |sel|
    ensures forall s :: s in LockScript(sel, id, clock) ==> s.k in sel
  {
    if sel != [] {
      LockScriptKeys(sel[..|sel| - 1], id, clock[..|sel| - 1]);
    }
  }

  function Marking(u: Utxo, id: Option<Hash>, now: int): Utxo {
    u.(lockup := true, timeout := now + TIMEOUT_DELAY, linkedId := id)
  }

  lemma MarkOne(t: Table, k: Key, id: Option<Hash>, now: int)
    requires k in t
    ensures ApplyAll(t, [SetLockup(k, true), SetTimeout(k, now + TIMEOUT_DELAY), SetLinkedId(k, id)])
            == t[k := Marking(t[k], id, now)]
  {
    var s0, s1, s2 := SetLockup(k, true), SetTimeout(k, now + TIMEOUT_DELAY), SetLinkedId(k, id);
    assert [s0, s1, s2][..2] == [s0, s1] && [s0, s1][..1] == [s0] && [s0][..0] == [];
    assert ApplyAll(t, [s0]) == Apply(t, s0);
    assert ApplyAll(t, [s0, s1]) == Apply(ApplyAll(t, [s0]), s1);
  }

  lemma LockScriptSnoc(t: Table, sel: seq<Key>, id: Option<Hash>, clock: seq<int>)
    requires |clock| == |sel| && sel != []
    requires sel[|sel| - 1] in ApplyAll(t, LockScript(sel[..|sel| - 1], id, clock[..|sel| - 1]))
    ensures var last := |sel| - 1; var k := sel[last];
            var u := ApplyAll(t, LockScript(sel[..last], id, clock[..last]));
            ApplyAll(t, LockScript(sel, id, clock)) == u[k := Marking(u[k], id, clock[last])]
  {
    var last := |sel| - 1;
    var k, ss := sel[last], LockScript(sel[..last], id, clock[..last]);
    MarkOne(ApplyAll(t, ss), k, id, clock[last]);
    ApplyAllConcat(t, ss, [SetLockup(k, true), SetTimeout(k, clock[last] + TIMEOUT_DELAY), SetLinkedId(k, id)]);
  }

  /** A completed locking loop marks exactly the selected rows. */
  lemma {:induction false} LockExactly(t: Table, sel: seq<Key>, id: Option<Hash>, clock: seq<int>)
    requires |clock| == |sel| && Distinct(sel) && forall k :: k in sel ==> k in t
    ensures var r := ApplyAll(t, LockScript(sel, id, clock));
            && r.Keys == t.Keys
            && (forall i :: 0 <= i < |sel| ==> r[sel[i]] == Marking(t[sel[i]], id, clock[i]))
            && forall k :: k in t && k !in sel ==> r[k] == t[k]
  {
    if sel != [] {
      var last := |sel| - 1;
      var u, r := ApplyAll(t, LockScript(sel[..last], id, clock[..last])), ApplyAll(t, LockScript(sel, id, clock));
      LockExactly(t, sel[..last], id, clock[..last]);
      LockScriptSnoc(t, sel, id, clock);
      forall i | 0 <= i < last ensures r[sel[i]] == Marking(t[sel[i]], id, clock[i]) {
        assert sel[..last][i] == sel[i] && clock[..last][i] == clock[i] && r[sel[i]] == u[sel[i]];
      }
      assert sel[last] !in sel[..last];
    }
  }

  /** Marking free rows takes them from the free set to the locked set. */
  lemma LockShifts(t: Table, r: Table, sel: seq<Key>)
    requires r.Keys == t.Keys && Elements(sel) <= Usable(t) && Amounts(r) == Amounts(t)
    requires forall k :: k in sel ==> k in t && r[k].lockup
    requires forall k :: k in t && k !in sel ==> r[k] == t[k]
    ensures Usable(t) == Usable(r) + Elements(sel) && Usable(r) !! Elements(sel)
    ensures Locked(r) == Locked(t) + Elements(sel) && Locked(t) !! Elements(sel)
  {
  }

  /** A choice that completes without interruption moves exactly the returned sum from free to locked. */
  lemma ServiceMovesItsSum(t: Table, rows: seq<Key>, target: int, id: Option<Hash>, clock: seq<int>)
    requires Descending(t, rows) && |clock| == |rows| && Choice(t, rows, target, id).Some?
    ensures var sel := Choice(t, rows, target, id).value; var r := Marked(t, sel, id, clock, 3 * |sel|);
            && (forall k :: k in sel ==> k in t)
            && var sum := SeqTotal(Amounts(t), sel);
            && sum >= target
            && SumMoney(r) == SumMoney(t) - sum
            && LockedMoney(r) == LockedMoney(t) + sum
  {
    ChoiceIsUsable(t, rows, target, id);
    var sel := Choice(t, rows, target, id).value;
    var r := Marked(t, sel, id, clock, 3 * |sel|);
    forall k | k in sel ensures k in t { assert k in Elements(sel); }
    LockExactly(t, sel, id, clock[..|sel|]);
    ScriptKeeps(t, LockScript(sel, id, clock[..|sel|]));
    LockShifts(t, r, sel);
    SeqTotalIsTotal(Amounts(t), sel);
    TotalUnion(Amounts(t), Usable(r), Elements(sel));
    TotalUnion(Amounts(t), Locked(t), Elements(sel));
  }

  // ---------- Loops as runs ----------

  lemma RunNext(s: State, steps: seq<Step>, st: Step, t: State, u: State)
    requires Run(s, steps) && After(s, steps) == t && Legal(t, st) && Do(t, st) == u
    ensures Run(s, steps + [st]) && After(s, steps + [st]) == u
  {
    RunSnoc(s, steps, st);
  }

  lemma RunThrough(s: State, xs: seq<Step>, t: State, ys: seq<Step>, u: State, zs: seq<Step>)
    requires Run(s, xs) && After(s, xs) == t && Run(t, ys) && After(t, ys) == u && zs == xs + ys
    ensures Run(s, zs) && After(s, zs) == u
  {
    RunConcat(s, xs, ys);
  }

  lemma RunOne(s: State, st: Step, t: State)
    requires Legal(s, st) && Do(s, st) == t
    ensures Run(s, [st]) && After(s, [st]) == t
  {
    RunSnoc(s, [], st);
    assert [] + [st] == [st];
  }

  function Marks(n: nat): seq<Step> {
    if n == 0 then [] else Marks(n - 1) + [Mark]
  }

  function Releases(i: nat, n: nat): seq<Step> {
    if n == 0 then [] else Releases(i, n - 1) + [Release(i)]
  }

  predicate InProgress(c: Claim) {
    Sized(c) && |c.spots| < 3 * |c.sel|
  }

  function Script(c: Claim): (ss: seq<Setter>)
    requires Sized(c)
    ensures |ss| == 3 * |c.sel|
  {
    LockScript(c.sel, c.id, c.clock)
  }

  lemma StatementIsScript(c: Claim, n: nat)
    requires Sized(c) && n < 3 * |c.sel|
    ensures Statement(c, n) == Script(c)[n]
  {
    LockScriptAt(c.sel, c.id, c.clock, n / 3);
  }

  function Positions(from: nat, n: nat): (ps: seq<nat>)
    ensures |ps| == n && forall i :: 0 <= i < n ==> ps[i] == from + i
  {
    seq(n, i requires 0 <= i < n => from + i)
  }

  predicate CanMark(s: State, n: nat) {
    s.claim.Some? && InProgress(s.claim.value) && |s.claim.value.spots| + n <= 3 * |s.claim.value.sel|
  }

  /** The next n statements of the selection in progress. */
  function Ahead(s: State, n: nat): seq<Setter>
    requires CanMark(s, n)
  {
    Script(s.claim.value)[|s.claim.value.spots|..|s.claim.value.spots| + n]
  }

  function ClaimAfter(s: State, n: nat): Claim
    requires CanMark(s, n)
  {
    s.claim.value.(spots := s.claim.value.spots + Positions(|s.log|, n))
  }

  /** The state after n more statements of the selection in progress. */
  function Advanced(s: State, n: nat): State
    requires CanMark(s, n)
  {
    Settle(s.(table := ApplyAll(s.table, Ahead(s, n)), log := s.log + Ahead(s, n)), ClaimAfter(s, n))
  }

  lemma AheadSnoc(s: State, n: nat)
    requires CanMark(s, n + 1)
    ensures Ahead(s, n + 1) == Ahead(s, n) + [Statement(ClaimAfter(s, n), |s.claim.value.spots| + n)]
    ensures ClaimAfter(s, n + 1) == ClaimAfter(s, n).(spots := ClaimAfter(s, n).spots + [|s.log| + n])
  {
    var c := s.claim.value;
    StatementIsScript(c, |c.spots| + n);
    assert Positions(|s.log|, n + 1) == Positions(|s.log|, n) + [|s.log| + n];
    assert ClaimAfter(s, n + 1).spots == ClaimAfter(s, n).spots + [|s.log| + n];
  }

  lemma AdvanceOne(s: State, n: nat)
    requires CanMark(s, n + 1)
    ensures Legal(Advanced(s, n), Mark) && Do(Advanced(s, n), Mark) == Advanced(s, n + 1)
  {
    AheadSnoc(s, n);
    var c, ss := ClaimAfter(s, n), Ahead(s, n);
    var x := Statement(c, |c.spots|);
    ApplyAllSnoc(s.table, ss, x);
    assert Advanced(s, n).claim == Some(c) && |s.log + ss| == |s.log| + n;
    assert s.log + ss + [x] == s.log + Ahead(s, n + 1);
  }

  lemma {:induction false} MarksRun(s: State, n: nat)
    requires CanMark(s, n)
    ensures Run(s, Marks(n)) && After(s, Marks(n)) == Advanced(s, n)
  {
    if n == 0 {
      assert ClaimAfter(s, 0) == s.claim.value && Ahead(s, 0) == [] && s.log + [] == s.log;
    } else {
      MarksRun(s, n - 1);
      AdvanceOne(s, n - 1);
      RunNext(s, Marks(n - 1), Mark, Advanced(s, n - 1), Advanced(s, n));
    }
  }

  /** The selection that ChooseAndLock has made after `writes` successful UPDATE statements. */
  function Made(s: State, sel: seq<Key>, target: int, id: Option<Hash>, clock: seq<int>, writes: nat): Claim
    requires |clock| >= |sel|
  {
    Claim(id, target, sel, clock[..|sel|], |s.log|, Positions(|s.log|, if writes < 3 * |sel| then writes else 3 * |sel|))
  }

  /** ChooseAndLock is a run: the choice, then as many statements as succeed. */
  lemma ChoiceIsSteps(s: State, rows: seq<Key>, target: int, id: Option<Hash>, clock: seq<int>, writes: nat)
    requires Legal(s, Begin(rows, target, id, clock)) && Choice(s.table, rows, target, id).Some?
    requires Choice(s.table, rows, target, id).value != []
    ensures var sel := Choice(s.table, rows, target, id).value;
            && |sel| <= |rows|
            && var c := Made(s, sel, target, id, clock, writes);
            var steps := [Begin(rows, target, id, clock)] + Marks(|c.spots|);
            && Run(s, steps)
            && After(s, steps)
               == Settle(s.(table := Marked(s.table, sel, id, clock, writes), log := s.log + Script(c)[..|c.spots|]), c)
  {
    ChoiceIsUsable(s.table, rows, target, id);
    var sel := Choice(s.table, rows, target, id).value;
    var c := Made(s, sel, target, id, clock, writes);
    var st, d := Begin(rows, target, id, clock), c.(spots := []);
    RunOne(s, st, s.(claim := Some(d)));
    MarksRun(s.(claim := Some(d)), |c.spots|);
    RunConcat(s, [st], Marks(|c.spots|));
    AdvancedFromStart(s, d, |c.spots|);
    assert Marked(s.table, sel, id, clock, writes) == Marked(s.table, sel, id, d.clock, |c.spots|) by {
      assert d.clock[..|sel|] == clock[..|sel|];
    }
  }

  lemma AdvancedFromStart(s: State, c: Claim, n: nat)
    requires Sized(c) && c.spots == [] && c.sel != [] && n <= 3 * |c.sel|
    ensures Advanced(s.(claim := Some(c)), n)
            == Settle(s.(table := Marked(s.table, c.sel, c.id, c.clock, n), log := s.log + Script(c)[..n]),
                      c.(spots := Positions(|s.log|, n)))
  {
    var t, ss := s.(claim := Some(c)), LockScript(c.sel, c.id, c.clock);
    assert Ahead(t, n) == ss[..n] && ss[..|ss|] == ss && c.clock[..|c.sel|] == c.clock;
    assert [] + Positions(|s.log|, n) == Positions(|s.log|, n);
  }

  lemma {:induction false} RunConcat(s: State, xs: seq<Step>, ys: seq<Step>)
    requires Run(s, xs) && Run(After(s, xs), ys)
    ensures Run(s, xs + ys) && After(s, xs + ys) == After(After(s, xs), ys)
  {
    if ys == [] {
      assert xs + ys == xs;
    } else {
      var last := |ys| - 1;
      RunConcat(s, xs, ys[..last]);
      RunSnoc(s, xs + ys[..last], ys[last]);
      assert xs + ys == xs + ys[..last] + [ys[last]];
    }
  }

  /** The state after n statements of release i, of those it still has. */
  function Released(s: State, i: nat, n: nat): State
    requires i < |s.releases| && n <= |s.releases[i]|
  {
    var ss := s.releases[i];
    s.(table := ApplyAll(s.table, ss[..n]), log := s.log + ss[..n], releases := s.releases[i := ss[n..]])
  }

  lemma ReleaseNone(s: State, i: nat)
    requires i < |s.releases|
    ensures Released(s, i, 0) == s
  {
    var ss := s.releases[i];
    assert s.log + [] == s.log && s.releases[i := ss] == s.releases && ss[0..] == ss;
  }

  lemma ReleaseOne(s: State, i: nat, n: nat)
    requires i < |s.releases| && n < |s.releases[i]|
    ensures Legal(Released(s, i, n), Release(i)) && Do(Released(s, i, n), Release(i)) == Released(s, i, n + 1)
  {
    var ss := s.releases[i];
    assert ss[..n + 1] == ss[..n] + [ss[n]] && ss[n..][0] == ss[n] && ss[n..][1..] == ss[n + 1..];
    ApplyAllSnoc(s.table, ss[..n], ss[n]);
    assert s.log + ss[..n] + [ss[n]] == s.log + ss[..n + 1];
  }

  /** A release is a run: the query, then as many statements as succeed. */
  lemma {:induction false} ReleaseIsSteps(s: State, i: nat, n: nat)
    requires i < |s.releases| && n <= |s.releases[i]|
    ensures Run(s, Releases(i, n)) && After(s, Releases(i, n)) == Released(s, i, n)
  {
    if n == 0 {
      ReleaseNone(s, i);
    } else {
      ReleaseIsSteps(s, i, n - 1);
      ReleaseOne(s, i, n - 1);
      RunNext(s, Releases(i, n - 1), Release(i), Released(s, i, n - 1), Released(s, i, n));
    }
  }
}

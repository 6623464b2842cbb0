/** The UTXO vault: table, setters, greedy selection, lock and release. */
module Vault {
  import opened Common

  const TIMEOUT_DELAY: int := 3600
  const SAFE_MARGIN: int := 10_000

  /** One row. `linkedId` is None for the empty string that a new row carries. */
  datatype Utxo = Utxo(
    blockNumber: int,
    blockHash: Hash,
    amount: nat,
    pkScript: seq<byte>,
    lockup: bool,
    spent: bool,
    timeout: int,
    linkedId: Option<Hash>)

  type Table = map<Key, Utxo>

  // ---------- Queries ----------

  function Usable(t: Table): set<Key> {
    set k | k in t && !t[k].lockup && !t[k].spent
  }

  function Locked(t: Table): set<Key> {
    set k | k in t && t[k].lockup
  }

  function LinkedTo(t: Table, id: Option<Hash>): set<Key> {
    set k | k in t && t[k].linkedId == id
  }

  function Expired(t: Table, now: int): set<Key> {
    set k | k in t && t[k].lockup && t[k].timeout < now
  }

  function Amounts(t: Table): (a: map<Key, nat>) {
    map k | k in t :: t[k].amount
  }

  /** A result set in some order: every key of `s` once. */
  ghost predicate Lists(ks: seq<Key>, s: set<Key>) {
    Distinct(ks) && Elements(ks) == s
  }

  /** What `SELECT ... WHERE lockup = 0 AND spent = 0 ORDER BY amount DESC` may return;
      the order among equal amounts is the database's choice. */
  ghost predicate Descending(t: Table, ks: seq<Key>) {
    && Lists(ks, Usable(t))
    && (forall k :: k in ks ==> k in t)
    && forall i, j :: 0 <= i < j < |ks| ==> t[ks[i]].amount >= t[ks[j]].amount
  }

  // ---------- Money ----------

  /** The sum of `a` over `s`. */
  ghost function Total(a: map<Key, nat>, s: set<Key>): nat
    requires s <= a.Keys
  {
    if s == {} then 0 else
      var k :| k in s;
      a[k] + Total(a, s - {k})
  }

  function SeqTotal(a: map<Key, nat>, ks: seq<Key>): nat
    requires forall k :: k in ks ==> k in a
  {
    if ks == [] then 0 else a[ks[0]] + SeqTotal(a, ks[1..])
  }

  /** `SELECT COALESCE(SUM(amount), 0) ... WHERE lockup = 0 AND spent = 0` */
  ghost function SumMoney(t: Table): nat {
    Total(Amounts(t), Usable(t))
  }

  ghost function LockedMoney(t: Table): nat {
    Total(Amounts(t), Locked(t))
  }

  lemma {:induction false} TotalPick(a: map<Key, nat>, s: set<Key>, k: Key)
    requires s <= a.Keys && k in s
    ensures Total(a, s) == a[k] + Total(a, s - {k})
    decreases s
  {
    var p :| p in s && Total(a, s) == a[p] + Total(a, s - {p});
    if p != k {
      TotalPick(a, s - {p}, k);
      TotalPick(a, s - {k}, p);
      assert s - {p} - {k} == s - {k} - {p};
    }
  }

  lemma {:induction false} TotalUnion(a: map<Key, nat>, s: set<Key>, r: set<Key>)
    requires s <= a.Keys && r <= a.Keys && s !! r
    ensures Total(a, s + r) == Total(a, s) + Total(a, r)
    decreases s
  {
    if s == {} {
      assert s + r == r;
    } else {
      var k :| k in s;
      TotalPick(a, s, k);
      TotalPick(a, s + r, k);
      assert s + r - {k} == (s - {k}) + r;
      TotalUnion(a, s - {k}, r);
    }
  }

  lemma {:induction false} TotalAgree(a: map<Key, nat>, b: map<Key, nat>, s: set<Key>)
    requires s <= a.Keys && s <= b.Keys
    requires forall k :: k in s ==> a[k] == b[k]
    ensures Total(a, s) == Total(b, s)
    decreases s
  {
    if s != {} {
      var k :| k in s;
      TotalPick(a, s, k);
      TotalPick(b, s, k);
      TotalAgree(a, b, s - {k});
    }
  }

  lemma {:induction false} SeqTotalIsTotal(a: map<Key, nat>, ks: seq<Key>)
    requires Distinct(ks) && forall k :: k in ks ==> k in a
    ensures SeqTotal(a, ks) == Total(a, Elements(ks))
  {
    if ks != [] {
      var rest := ks[1..];
      assert Distinct(rest);
      forall k | k in rest ensures k in a { }
      SeqTotalIsTotal(a, rest);
      TotalPick(a, Elements(ks), ks[0]);
      assert ks[0] !in rest;
      assert Elements(ks) - {ks[0]} == Elements(rest);
    }
  }

  lemma {:induction false} SeqTotalSplit(a: map<Key, nat>, ks: seq<Key>, n: nat)
    requires n <= |ks| && forall k :: k in ks ==> k in a
    ensures SeqTotal(a, ks) == SeqTotal(a, ks[..n]) + SeqTotal(a, ks[n..])
  {
    if n == 0 {
      assert ks[n..] == ks;
    } else {
      assert ks[..n][1..] == ks[1..][..n - 1];
      assert ks[n..] == ks[1..][n - 1..];
      SeqTotalSplit(a, ks[1..], n - 1);
    }
  }

  lemma SeqTotalSnoc(a: map<Key, nat>, ks: seq<Key>, i: nat)
    requires i < |ks| && forall k :: k in ks ==> k in a
    ensures SeqTotal(a, ks[..i + 1]) == SeqTotal(a, ks[..i]) + a[ks[i]]
  {
    var front := ks[..i + 1];
    SeqTotalSplit(a, front, i);
    assert front[..i] == ks[..i] && front[i..] == [ks[i]];
  }

  // ---------- Greedy selection ----------

  /** How many rows the selection loop reads: up to and including the first at which the running total
      reaches the target, or all of them. At least one row is read when there is one. */
  function RowsRead(a: map<Key, nat>, ks: seq<Key>, target: int): (n: nat)
    requires forall k :: k in ks ==> k in a
    ensures n <= |ks|
  {
    if ks == [] then 0
    else if a[ks[0]] >= target then 1
    else 1 + RowsRead(a, ks[1..], target - a[ks[0]])
  }

  function Enough(a: map<Key, nat>, ks: seq<Key>, target: int): Option<seq<Key>>
    requires forall k :: k in ks ==> k in a
  {
    var sel := ks[..RowsRead(a, ks, target)];
    if SeqTotal(a, sel) < target then None else Some(sel)
  }

  lemma RowsReadAt(a: map<Key, nat>, ks: seq<Key>, i: nat, target: int)
    requires i < |ks| && forall k :: k in ks ==> k in a
    ensures RowsRead(a, ks[i..], target)
            == if a[ks[i]] >= target then 1 else 1 + RowsRead(a, ks[i + 1..], target - a[ks[i]])
  {
  }

  /** Reading stops at the first covering prefix. */
  lemma {:induction false} RowsReadIsFirst(a: map<Key, nat>, ks: seq<Key>, target: int)
    requires forall k :: k in ks ==> k in a
    ensures var n := RowsRead(a, ks, target);
            && (SeqTotal(a, ks[..n]) < target ==> n == |ks|)
            && (ks != [] ==> n > 0)
            && forall m: nat {:trigger ks[..m]} :: 0 < m < n ==> SeqTotal(a, ks[..m]) < target
  {
    if ks != [] && a[ks[0]] < target {
      var rest, less := ks[1..], target - a[ks[0]];
      RowsReadIsFirst(a, rest, less);
      var n := RowsRead(a, ks, target);
      forall m: nat | 0 < m <= n
        ensures SeqTotal(a, ks[..m]) == a[ks[0]] + SeqTotal(a, rest[..m - 1])
      {
        assert ks[..m][1..] == rest[..m - 1];
      }
      forall m: nat | 0 < m < n ensures SeqTotal(a, ks[..m]) < target {
        if m == 1 {
          assert SeqTotal(a, rest[..0]) == 0;
        } else {
          assert SeqTotal(a, rest[..m - 1]) < less;
        }
      }
    } else if ks != [] {
      assert ks[..1][1..] == [];
    }
  }

  /** Distinct rows, largest amount first. */
  ghost predicate Falling(a: map<Key, nat>, ks: seq<Key>) {
    && Distinct(ks) && (forall k :: k in ks ==> k in a)
    && forall i, j :: 0 <= i < j < |ks| ==> a[ks[i]] >= a[ks[j]]
  }

  lemma FallingTail(a: map<Key, nat>, ks: seq<Key>)
    requires Falling(a, ks) && ks != []
    ensures Falling(a, ks[1..]) && Elements(ks[1..]) == Elements(ks) - {ks[0]}
    ensures forall k :: k in Elements(ks) ==> k in a && a[k] <= a[ks[0]]
  {
  }

  lemma SeqTotalHead(a: map<Key, nat>, ks: seq<Key>, n: nat)
    requires 0 < n <= |ks| && forall k :: k in ks ==> k in a
    ensures SeqTotal(a, ks[..n]) == a[ks[0]] + SeqTotal(a, ks[1..][..n - 1])
  {
    assert ks[..n][1..] == ks[1..][..n - 1];
  }

  /** Taking out one row, the largest if it can be, leaves rows of the tail. */
  lemma TakeOne(a: map<Key, nat>, ks: seq<Key>, s: set<Key>) returns (k: Key)
    requires Falling(a, ks) && s <= Elements(ks) && s != {}
    ensures Falling(a, ks[1..])
    ensures k in s && s - {k} <= Elements(ks[1..])
    ensures s <= a.Keys && Total(a, s) <= a[ks[0]] + Total(a, s - {k})
  {
    FallingTail(a, ks);
    if ks[0] in s {
      k := ks[0];
    } else {
      k :| k in s;
    }
    TotalPick(a, s, k);
  }

  /** No set of at most n rows is worth more than the first n rows of a listing that starts with the largest. */
  lemma {:induction false} PrefixIsWorthMost(a: map<Key, nat>, ks: seq<Key>, s: set<Key>, n: nat)
    requires Falling(a, ks) && s <= Elements(ks) && |s| <= n <= |ks|
    ensures s <= a.Keys && Total(a, s) <= SeqTotal(a, ks[..n])
    decreases |ks|
  {
    if s != {} {
      var k := TakeOne(a, ks, s);
      SeqTotalHead(a, ks, n);
      PrefixIsWorthMost(a, ks[1..], s - {k}, n - 1);
    }
  }

  /** For positive targets selection succeeds exactly when the free money suffices; the result covers the
      target, its last row is needed, and no smaller set of usable rows covers the target. */
  lemma GreedySelection(t: Table, ks: seq<Key>, target: int)
    requires Descending(t, ks) && target > 0
    ensures var a := Amounts(t); var r := Enough(a, ks, target);
            && (r.Some? <==> target <= SumMoney(t))
            && (r.Some? ==>
                  && Distinct(r.value) && Elements(r.value) <= Usable(t)
                  && 0 < |r.value|
                  && SeqTotal(a, r.value) >= target
                  && SeqTotal(a, r.value[..|r.value| - 1]) < target
                  && forall s :: s <= Usable(t) && Total(a, s) >= target ==> |s| >= |r.value|)
  {
    var a := Amounts(t);
    var n := RowsRead(a, ks, target);
    RowsReadIsFirst(a, ks, target);
    SeqTotalIsTotal(a, ks);
    SeqTotalSplit(a, ks, n);
    if SeqTotal(a, ks[..n]) >= target {
      assert n > 0;
      assert ks[..n][..n - 1] == ks[..n - 1];
      assert n == 1 ==> ks[..0] == [];
      FewerAreTooLittle(a, ks, target, n);
    }
  }

  lemma FewerAreTooLittle(a: map<Key, nat>, ks: seq<Key>, target: int, n: nat)
    requires Falling(a, ks) && 0 < n <= |ks| && SeqTotal(a, ks[..n - 1]) < target
    ensures forall s :: s <= Elements(ks) && s <= a.Keys && Total(a, s) >= target ==> |s| >= n
  {
    forall s | s <= Elements(ks) && s <= a.Keys && Total(a, s) >= target ensures |s| >= n {
      if |s| < n {
        PrefixIsWorthMost(a, ks, s, n - 1);
      }
    }
  }

  // ---------- Updates ----------

  /** One UPDATE statement on one row. */
  datatype Setter =
    | SetLockup(k: Key, lockup: bool)
    | SetTimeout(k: Key, timeout: int)
    | SetLinkedId(k: Key, linkedId: Option<Hash>)

  /** UPDATE of a missing row changes nothing and is no error. */
  function Apply(t: Table, s: Setter): Table {
    if s.k !in t then t else
      match s
      case SetLockup(k, b) => t[k := t[k].(lockup := b)]
      case SetTimeout(k, v) => t[k := t[k].(timeout := v)]
      case SetLinkedId(k, id) => t[k := t[k].(linkedId := id)]
  }

  function ApplyAll(t: Table, ss: seq<Setter>): Table {
    if ss == [] then t else Apply(ApplyAll(t, ss[..|ss| - 1]), ss[|ss| - 1])
  }

  /** The UPDATE statements by which ChooseAndLock marks `sel`; `clock[i]` is the time read for row i. */
  function LockScript(sel: seq<Key>, id: Option<Hash>, clock: seq<int>): (ss: seq<Setter>)
    requires |clock| == |sel|
    ensures |ss| == 3 * |sel|
  {
    if sel == [] then [] else
      var last := |sel| - 1;
      LockScript(sel[..last], id, clock[..last])
      + [SetLockup(sel[last], true), SetTimeout(sel[last], clock[last] + TIMEOUT_DELAY), SetLinkedId(sel[last], id)]
  }

  /** The UPDATE statements that release `ks`. The link is left as it was. */
  function ReleaseScript(ks: seq<Key>): (ss: seq<Setter>)
    ensures |ss| == 2 * |ks|
  {
    if ks == [] then [] else
      var last := |ks| - 1;
      ReleaseScript(ks[..last]) + [SetLockup(ks[last], false), SetTimeout(ks[last], 0)]
  }

  lemma ApplyAllSnoc(t: Table, ss: seq<Setter>, s: Setter)
    ensures ApplyAll(t, ss + [s]) == Apply(ApplyAll(t, ss), s)
  {
  }

  lemma {:induction false} LockScriptAt(sel: seq<Key>, id: Option<Hash>, clock: seq<int>, i: nat)
    requires |clock| == |sel| && i < |sel|
    ensures var ss := LockScript(sel, id, clock);
            && ss[3 * i] == SetLockup(sel[i], true)
            && ss[3 * i + 1] == SetTimeout(sel[i], clock[i] + TIMEOUT_DELAY)
            && ss[3 * i + 2] == SetLinkedId(sel[i], id)
    decreases |sel|
  {
    if i < |sel| - 1 {
      LockScriptAt(sel[..|sel| - 1], id, clock[..|sel| - 1], i);
    }
  }

  lemma {:induction false} ReleaseScriptAt(ks: seq<Key>, i: nat)
    requires i < |ks|
    ensures ReleaseScript(ks)[2 * i] == SetLockup(ks[i], false)
    ensures ReleaseScript(ks)[2 * i + 1] == SetTimeout(ks[i], 0)
    decreases |ks|
  {
    if i < |ks| - 1 {
      ReleaseScriptAt(ks[..|ks| - 1], i);
    }
  }

  function AddRow(t: Table, k: Key, u: Utxo): Table {
    if k in t then t else t[k := u]
  }

  function NewUtxo(blockNumber: int, blockHash: Hash, amount: nat, pkScript: seq<byte>): Utxo {
    Utxo(blockNumber, blockHash, amount, pkScript, false, false, 0, None)
  }

  /** What ChooseAndLock decides before it writes. */
  function Choice(t: Table, ks: seq<Key>, target: int, id: Option<Hash>): Option<seq<Key>>
    requires forall k :: k in ks ==> k in t
  {
    if LinkedTo(t, id) != {} then None else Enough(Amounts(t), ks, target)
  }

  /** The table after the first `writes` UPDATE statements of the locking loop. */
  function Marked(t: Table, sel: seq<Key>, id: Option<Hash>, clock: seq<int>, writes: nat): Table
    requires |clock| >= |sel|
  {
    var ss := LockScript(sel, id, clock[..|sel|]);
    ApplyAll(t, if writes >= |ss| then ss else ss[..writes])
  }

  /** The table after the first `writes` UPDATE statements of a release of `ks`. */
  function Freed(t: Table, ks: seq<Key>, writes: nat): Table {
    var ss := ReleaseScript(ks);
    ApplyAll(t, if writes >= |ss| then ss else ss[..writes])
  }

  // ---------- What selection and release amount to ----------

  /** The rows that are neither locked nor spent. */
  ghost function Free(t: Table): set<Key> {
    set k | k in t && !t[k].lockup && !t[k].spent
  }

  /** `sel` starts the listing `rows`, consists of free rows, covers the target, needs its last row for that, and is
      no larger than any other set of free rows that covers the target. */
  ghost predicate LeastCover(t: Table, rows: seq<Key>, target: int, sel: seq<Key>) {
    var a := Amounts(t);
    && sel <= rows && Distinct(sel) && sel != []
    && (forall k :: k in sel ==> k in t && !t[k].lockup && !t[k].spent)
    && SeqTotal(a, sel) >= target > SeqTotal(a, sel[..|sel| - 1])
    && forall s :: s <= Free(t) && Total(a, s) >= target ==> |s| >= |sel|
  }

  /** When a selection is granted: exactly when no row is linked to the id and the free rows are worth the target.
      Rows locked for other ids do not matter. What is granted is a least cover. */
  lemma SelectionGranted(t: Table, rows: seq<Key>, target: int, id: Option<Hash>)
    requires Descending(t, rows) && target > 0
    ensures var r := Choice(t, rows, target, id);
            && (r.Some? <==> (forall k :: k in t ==> t[k].linkedId != id) && Total(Amounts(t), Free(t)) >= target)
            && (r.Some? ==> LeastCover(t, rows, target, r.value))
  {
    GreedySelection(t, rows, target);
    assert Free(t) == Usable(t);
    assert LinkedTo(t, id) == {} <==> forall k :: k in t ==> t[k].linkedId != id by {
      forall k | k in t && LinkedTo(t, id) == {} ensures t[k].linkedId != id { assert k !in LinkedTo(t, id); }
    }
    var r := Choice(t, rows, target, id);
    if r.Some? {
      forall k | k in r.value ensures k in t && !t[k].lockup && !t[k].spent { assert k in Elements(r.value); }
    }
  }

  /** A release without interruption unlocks exactly its rows, resets their timeouts and leaves their links. */
  lemma {:induction false} FreedExactly(t: Table, ks: seq<Key>)
    requires Distinct(ks) && forall k :: k in ks ==> k in t
    ensures var u := ApplyAll(t, ReleaseScript(ks));
            && u.Keys == t.Keys
            && (forall k :: k in ks ==> u[k] == t[k].(lockup := false, timeout := 0))
            && forall k :: k in t && k !in ks ==> u[k] == t[k]
  {
    if ks != [] {
      var last := |ks| - 1;
      var k, front := ks[last], ks[..last];
      FreedExactly(t, front);
      ApplyAllSnoc(t, ReleaseScript(front), SetLockup(k, false));
      ApplyAllSnoc(t, ReleaseScript(front) + [SetLockup(k, false)], SetTimeout(k, 0));
      assert ReleaseScript(ks) == ReleaseScript(front) + [SetLockup(k, false)] + [SetTimeout(k, 0)];
      assert k !in front && forall x :: x in ks <==> x in front || x == k;
    }
  }

  // ---------- The vault ----------

  /** `TreasureVault` over its SQL storage. Query results that SQL may order freely are parameters, and so
      are the clock and `writes`, the number of UPDATE statements that succeed before one fails. */
  class TreasureVault {
    var table: Table

    constructor ()
      ensures table == map[]
    {
      table := map[];
    }

    method AddUTXO(blockNumber: int, blockHash: Hash, k: Key, amount: nat, pkScript: seq<byte>, queryOk: bool, insertOk: bool)
      returns (ok: bool)
      modifies this
      ensures ok == (queryOk && k !in old(table) && insertOk)
      ensures table == if queryOk && insertOk
                       then AddRow(old(table), k, NewUtxo(blockNumber, blockHash, amount, pkScript)) else old(table)
      ensures ok ==> table == old(table)[k := Utxo(blockNumber, blockHash, amount, pkScript, false, false, 0, None)]
      ensures !ok ==> table == old(table)
    {
      if !queryOk || k in table || !insertOk {
        return false;
      }
      table := table[k := NewUtxo(blockNumber, blockHash, amount, pkScript)];
      ok := true;
    }

    method QueryEnoughUTXOs(rows: seq<Key>, amount: int) returns (r: Option<seq<Key>>)
      requires Descending(table, rows)
      ensures r == Enough(Amounts(table), rows, amount)
    {
      ghost var a := Amounts(table);
      var utxos: seq<Key>, total, i := [], 0, 0;
      while i < |rows|
        invariant 0 <= i <= |rows| && utxos == rows[..i] && total == SeqTotal(a, rows[..i])
        invariant RowsRead(a, rows, amount) == i + RowsRead(a, rows[i..], amount - total)
        invariant i > 0 ==> total < amount
      {
        RowsReadAt(a, rows, i, amount - total);
        SeqTotalSnoc(a, rows, i);
        assert rows[..i + 1] == rows[..i] + [rows[i]];
        utxos := utxos + [rows[i]];
        total := total + table[rows[i]].amount;
        i := i + 1;
        if total >= amount {
          assert RowsRead(a, rows, amount) == i;
          break;
        }
      }
      assert i == RowsRead(a, rows, amount);
      if total < amount {
        return None;
      }
      r := Some(utxos);
    }

    method ChooseAndLock(rows: seq<Key>, target: int, id: Option<Hash>, clock: seq<int>, writes: nat)
      returns (r: Option<seq<Key>>)
      requires Descending(table, rows) && |clock| >= |rows|
      modifies this
      ensures var choice := Choice(old(table), rows, target, id);
              && r == (if choice.Some? && writes >= 3 * |choice.value| then choice else None)
              && table == (if choice.None? then old(table) else Marked(old(table), choice.value, id, clock, writes))
      ensures target > 0 && writes >= 3 * |rows| ==>
                (r.Some? <==> (forall k :: k in old(table) ==> old(table)[k].linkedId != id)
                              && Total(Amounts(old(table)), Free(old(table))) >= target)
      ensures target > 0 && r.Some? ==> LeastCover(old(table), rows, target, r.value)
    {
      if target > 0 {
        SelectionGranted(table, rows, target, id);
      }
      if LinkedTo(table, id) != {} {
        return None;
      }
      r := QueryEnoughUTXOs(rows, target);
      if r.Some? {
        assert |r.value| <= |rows|;
        var ok := LockRows(r.value, id, clock, writes);
        if !ok {
          return None;
        }
      }
    }

    /** The locking loop of ChooseAndLock. */
    method LockRows(sel: seq<Key>, id: Option<Hash>, clock: seq<int>, writes: nat) returns (ok: bool)
      requires |clock| >= |sel|
      modifies this
      ensures ok == (writes >= 3 * |sel|)
      ensures table == Marked(old(table), sel, id, clock, writes)
    {
      ghost var was := table;
      ghost var ss := LockScript(sel, id, clock[..|sel|]);
      var i := 0;
      while i < |sel|
        invariant 0 <= i <= |sel| && 3 * i <= writes
        invariant table == ApplyAll(was, ss[..3 * i])
      {
        LockScriptAt(sel, id, clock[..|sel|], i);
        if writes < 3 * i + 1 { return false; }
        Write(SetLockup(sel[i], true), was, ss, 3 * i);
        if writes < 3 * i + 2 { return false; }
        Write(SetTimeout(sel[i], clock[i] + TIMEOUT_DELAY), was, ss, 3 * i + 1);
        if writes < 3 * i + 3 { return false; }
        Write(SetLinkedId(sel[i], id), was, ss, 3 * i + 2);
        i := i + 1;
      }
      assert ss[..3 * i] == ss;
      ok := true;
    }

    method ReleaseByExpire(rows: seq<Key>, now: int, writes: nat) returns (ok: bool)
      requires Lists(rows, Expired(table, now))
      modifies this
      ensures ok == (writes >= 2 * |rows|)
      ensures table == Freed(old(table), rows, writes)
      ensures ok ==> table.Keys == old(table).Keys
      ensures ok ==> forall k :: k in old(table) ==>
                table[k] == if old(table)[k].lockup && old(table)[k].timeout < now
                            then old(table)[k].(lockup := false, timeout := 0) else old(table)[k]
    {
      forall k ensures k in rows <==> k in table && table[k].lockup && table[k].timeout < now {
        assert k in rows <==> k in Elements(rows);
      }
      FreedExactly(table, rows);
      ghost var was := table;
      ghost var ss := ReleaseScript(rows);
      var i := 0;
      while i < |rows|
        invariant 0 <= i <= |rows| && 2 * i <= writes
        invariant table == ApplyAll(was, ss[..2 * i])
      {
        ReleaseScriptAt(rows, i);
        if writes < 2 * i + 1 { return false; }
        Write(SetLockup(rows[i], false), was, ss, 2 * i);
        if writes < 2 * i + 2 { return false; }
        Write(SetTimeout(rows[i], 0), was, ss, 2 * i + 1);
        i := i + 1;
      }
      assert ss[..2 * i] == ss;
      ok := true;
    }

    method ReleaseByCommand(k: Key, writes: nat) returns (ok: bool)
      modifies this
      ensures ok == (k in old(table) && writes >= 2)
      ensures table == if k in old(table) then Freed(old(table), [k], writes) else old(table)
      ensures ok ==> table == old(table)[k := old(table)[k].(lockup := false, timeout := 0)]
    {
      if k !in table {
        return false;
      }
      FreedExactly(table, [k]);
      ghost var was := table;
      ghost var ss := ReleaseScript([k]);
      assert ss == [SetLockup(k, false), SetTimeout(k, 0)];
      if writes < 1 { return false; }
      Write(SetLockup(k, false), was, ss, 0);
      if writes < 2 { return false; }
      Write(SetTimeout(k, 0), was, ss, 1);
      assert ss[..2] == ss;
      ok := true;
    }

    /** One UPDATE, the next one of the script `ss`. */
    method Write(s: Setter, ghost was: Table, ghost ss: seq<Setter>, ghost n: nat)
      requires n < |ss| && ss[n] == s && table == ApplyAll(was, ss[..n])
      modifies this
      ensures table == Apply(old(table), s) == ApplyAll(was, ss[..n + 1])
    {
      assert ss[..n + 1] == ss[..n] + [s];
      ApplyAllSnoc(was, ss[..n], s);
      if s.k in table {
        match s
        case SetLockup(k, b) => table := table[k := table[k].(lockup := b)];
        case SetTimeout(k, v) => table := table[k := table[k].(timeout := v)];
        case SetLinkedId(k, id) => table := table[k := table[k].(linkedId := id)];
      }
    }
  }
}

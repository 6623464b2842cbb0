/** Scanning the Bitcoin chain in overlapping windows. */
module Scan {
  import opened Common

  const BLK_MATURE_OFFSET: int := 1
  const RETRO_SCAN_BLOCKS: int := 36

  /** What the Bitcoin node answers during one scan: the latest height (None: error), the height that GetBlocks
      reads (None: error), and the index of the block whose retrieval fails, if any. */
  datatype Reading = Reading(latest: Option<int>, count: Option<int>, failAt: Option<nat>)

  /** The last visited height, and the heights delivered so far in order. */
  datatype Monitor = Monitor(last: int, delivered: seq<int>)

  function Ascending(from: int, n: nat): (s: seq<int>)
    ensures |s| == n && forall i :: 0 <= i < n ==> s[i] == from + i
  {
    seq(n, i => from + i)
  }

  function Blocks(r: Reading, n: int, offset: int): Option<seq<int>> {
    if r.count.None? || offset < 0 || n <= 0 || r.count.value - offset - (n - 1) < 0
       || (r.failAt.Some? && r.failAt.value < n)
    then None
    else Some(Ascending(r.count.value - offset - (n - 1), n))
  }

  function ToFetch(last: int, latest: int): int {
    var n := latest - last - BLK_MATURE_OFFSET;
    if n < RETRO_SCAN_BLOCKS then RETRO_SCAN_BLOCKS else n
  }

  function Kept(hs: seq<int>, lost: set<int>): seq<int> {
    if hs == [] then []
    else Kept(hs[..|hs| - 1], lost) + if hs[|hs| - 1] in lost then [] else [hs[|hs| - 1]]
  }

  /** One scan; `lost` are the heights whose block cannot be inspected. The result says whether it succeeded. */
  function ScanOnce(m: Monitor, r: Reading, lost: set<int>): (Monitor, bool) {
    if r.latest.None? then (m, false)
    else if r.latest.value <= m.last then (m, true)
    else
      var blocks := Blocks(r, ToFetch(m.last, r.latest.value), BLK_MATURE_OFFSET);
      if blocks.None? then (m, false)
      else (Monitor(r.latest.value, m.delivered + Kept(blocks.value, lost)), true)
  }

  // ---------- The code ----------

  /** The in-place reversal of the fetched blocks. */
  method Reverse(a: array<int>)
    modifies a
    ensures forall k :: 0 <= k < a.Length ==> a[k] == old(a[a.Length - 1 - k])
  {
    var n := a.Length;
    for i := 0 to n / 2
      invariant forall k :: 0 <= k < i || n - i <= k < n ==> a[k] == old(a[n - 1 - k])
      invariant forall k :: i <= k < n - i ==> a[k] == old(a[k])
    {
      a[i], a[n - i - 1] := a[n - i - 1], a[i];
    }
  }

  method GetBlocks(r: Reading, n: int, offset: int) returns (blocks: Option<seq<int>>)
    ensures blocks == Blocks(r, n, offset)
    ensures blocks.Some? <==> r.count.Some? && offset >= 0 && n > 0 && r.count.value - offset >= n - 1
                              && (r.failAt.Some? ==> r.failAt.value >= n)
    ensures blocks.Some? ==> |blocks.value| == n
                             && forall i :: 0 <= i < n ==> blocks.value[i] == r.count.value - offset - (n - 1) + i
  {
    if r.count.None? || offset < 0 || n <= 0 {
      return None;
    }
    var latestHeight := r.count.value;
    var myBlocks := new int[n];
    for i := 0 to n
      invariant r.failAt.Some? ==> r.failAt.value >= i
      invariant i > 0 ==> latestHeight - offset - (i - 1) >= 0
      invariant forall k :: 0 <= k < i ==> myBlocks[k] == latestHeight - offset - k
    {
      var targetHeight := latestHeight - offset - i;
      if targetHeight < 0 || r.failAt == Some(i) {
        return None;
      }
      myBlocks[i] := targetHeight;
    }
    if n > 1 {
      Reverse(myBlocks);
    }
    assert myBlocks[..] == Ascending(latestHeight - offset - (n - 1), n);
    blocks := Some(myBlocks[..]);
  }

  class BTCMonitor {
    var lastVisited: int
    var delivered: seq<int>

    constructor (startBlock: int)
      ensures State() == Monitor(startBlock, [])
    {
      lastVisited, delivered := startBlock, [];
    }

    function State(): Monitor
      reads this
    {
      Monitor(lastVisited, delivered)
    }

    method Scan(r: Reading, lost: set<int>) returns (ok: bool)
      modifies this
      ensures (State(), ok) == ScanOnce(old(State()), r, lost)
    {
      if r.latest.None? {
        return false;
      }
      if r.latest.value <= lastVisited {
        return true;
      }
      var numbersToFetch := r.latest.value - lastVisited - BLK_MATURE_OFFSET;
      if numbersToFetch < RETRO_SCAN_BLOCKS {
        numbersToFetch := RETRO_SCAN_BLOCKS;
      }
      var blocks := GetBlocks(r, numbersToFetch, BLK_MATURE_OFFSET);
      if blocks.None? {
        return false;
      }
      ghost var before := delivered;
      var hs := blocks.value;
      for i := 0 to |hs|
        invariant delivered == before + Kept(hs[..i], lost) && lastVisited == old(lastVisited)
      {
        assert hs[..i + 1][..i] == hs[..i];
        if hs[i] in lost {
          continue;
        }
        delivered := delivered + [hs[i]];
      }
      assert hs[..|hs|] == hs;
      lastVisited := r.latest.value;
      ok := true;
    }
  }

  // ---------- One scan ----------

  ghost predicate Rising(hs: seq<int>) {
    forall i, j :: 0 <= i < j < |hs| ==> hs[i] < hs[j]
  }

  lemma {:induction false} KeptIs(hs: seq<int>, lost: set<int>)
    requires Rising(hs)
    ensures Rising(Kept(hs, lost)) && forall h :: h in Kept(hs, lost) <==> h in hs && h !in lost
  {
    if hs != [] {
      var last := |hs| - 1;
      var ks := Kept(hs[..last], lost);
      KeptIs(hs[..last], lost);
      assert forall h :: h in hs <==> h in hs[..last] || h == hs[last];
      forall i | 0 <= i < |ks| ensures ks[i] < hs[last] {
        assert ks[i] in hs[..last];
      }
    }
  }

  /** The heights below `to`, n of them, that were not lost. */
  ghost predicate Delivers(hs: seq<int>, to: int, n: int, lost: set<int>) {
    Rising(hs) && forall h :: h in hs <==> to - n <= h < to && h !in lost
  }

  lemma WindowDelivered(to: int, n: nat, lost: set<int>)
    ensures Delivers(Kept(Ascending(to - n, n), lost), to, n, lost)
  {
    var hs := Ascending(to - n, n);
    KeptIs(hs, lost);
    forall h | to - n <= h < to ensures h in hs {
      assert hs[h - (to - n)] == h;
    }
  }

  /** How many blocks a scan fetches: one less than the gap, but at least 36. */
  function Window(m: Monitor, latest: int): int {
    if latest - m.last - 1 < 36 then 36 else latest - m.last - 1
  }

  /** A scan, exactly, whatever the gap. Without a latest height it fails; without a new one it does nothing; otherwise
      it fails, and changes nothing, if the chain cannot be read, is shorter than the window, or a block of the window
      cannot be retrieved. If it succeeds it remembers the latest height and delivers the blocks of the window that ends
      one below the height that GetBlocks read, in ascending order, without those that could not be inspected. */
  lemma ScansExactly(m: Monitor, r: Reading, lost: set<int>)
    ensures var (u, ok) := ScanOnce(m, r, lost);
            && (r.latest.None? ==> !ok)
            && (r.latest.Some? && r.latest.value <= m.last ==> ok && u == m)
            && (r.latest.Some? && r.latest.value > m.last ==>
                  var n := Window(m, r.latest.value);
                  && (ok <==> r.count.Some? && r.count.value >= n && (r.failAt.Some? ==> r.failAt.value >= n))
                  && (ok ==>
                        && u.last == r.latest.value
                        && m.delivered <= u.delivered
                        && Delivers(u.delivered[|m.delivered|..], r.count.value, n, lost)))
            && (!ok ==> u == m)
  {
    if r.latest.Some? && r.latest.value > m.last && ScanOnce(m, r, lost).1 {
      var n := Window(m, r.latest.value);
      WindowDelivered(r.count.value, n, lost);
      assert ScanOnce(m, r, lost).0.delivered[|m.delivered|..] == Kept(Ascending(r.count.value - n, n), lost);
    }
  }

  // ---------- Coverage ----------

  ghost predicate Covers(delivered: seq<int>, from: int, to: int) {
    forall h :: from <= h < to ==> h in delivered
  }

  lemma {:induction false} KeptAll(hs: seq<int>)
    ensures Kept(hs, {}) == hs
  {
    if hs != [] {
      KeptAll(hs[..|hs| - 1]);
    }
  }

  /** The scan finds new blocks. */
  predicate Effective(m: Monitor, r: Reading) {
    r.latest.Some? && r.latest.value > m.last
  }

  /** The gap bound: the chain did not shrink between the two reads, and it is at most RETRO_SCAN_BLOCKS ahead of
      the last visited height. */
  predicate GapBound(m: Monitor, r: Reading) {
    Effective(m, r) && r.count.Some? ==> r.latest.value <= r.count.value <= m.last + RETRO_SCAN_BLOCKS
  }

  /** Within the gap bound a scan reads exactly the last RETRO_SCAN_BLOCKS mature blocks, lowest first, and fails
      only on an error or on a chain shorter than that. */
  lemma ScanWithinGap(m: Monitor, r: Reading)
    requires GapBound(m, r) && Effective(m, r)
    ensures var (u, ok) := ScanOnce(m, r, {});
            && (ok <==> r.count.Some? && r.count.value >= RETRO_SCAN_BLOCKS
                        && !(r.failAt.Some? && r.failAt.value < RETRO_SCAN_BLOCKS))
            && (!ok ==> u == m)
            && (ok ==> u == Monitor(r.latest.value,
                                    m.delivered + Ascending(r.count.value - RETRO_SCAN_BLOCKS, RETRO_SCAN_BLOCKS)))
  {
    if r.count.Some? {
      KeptAll(Ascending(r.count.value - RETRO_SCAN_BLOCKS, RETRO_SCAN_BLOCKS));
    }
  }

  lemma AscendingCovers(d: seq<int>, from: int, n: nat)
    ensures Covers(d + Ascending(from, n), from, from + n)
  {
    forall h | from <= h < from + n ensures h in d + Ascending(from, n) {
      assert h == Ascending(from, n)[h - from];
    }
  }

  function ScanAll(m: Monitor, rs: seq<Reading>): Monitor {
    if rs == [] then m else ScanOnce(ScanAll(m, rs[..|rs| - 1]), rs[|rs| - 1], {}).0
  }

  function After(start: int, rs: seq<Reading>): Monitor {
    ScanAll(Monitor(start, []), rs)
  }

  /** The greatest height that GetBlocks read in a successful scan that found new blocks. */
  function Newest(start: int, rs: seq<Reading>): int {
    if rs == [] then start else
      var m, r, top := After(start, rs[..|rs| - 1]), rs[|rs| - 1], Newest(start, rs[..|rs| - 1]);
      if Effective(m, r) && ScanOnce(m, r, {}).1 && r.count.Some? && r.count.value > top then r.count.value else top
  }

  ghost predicate Bounded(start: int, rs: seq<Reading>) {
    rs == [] || (Bounded(start, rs[..|rs| - 1]) && GapBound(After(start, rs[..|rs| - 1]), rs[|rs| - 1]))
  }

  /** Coverage: within the gap bound, every block from the start height to the newest minus one is delivered,
      although scans may fail in between. */
  lemma {:induction false} ScanCoverage(start: int, rs: seq<Reading>)
    requires Bounded(start, rs)
    ensures Covers(After(start, rs).delivered, start, Newest(start, rs))
    ensures After(start, rs).last <= Newest(start, rs)
  {
    if rs != [] {
      var m, r := After(start, rs[..|rs| - 1]), rs[|rs| - 1];
      ScanCoverage(start, rs[..|rs| - 1]);
      if Effective(m, r) {
        ScanWithinGap(m, r);
        if ScanOnce(m, r, {}).1 {
          AscendingCovers(m.delivered, r.count.value - RETRO_SCAN_BLOCKS, RETRO_SCAN_BLOCKS);
        }
      }
    }
  }

  /** The chain does not shrink between the two reads of a scan. */
  predicate Steady(r: Reading) {
    r.latest.Some? && r.count.Some? ==> r.latest.value <= r.count.value
  }

  lemma MissedOnceMore(m: Monitor, r: Reading, h: int)
    requires h !in m.delivered && h < m.last - RETRO_SCAN_BLOCKS && Steady(r)
    ensures var u := ScanOnce(m, r, {}).0; h !in u.delivered && m.last <= u.last
  {
    if Effective(m, r) && ScanOnce(m, r, {}).1 {
      var k := ToFetch(m.last, r.latest.value);
      KeptAll(Ascending(r.count.value - k, k));
      assert h !in Ascending(r.count.value - k, k);
    }
  }

  /** A height far enough below the last visited one is never delivered again. */
  lemma {:induction false} MissedForever(m: Monitor, rs: seq<Reading>, h: int)
    requires h !in m.delivered && h < m.last - RETRO_SCAN_BLOCKS
    requires forall r :: r in rs ==> Steady(r)
    ensures h !in ScanAll(m, rs).delivered && m.last <= ScanAll(m, rs).last
  {
    if rs != [] {
      var before, r := rs[..|rs| - 1], rs[|rs| - 1];
      assert r in rs;
      MissedForever(m, before, h);
      MissedOnceMore(ScanAll(m, before), r, h);
    }
  }

  lemma {:induction false} DeliveredStays(m: Monitor, rs: seq<Reading>, h: int)
    requires h in m.delivered
    ensures h in ScanAll(m, rs).delivered
  {
    if rs != [] {
      DeliveredStays(m, rs[..|rs| - 1], h);
    }
  }

  /** The bound is sharp, for good. Take a successful scan of a quiet chain after scans that delivered nothing at or
      above the last visited height. Whatever is scanned later, the gap is closed exactly when the chain was at most
      RETRO_SCAN_BLOCKS ahead; one block more and the last visited height itself is never delivered. */
  lemma GapBoundIsSharp(m: Monitor, r: Reading, rs: seq<Reading>)
    requires Effective(m, r) && r.count == r.latest && ScanOnce(m, r, {}).1
    requires forall h :: h in m.delivered ==> h < m.last
    requires forall x :: x in rs ==> Steady(x)
    ensures var later := ScanAll(ScanOnce(m, r, {}).0, rs).delivered;
            && (Covers(later, m.last, r.count.value) <==> r.count.value - m.last <= RETRO_SCAN_BLOCKS)
            && (m.last in later <==> r.count.value - m.last <= RETRO_SCAN_BLOCKS)
  {
    var n, count, u := ToFetch(m.last, r.latest.value), r.count.value, ScanOnce(m, r, {}).0;
    var blocks := Ascending(count - n, n);
    KeptAll(blocks);
    assert u.delivered == m.delivered + blocks;
    if count - m.last > RETRO_SCAN_BLOCKS {
      assert m.last !in blocks && m.last !in m.delivered;
      MissedForever(u, rs, m.last);
    } else {
      AscendingCovers(m.delivered, count - n, n);
      forall h | m.last <= h < count ensures h in ScanAll(u, rs).delivered {
        DeliveredStays(u, rs, h);
      }
    }
  }
}

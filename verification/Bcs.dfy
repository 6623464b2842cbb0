/** Length-prefixed serialization of Aptos call arguments, against the BCS decoder. */
module Bcs {
  import opened Common

  type Bytes = seq<byte>

  // ---------- What the bridge writes ----------

  /** `byte(n)` */
  function Byte(n: nat): byte {
    n % 256
  }

  /** `b | 0x80` on a byte */
  function Or80(b: byte): byte {
    if b < 128 then b + 128 else b
  }

  /** The prefix of serializeString and the vectors: `byte(n)`, or `byte(n&0x7F|0x80), byte(n>>7)`. */
  function Prefix(n: nat): Bytes {
    if n < 128 then [Byte(n)] else [Byte(Or80(n % 128)), Byte(n / 128)]
  }

  function String(s: Bytes): Bytes {
    Prefix(|s|) + s
  }

  function Strings(ss: seq<Bytes>): Bytes {
    if ss == [] then [] else String(ss[0]) + Strings(ss[1..])
  }

  type u64 = n: int | 0 <= n < 0x1_0000_0000_0000_0000

  function LittleEndian(n: nat, width: nat): (b: Bytes)
    ensures |b| == width
  {
    if width == 0 then [] else [n % 256] + LittleEndian(n / 256, width - 1)
  }

  function U64(n: u64): Bytes {
    LittleEndian(n, 8)
  }

  function U64s(ns: seq<u64>): (b: Bytes)
    ensures |b| == 8 * |ns|
  {
    if ns == [] then [] else U64(ns[0]) + U64s(ns[1..])
  }

  lemma {:induction false} StringsSnoc(ss: seq<Bytes>, s: Bytes)
    ensures Strings(ss + [s]) == Strings(ss) + String(s)
  {
    if ss == [] {
      assert ([] + [s])[1..] == [];
    } else {
      assert (ss + [s])[1..] == ss[1..] + [s];
      StringsSnoc(ss[1..], s);
    }
  }

  lemma {:induction false} U64sSnoc(ns: seq<u64>, n: u64)
    ensures U64s(ns + [n]) == U64s(ns) + U64(n)
  {
    if ns == [] {
      assert ([] + [n])[1..] == [];
    } else {
      assert (ns + [n])[1..] == ns[1..] + [n];
      U64sSnoc(ns[1..], n);
    }
  }

  method SerializeString(s: Bytes) returns (result: Bytes)
    ensures result == String(s)
  {
    var strLen := |s|;
    if strLen < 128 {
      result := [Byte(strLen)];
    } else {
      result := [Byte(Or80(strLen % 128)), Byte(strLen / 128)];
    }
    result := result + s;
  }

  /** The other string encoder writes `byte(len)|0x80` for the first of two bytes. */
  method StringToBytes(s: Bytes) returns (result: Bytes)
    ensures result == String(s)
  {
    var len := |s|;
    if len < 128 {
      result := [Byte(len)];
    } else {
      VariantPrefix(len);
      var encodedLen := Or80(Byte(len));
      result := [encodedLen, Byte(len / 128)];
    }
    result := result + s;
  }

  /** Bit 7 of the length is overwritten either way. */
  lemma VariantPrefix(n: nat)
    ensures Or80(Byte(n)) == Byte(Or80(n % 128))
  {
  }

  method SerializeStringVector(strings: seq<Bytes>) returns (result: Bytes)
    ensures result == Prefix(|strings|) + Strings(strings)
  {
    var vecLen := |strings|;
    if vecLen < 128 {
      result := [Byte(vecLen)];
    } else {
      result := [Byte(Or80(vecLen % 128)), Byte(vecLen / 128)];
    }
    for i := 0 to |strings|
      invariant result == Prefix(|strings|) + Strings(strings[..i])
    {
      assert strings[..i + 1] == strings[..i] + [strings[i]];
      StringsSnoc(strings[..i], strings[i]);
      var s := SerializeString(strings[i]);
      result := result + s;
    }
    assert strings[..|strings|] == strings;
  }

  method SerializeU64Vector(nums: seq<u64>) returns (result: Bytes)
    ensures result == Prefix(|nums|) + U64s(nums)
  {
    var vecLen := |nums|;
    if vecLen < 128 {
      result := [Byte(vecLen)];
    } else {
      result := [Byte(Or80(vecLen % 128)), Byte(vecLen / 128)];
    }
    for i := 0 to |nums|
      invariant result == Prefix(|nums|) + U64s(nums[..i])
    {
      assert nums[..i + 1] == nums[..i] + [nums[i]];
      U64sSnoc(nums[..i], nums[i]);
      result := result + U64(nums[i]);
    }
    assert nums[..|nums|] == nums;
  }

  /** The prefix at every length: one byte below 128; otherwise the low seven bits with the high bit set, then the
      next eight bits, whatever is lost. */
  lemma PrefixIs(n: nat)
    ensures n < 128 ==> Prefix(n) == [n]
    ensures n >= 128 ==> Prefix(n) == [n % 128 + 128, n / 128 % 256]
  {
  }

  /** Eight bytes, least significant first. */
  lemma {:induction false} LittleEndianAt(n: nat, width: nat, i: nat)
    requires i < width
    ensures LittleEndian(n, width)[i] == n / Pow256(i) % 256
    decreases width
  {
    if i > 0 {
      LittleEndianAt(n / 256, width - 1, i - 1);
      DivideTwice(n, Pow256(i - 1));
      assert Pow256(i) == 256 * Pow256(i - 1);
    } else {
      assert Pow256(0) == 1;
    }
  }

  // ---------- What a BCS decoder reads ----------

  /** ULEB128: seven bits a byte, low bits first, the high bit says that more follow; at most five bytes, and no
      zero byte at the end of a longer number. */
  function Uleb(b: Bytes, i: nat): Option<(nat, Bytes)>
    decreases |b|
  {
    if b == [] || i >= 5 then None
    else if b[0] < 128 then (if i > 0 && b[0] == 0 then None else Some((b[0], b[1..])))
    else
      var more := Uleb(b[1..], i + 1);
      if more.None? then None else Some((b[0] - 128 + 128 * more.value.0, more.value.1))
  }

  function DecodeLength(b: Bytes): Option<(nat, Bytes)> {
    var r := Uleb(b, 0);
    if r.Some? && r.value.0 < 0x1_0000_0000 then r else None
  }

  function DecodeString(b: Bytes): Option<(Bytes, Bytes)> {
    var r := DecodeLength(b);
    if r.None? || |r.value.1| < r.value.0 then None
    else Some((r.value.1[..r.value.0], r.value.1[r.value.0..]))
  }

  function DecodeStrings(b: Bytes, count: nat): Option<(seq<Bytes>, Bytes)>
    decreases count
  {
    if count == 0 then Some(([], b)) else
      var first := DecodeString(b);
      if first.None? then None else
        var more := DecodeStrings(first.value.1, count - 1);
        if more.None? then None else Some(([first.value.0] + more.value.0, more.value.1))
  }

  function DecodeStringVector(b: Bytes): Option<(seq<Bytes>, Bytes)> {
    var r := DecodeLength(b);
    if r.None? then None else DecodeStrings(r.value.1, r.value.0)
  }

  function FromLittleEndian(b: Bytes): nat {
    if b == [] then 0 else b[0] + 256 * FromLittleEndian(b[1..])
  }

  function DecodeU64s(b: Bytes, count: nat): Option<(seq<nat>, Bytes)> {
    if count == 0 then Some(([], b))
    else if |b| < 8 then None
    else
      var more := DecodeU64s(b[8..], count - 1);
      if more.None? then None else Some(([FromLittleEndian(b[..8])] + more.value.0, more.value.1))
  }

  function DecodeU64Vector(b: Bytes): Option<(seq<nat>, Bytes)> {
    var r := DecodeLength(b);
    if r.None? then None else DecodeU64s(r.value.1, r.value.0)
  }

  lemma Assoc(a: Bytes, b: Bytes, c: Bytes)
    ensures a + b + c == a + (b + c)
  {
  }

  // ---------- Lengths ----------

  /** Two bytes hold 14 bits. */
  const LIMIT: nat := 16384

  lemma PrefixDecodes(n: nat, rest: Bytes)
    requires n < LIMIT
    ensures DecodeLength(Prefix(n) + rest) == Some((n, rest))
  {
    var b := Prefix(n) + rest;
    if n < 128 {
      assert b[1..] == rest;
    } else {
      assert b[0] == n % 128 + 128 && b[1..][0] == n / 128 && b[1..][1..] == rest;
      assert Uleb(b[1..], 1) == Some((n / 128, rest));
    }
  }

  /** The decoder is canonical: the number of bytes it consumed is determined by the value. */
  lemma {:induction false} UlebWidth(b: Bytes, i: nat)
    requires Uleb(b, i).Some?
    ensures var (n, rest) := Uleb(b, i).value;
            && |rest| < |b|
            && (|b| - |rest| == 1 <==> n < 128)
            && (|b| - |rest| <= 2 <==> n < LIMIT)
            && (i > 0 ==> n > 0)
    decreases |b|
  {
    if b[0] >= 128 {
      UlebWidth(b[1..], i + 1);
    }
  }

  /** So a length below the limit costs the decoder what the bridge wrote, and a larger one costs it more. */
  lemma LengthCost(b: Bytes)
    requires DecodeLength(b).Some?
    ensures var (n, rest) := DecodeLength(b).value;
            && |b| - |rest| >= |Prefix(n)|
            && (|b| - |rest| == |Prefix(n)| <==> n < LIMIT)
  {
    UlebWidth(b, 0);
  }

  // ---------- Round trips, exactly ----------

  /** A string comes back, with the bytes after it untouched, exactly when its length is below the limit. */
  lemma StringRoundTripIff(s: Bytes, rest: Bytes)
    ensures DecodeString(String(s) + rest) == Some((s, rest)) <==> |s| < LIMIT
  {
    var b := String(s) + rest;
    assert b == Prefix(|s|) + (s + rest);
    if |s| < LIMIT {
      PrefixDecodes(|s|, s + rest);
      assert (s + rest)[..|s|] == s && (s + rest)[|s|..] == rest;
    } else if DecodeString(b) == Some((s, rest)) {
      LengthCost(b);
      assert false;
    }
  }

  predicate AllShort(ss: seq<Bytes>) {
    forall s :: s in ss ==> |s| < LIMIT
  }

  lemma FirstStringDecodes(s: Bytes, ss: seq<Bytes>, more: Bytes, rest: Bytes)
    requires |s| < LIMIT && DecodeStrings(more, |ss|) == Some((ss, rest))
    ensures DecodeStrings(String(s) + more, |ss| + 1) == Some(([s] + ss, rest))
  {
    StringRoundTripIff(s, more);
  }

  lemma {:induction false} StringsDecode(ss: seq<Bytes>, rest: Bytes)
    requires AllShort(ss)
    ensures DecodeStrings(Strings(ss) + rest, |ss|) == Some((ss, rest))
  {
    if ss == [] {
      assert Strings(ss) + rest == rest;
    } else {
      assert ss[0] in ss && forall s :: s in ss[1..] ==> s in ss;
      StringsDecode(ss[1..], rest);
      FirstStringDecodes(ss[0], ss[1..], Strings(ss[1..]) + rest, rest);
      Assoc(String(ss[0]), Strings(ss[1..]), rest);
      assert [ss[0]] + ss[1..] == ss;
    }
  }

  /** Decoded strings cost at least what the bridge writes for them, and more if one is too long. */
  lemma {:induction false} StringsCost(b: Bytes, count: nat)
    requires DecodeStrings(b, count).Some?
    ensures var (ss, rest) := DecodeStrings(b, count).value;
            && |ss| == count
            && |b| - |rest| >= |Strings(ss)|
            && (|b| - |rest| == |Strings(ss)| ==> AllShort(ss))
    decreases count
  {
    if count > 0 {
      LengthCost(b);
      var (first, after) := DecodeString(b).value;
      StringsCost(after, count - 1);
      var (ss, rest) := DecodeStrings(b, count).value;
      assert ss[1..] == DecodeStrings(after, count - 1).value.0 && ss[0] == first;
      assert |Strings(ss)| == |Prefix(|first|)| + |first| + |Strings(ss[1..])|;
      forall s | s in ss && |b| - |rest| == |Strings(ss)| ensures |s| < LIMIT {
        assert s == first || s in ss[1..];
      }
    }
  }

  lemma StringVectorCost(b: Bytes, ss: seq<Bytes>, rest: Bytes)
    requires DecodeStringVector(b) == Some((ss, rest))
    requires |b| == |Prefix(|ss|)| + |Strings(ss)| + |rest|
    ensures |ss| < LIMIT && AllShort(ss)
  {
    var (count, after) := DecodeLength(b).value;
    LengthCost(b);
    StringsCost(after, count);
  }

  /** A string vector comes back, with the bytes after it untouched, exactly when its length and the lengths of
      all its strings are below the limit. */
  lemma StringVectorRoundTripIff(ss: seq<Bytes>, rest: Bytes)
    ensures DecodeStringVector(Prefix(|ss|) + Strings(ss) + rest) == Some((ss, rest)) <==> |ss| < LIMIT && AllShort(ss)
  {
    var b := Prefix(|ss|) + Strings(ss) + rest;
    if |ss| < LIMIT && AllShort(ss) {
      Assoc(Prefix(|ss|), Strings(ss), rest);
      PrefixDecodes(|ss|, Strings(ss) + rest);
      StringsDecode(ss, rest);
    } else if DecodeStringVector(b) == Some((ss, rest)) {
      StringVectorCost(b, ss, rest);
    }
  }

  lemma {:induction false} LittleEndianRoundTrip(n: nat, width: nat)
    requires n < Pow256(width)
    ensures FromLittleEndian(LittleEndian(n, width)) == n
  {
    if width > 0 {
      LittleEndianRoundTrip(n / 256, width - 1);
      assert LittleEndian(n, width)[1..] == LittleEndian(n / 256, width - 1);
    }
  }

  lemma {:induction false} U64sDecode(ns: seq<u64>, rest: Bytes)
    ensures DecodeU64s(U64s(ns) + rest, |ns|) == Some((ns, rest))
  {
    if ns == [] {
      assert U64s(ns) + rest == rest;
    } else {
      var b, more := U64s(ns) + rest, U64s(ns[1..]) + rest;
      assert b[..8] == U64(ns[0]) && b[8..] == more;
      assert Pow256(4) == 0x1_0000_0000 && Pow256(8) == 0x1_0000_0000_0000_0000;
      LittleEndianRoundTrip(ns[0], 8);
      U64sDecode(ns[1..], rest);
      assert [ns[0]] + ns[1..] == ns;
    }
  }

  lemma {:induction false} U64sCost(b: Bytes, count: nat)
    requires DecodeU64s(b, count).Some?
    ensures var (ns, rest) := DecodeU64s(b, count).value; |ns| == count && |b| - |rest| == 8 * count
    decreases count
  {
    if count > 0 {
      U64sCost(b[8..], count - 1);
    }
  }

  predicate U64sRecovered(b: Bytes, ns: seq<u64>, rest: Bytes) {
    var r := DecodeU64Vector(b);
    r.Some? && r.value.0 == ns && r.value.1 == rest
  }

  lemma U64VectorDecodes(ns: seq<u64>, rest: Bytes)
    requires |ns| < LIMIT
    ensures U64sRecovered(Prefix(|ns|) + (U64s(ns) + rest), ns, rest)
  {
    PrefixDecodes(|ns|, U64s(ns) + rest);
    U64sDecode(ns, rest);
  }

  /** By count of bytes: a decoded vector that cost what the bridge writes is below the limit. */
  lemma U64VectorCost(b: Bytes, n: nat, rest: Bytes)
    requires DecodeU64Vector(b).Some?
    requires |DecodeU64Vector(b).value.0| == n && DecodeU64Vector(b).value.1 == rest
    requires |b| == |Prefix(n)| + 8 * n + |rest|
    ensures n < LIMIT
  {
    var (count, after) := DecodeLength(b).value;
    LengthCost(b);
    U64sCost(after, count);
  }

  /** A u64 vector comes back, with the bytes after it untouched, exactly when its length is below the limit. */
  lemma U64VectorRoundTripIff(ns: seq<u64>, rest: Bytes)
    ensures U64sRecovered(Prefix(|ns|) + U64s(ns) + rest, ns, rest) <==> |ns| < LIMIT
  {
    var b := Prefix(|ns|) + U64s(ns) + rest;
    if |ns| < LIMIT {
      Assoc(Prefix(|ns|), U64s(ns), rest);
      U64VectorDecodes(ns, rest);
    } else if U64sRecovered(b, ns, rest) {
      assert |b| == |Prefix(|ns|)| + 8 * |ns| + |rest|;
      U64VectorCost(b, |ns|, rest);
    }
  }
}

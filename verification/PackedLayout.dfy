/** Where every field of a packed message stands, byte by byte. */
module PackedLayout {
  import opened Common
  import opened Packed

  /** A hash is packed as its 32 digits in base 256, most significant first. */
  lemma HashIsWord(h: Hash)
    ensures |HashBytes(h)| == 32 && forall j :: 0 <= j < 32 ==> HashBytes(h)[j] == h / Pow256(31 - j) % 256
  {
    forall j: nat | j < 32 ensures HashBytes(h)[j] == h / Pow256(31 - j) % 256 {
      BigEndianAt(h, 32, j);
    }
  }

  /** A number is packed as its low 256 bits. */
  lemma NumberIsWord(n: int)
    ensures U256Bytes(n) == HashBytes(n % TWO_256)
  {
  }

  /** The hash stands at position `at` of m. */
  predicate WordAt(m: Bytes, at: nat, h: Hash) {
    at + 32 <= |m| && m[at..at + 32] == HashBytes(h)
  }

  lemma Assoc(a: Bytes, b: Bytes, c: Bytes)
    ensures a + b + c == a + (b + c)
  {
  }

  lemma SliceOfTail(front: Bytes, tail: Bytes, at: nat, n: nat)
    requires at + n <= |tail|
    ensures (front + tail)[|front| + at..|front| + at + n] == tail[at..at + n]
  {
  }

  lemma Slices(a: Bytes, b: Bytes, c: Bytes)
    ensures var m := a + b + c; m[..|a|] == a && m[|a|..|a| + |b|] == b && m[|a| + |b|..] == c
  {
  }

  /** The mint message: transaction id, receiver, amount. */
  lemma MintMessageLayout(p: MintParameter)
    requires ValidAmount(p.amount)
    ensures var r := MintMessage(p); var n := |p.receiver|;
            && r.Some? && |r.value| == 64 + n
            && WordAt(r.value, 0, p.btcTxId)
            && r.value[32..32 + n] == p.receiver
            && WordAt(r.value, 32 + n, p.amount)
  {
    MintLayout(p);
    assert p.amount % TWO_256 == p.amount;
    Slices(HashBytes(p.btcTxId), p.receiver, U256Bytes(p.amount));
  }

  lemma {:induction false} WordsAt(ws: seq<Hash>, i: nat)
    requires i < |ws|
    ensures WordAt(EncodeHashes(ws), 32 * i, ws[i])
    decreases |ws|
  {
    var last := |ws| - 1;
    var front, w := EncodeHashes(ws[..last]), HashBytes(ws[last]);
    if i == last {
      assert EncodeHashes(ws)[32 * i..32 * i + 32] == w;
    } else {
      WordsAt(ws[..last], i);
      assert EncodeHashes(ws)[32 * i..32 * i + 32] == front[32 * i..32 * i + 32];
    }
  }

  lemma WordMoves(front: Bytes, tail: Bytes, at: nat, h: Hash)
    requires WordAt(tail, at, h)
    ensures WordAt(front + tail, |front| + at, h)
  {
    SliceOfTail(front, tail, at, 32);
  }

  /** `tail` is these words one after the other. */
  ghost predicate IsWords(tail: Bytes, ws: seq<Hash>) {
    |tail| == 32 * |ws| && forall i :: 0 <= i < |ws| ==> WordAt(tail, 32 * i, ws[i])
  }

  /** The words of a prepare message after the receiver. */
  lemma TailWords(front: Bytes, tail: Bytes, p: PrepareParameter)
    requires Sound(p) && IsWords(tail, Words(p))
    ensures var m := front + tail; var k := |front|; var n := |p.idxs|;
            && WordAt(m, k, p.amount)
            && (forall i :: 0 <= i < n ==> WordAt(m, k + 32 + 32 * i, p.txIds[i]))
            && (forall i :: 0 <= i < n ==> WordAt(m, k + 32 + 32 * (n + i), p.idxs[i]))
  {
    var ws, n := Words(p), |p.idxs|;
    WordMoves(front, tail, 32 * 0, ws[0]);
    forall i | 0 <= i < n ensures WordAt(front + tail, |front| + 32 + 32 * i, p.txIds[i]) {
      WordMoves(front, tail, 32 * (1 + i), ws[1 + i]);
    }
    forall i | 0 <= i < n ensures WordAt(front + tail, |front| + 32 + 32 * (n + i), p.idxs[i]) {
      WordMoves(front, tail, 32 * (1 + n + i), ws[1 + n + i]);
    }
  }

  /** The prepare message: request, requester, receiver as it is encoded, amount, all transaction ids, all indices. */
  lemma PrepareMessageLayout(p: PrepareParameter)
    requires Sound(p) && EncodeString(p.receiver).Some?
    ensures var r := PrepareMessage(p); var receiver := EncodeString(p.receiver).value;
            var k := 32 + |p.requester|; var a := k + |receiver|; var n := |p.idxs|;
            && r.Some? && |r.value| == a + 32 + 64 * n
            && WordAt(r.value, 0, p.request)
            && r.value[32..k] == p.requester
            && r.value[k..a] == receiver
            && WordAt(r.value, a, p.amount)
            && (forall i :: 0 <= i < n ==> WordAt(r.value, a + 32 + 32 * i, p.txIds[i]))
            && (forall i :: 0 <= i < n ==> WordAt(r.value, a + 32 + 32 * (n + i), p.idxs[i]))
  {
    PrepareLayout(p);
    var q := Decoded(p);
    Parts(HashBytes(p.request), p.requester, q.receiver, EncodeHashes(Words(q)));
    AllWords(Words(q));
    TailWords(HashBytes(p.request) + p.requester + q.receiver, EncodeHashes(Words(q)), q);
  }

  lemma AllWords(ws: seq<Hash>)
    ensures IsWords(EncodeHashes(ws), ws)
  {
    forall i | 0 <= i < |ws| ensures WordAt(EncodeHashes(ws), 32 * i, ws[i]) {
      WordsAt(ws, i);
    }
  }

  lemma Parts(a: Bytes, b: Bytes, c: Bytes, d: Bytes)
    ensures var m := a + b + c + d;
            m[0..|a|] == a && m[|a|..|a| + |b|] == b && m[|a| + |b|..|a| + |b| + |c|] == c
  {
    Slices(a, b, c + d);
    Slices(a + b, c, d);
    Assoc(a + b, c, d);
  }

  // ---------- Receivers ----------

  /** The sixteen digits in order. */
  function Digits(): (ds: Bytes)
    ensures |ds| == 16
  {
    [0x30, 0x31, 0x32, 0x33, 0x34, 0x35, 0x36, 0x37, 0x38, 0x39, 0x61, 0x62, 0x63, 0x64, 0x65, 0x66]
  }

  /** Bytes as hex text, two digits each, the high one first. */
  function HexText(b: Bytes): Bytes {
    if b == [] then [] else [Digits()[b[0] / 16], Digits()[b[0] % 16]] + HexText(b[1..])
  }

  lemma DigitIs(d: nat)
    requires d < 16
    ensures HexDigit(Digits()[d]) == Some(d)
  {
  }

  lemma DecodePair(x: byte, y: byte, rest: Bytes)
    requires HexDigit(x).Some? && HexDigit(y).Some? && HexDecode(rest).Some?
    ensures HexDecode([x, y] + rest) == Some([Pair(HexDigit(x).value, HexDigit(y).value)] + HexDecode(rest).value)
  {
    assert ([x, y] + rest)[2..] == rest;
  }

  lemma PairIs(c: byte)
    ensures Pair(c / 16, c % 16) == c
  {
  }

  /** Hex text decodes to its bytes. */
  lemma {:induction false} HexRoundTrip(b: Bytes)
    ensures HexDecode(HexText(b)) == Some(b)
  {
    if b != [] {
      DigitIs(b[0] / 16);
      DigitIs(b[0] % 16);
      PairIs(b[0]);
      HexRoundTrip(b[1..]);
      DecodePair(Digits()[b[0] / 16], Digits()[b[0] % 16], HexText(b[1..]));
      assert [b[0]] + b[1..] == b;
    }
  }

  /** A receiver goes in as it is, except that "0x" and hex text stand for bytes. */
  lemma ReceiverIs(s: Bytes, b: Bytes)
    ensures !(|s| >= 2 && s[0] == 0x30 && s[1] == 0x78) ==> EncodeString(s) == Some(s)
    ensures EncodeString([0x30, 0x78] + HexText(b)) == Some(b)
  {
    HexRoundTrip(b);
    assert ([0x30, 0x78] + HexText(b))[2..] == HexText(b);
  }

  // ---------- Arguments ----------

  lemma {:induction false} EncodeConcat(vs: seq<Value>, ws: seq<Value>)
    ensures EncodeAll(vs + ws) ==
            if EncodeAll(vs).None? || EncodeAll(ws).None? then None else Some(EncodeAll(vs).value + EncodeAll(ws).value)
  {
    if ws == [] {
      assert vs + ws == vs;
      assert EncodeAll(vs).Some? ==> EncodeAll(vs).value + [] == EncodeAll(vs).value;
    } else {
      var last := |ws| - 1;
      EncodeConcat(vs, ws[..last]);
      EncodeSnoc(vs + ws[..last], ws[last]);
      assert vs + ws == vs + ws[..last] + [ws[last]];
      if EncodeAll(vs).Some? && EncodeAll(ws).Some? {
        Assoc(EncodeAll(vs).value, EncodeAll(ws[..last]).value, EncodeValue(ws[last]).value);
      }
    }
  }

  /** An array is packed like its elements one after the other. */
  lemma {:induction false} TextsAreElements(ts: seq<Bytes>)
    ensures EncodeAll([Texts(ts)]) == EncodeAll(seq(|ts|, i requires 0 <= i < |ts| => Text(ts[i])))
  {
    EncodeFirst(Texts(ts));
    var vs := seq(|ts|, i requires 0 <= i < |ts| => Text(ts[i]));
    if ts != [] {
      var last := |ts| - 1;
      TextsAreElements(ts[..last]);
      EncodeFirst(Texts(ts[..last]));
      assert vs[..last] == seq(|ts[..last]|, i requires 0 <= i < |ts[..last]| => Text(ts[..last][i]));
    }
  }

  lemma {:induction false} AddressesAreElements(bs: seq<Bytes>)
    ensures EncodeAll([Addresses(bs)]) == EncodeAll(seq(|bs|, i requires 0 <= i < |bs| => Address(bs[i])))
  {
    EncodeFirst(Addresses(bs));
    var vs := seq(|bs|, i requires 0 <= i < |bs| => Address(bs[i]));
    if bs != [] {
      var last := |bs| - 1;
      AddressesAreElements(bs[..last]);
      EncodeFirst(Addresses(bs[..last]));
      assert vs[..last] == seq(|bs[..last]|, i requires 0 <= i < |bs[..last]| => Address(bs[..last][i]));
    }
  }

  lemma {:induction false} NumbersAreElements(ns: seq<int>)
    ensures EncodeAll([Numbers(ns)]) == EncodeAll(seq(|ns|, i requires 0 <= i < |ns| => Number(ns[i])))
  {
    EncodeFirst(Numbers(ns));
    var vs := seq(|ns|, i requires 0 <= i < |ns| => Number(ns[i]));
    if ns != [] {
      var last := |ns| - 1;
      NumbersAreElements(ns[..last]);
      EncodeFirst(Numbers(ns[..last]));
      assert vs[..last] == seq(|ns[..last]|, i requires 0 <= i < |ns[..last]| => Number(ns[..last][i]));
    }
  }

  lemma {:induction false} HashesAreElements(hs: seq<Hash>)
    ensures EncodeAll([Hashes(hs)]) == EncodeAll(seq(|hs|, i requires 0 <= i < |hs| => OneHash(hs[i])))
  {
    EncodeFirst(Hashes(hs));
    var vs := seq(|hs|, i requires 0 <= i < |hs| => OneHash(hs[i]));
    if hs != [] {
      var last := |hs| - 1;
      HashesAreElements(hs[..last]);
      EncodeFirst(Hashes(hs[..last]));
      assert vs[..last] == seq(|hs[..last]|, i requires 0 <= i < |hs[..last]| => OneHash(hs[..last][i]));
    }
  }

  /** A single argument: bytes, addresses and plain text go in as they are, hashes and numbers as 32 bytes. */
  lemma ArgumentIs(b: Bytes, h: Hash, n: int)
    ensures EncodeAll([Raw(b)]) == Some(b) && EncodeAll([Address(b)]) == Some(b)
    ensures EncodeAll([Text(b)]) == EncodeString(b)
    ensures EncodeAll([OneHash(h)]) == Some(HashBytes(h)) && EncodeAll([Number(n)]) == Some(HashBytes(n % TWO_256))
  {
    EncodeFirst(Raw(b));
    EncodeFirst(Address(b));
    EncodeFirst(Text(b));
    EncodeFirst(OneHash(h));
    EncodeFirst(Number(n));
  }
}

/** The packed encoding that mint and prepare messages are hashed from. */
module Packed {
  import opened Common

  type Bytes = seq<byte>

  /** The argument types that `EncodePacked` distinguishes; a 32-byte array is encoded like a hash. Strings are Go
      strings: bytes. An address is its 20 bytes, which its hex text decodes to. */
  datatype Value =
    | Text(text: Bytes)
    | Texts(texts: seq<Bytes>)
    | Raw(raw: Bytes)
    | Number(number: int)
    | Numbers(numbers: seq<int>)
    | OneHash(hash: Hash)
    | Hashes(hashes: seq<Hash>)
    | Address(address: Bytes)
    | Addresses(addresses: seq<Bytes>)

  const ZERO_CHAR: byte := 0x30
  const X_CHAR: byte := 0x78

  predicate HasHexPrefix(s: Bytes) {
    |s| >= 2 && s[0] == ZERO_CHAR && s[1] == X_CHAR
  }

  function HexDigit(c: byte): (d: Option<byte>)
    ensures d.Some? ==> d.value < 16
  {
    if 0x30 <= c <= 0x39 then Some(c - 0x30)
    else if 0x61 <= c <= 0x66 then Some(c - 0x61 + 10)
    else if 0x41 <= c <= 0x46 then Some(c - 0x41 + 10)
    else None
  }

  function Pair(hi: byte, lo: byte): byte {
    (16 * hi + lo) % 256
  }

  /** `hex.DecodeString`; None is its error, which ends the program. */
  function HexDecode(s: Bytes): Option<Bytes> {
    if s == [] then Some([])
    else if |s| == 1 then None
    else
      var hi, lo, rest := HexDigit(s[0]), HexDigit(s[1]), HexDecode(s[2..]);
      if hi.None? || lo.None? || rest.None? then None else Some([Pair(hi.value, lo.value)] + rest.value)
  }

  function EncodeString(s: Bytes): Option<Bytes> {
    if HasHexPrefix(s) then HexDecode(s[2..]) else Some(s)
  }

  /** `math.U256Bytes`: the low 256 bits, as 32 bytes. */
  function U256Bytes(n: int): (b: Bytes)
    ensures |b| == 32
  {
    HashBytes(n % TWO_256)
  }

  function EncodeNumbers(ns: seq<int>): (b: Bytes)
    ensures |b| == 32 * |ns|
  {
    if ns == [] then [] else EncodeNumbers(ns[..|ns| - 1]) + U256Bytes(ns[|ns| - 1])
  }

  function EncodeHashes(hs: seq<Hash>): (b: Bytes)
    ensures |b| == 32 * |hs|
  {
    if hs == [] then [] else EncodeHashes(hs[..|hs| - 1]) + HashBytes(hs[|hs| - 1])
  }

  function EncodeTexts(ts: seq<Bytes>): Option<Bytes> {
    if ts == [] then Some([]) else
      var front, last := EncodeTexts(ts[..|ts| - 1]), EncodeString(ts[|ts| - 1]);
      if front.None? || last.None? then None else Some(front.value + last.value)
  }

  function Concat(bs: seq<Bytes>): Bytes {
    if bs == [] then [] else Concat(bs[..|bs| - 1]) + bs[|bs| - 1]
  }

  function EncodeValue(v: Value): Option<Bytes> {
    match v
    case Text(s) => EncodeString(s)
    case Texts(ts) => EncodeTexts(ts)
    case Address(b) => Some(b)
    case Addresses(bs) => Some(Concat(bs))
    case Raw(b) => Some(b)
    case Number(n) => Some(U256Bytes(n))
    case Numbers(ns) => Some(EncodeNumbers(ns))
    case OneHash(h) => Some(HashBytes(h))
    case Hashes(hs) => Some(EncodeHashes(hs))
  }

  function EncodeAll(vs: seq<Value>): Option<Bytes> {
    if vs == [] then Some([]) else
      var front, last := EncodeAll(vs[..|vs| - 1]), EncodeValue(vs[|vs| - 1]);
      if front.None? || last.None? then None else Some(front.value + last.value)
  }

  // ---------- The encoders as loops ----------

  method EncodeBigIntArray(arr: seq<int>) returns (res: Bytes)
    ensures res == EncodeNumbers(arr)
  {
    res := [];
    for i := 0 to |arr|
      invariant res == EncodeNumbers(arr[..i])
    {
      assert arr[..i + 1][..i] == arr[..i];
      res := res + U256Bytes(arr[i]);
    }
    assert arr[..|arr|] == arr;
  }

  method EncodeHashArray(arr: seq<Hash>) returns (res: Bytes)
    ensures res == EncodeHashes(arr)
  {
    res := [];
    for i := 0 to |arr|
      invariant res == EncodeHashes(arr[..i])
    {
      assert arr[..i + 1][..i] == arr[..i];
      res := res + HashBytes(arr[i]);
    }
    assert arr[..|arr|] == arr;
  }

  method EncodeStringArray(arr: seq<Bytes>) returns (res: Option<Bytes>)
    ensures res == EncodeTexts(arr)
  {
    var bytes: Bytes := [];
    for i := 0 to |arr|
      invariant EncodeTexts(arr[..i]) == Some(bytes)
    {
      assert arr[..i + 1][..i] == arr[..i];
      var b := EncodeString(arr[i]);
      if b.None? {
        TextsFail(arr, i);
        return None;
      }
      bytes := bytes + b.value;
    }
    assert arr[..|arr|] == arr;
    res := Some(bytes);
  }

  lemma {:induction false} TextsFail(ts: seq<Bytes>, i: nat)
    requires i < |ts| && EncodeString(ts[i]).None?
    ensures EncodeTexts(ts).None?
    decreases |ts|
  {
    if i < |ts| - 1 {
      TextsFail(ts[..|ts| - 1], i);
    }
  }

  method EncodeAddressArray(arr: seq<Bytes>) returns (res: Bytes)
    ensures res == Concat(arr)
  {
    res := [];
    for i := 0 to |arr|
      invariant res == Concat(arr[..i])
    {
      assert arr[..i + 1][..i] == arr[..i];
      res := res + arr[i];
    }
    assert arr[..|arr|] == arr;
  }

  method EncodePacked(values: seq<Value>) returns (res: Option<Bytes>)
    ensures res == EncodeAll(values)
  {
    var bytes: Bytes := [];
    for i := 0 to |values|
      invariant EncodeAll(values[..i]) == Some(bytes)
    {
      assert values[..i + 1][..i] == values[..i];
      var v := values[i];
      match v {
        case Text(s) =>
          var b := EncodeString(s);
          if b.None? {
            EncodeFails(values, i);
            return None;
          }
          bytes := bytes + b.value;
        case Texts(ts) =>
          var b := EncodeStringArray(ts);
          if b.None? {
            EncodeFails(values, i);
            return None;
          }
          bytes := bytes + b.value;
        case Raw(b) => bytes := bytes + b;
        case Address(b) => bytes := bytes + b;
        case Addresses(bs) =>
          var b := EncodeAddressArray(bs);
          bytes := bytes + b;
        case Number(n) => bytes := bytes + U256Bytes(n);
        case Numbers(ns) =>
          var b := EncodeBigIntArray(ns);
          bytes := bytes + b;
        case OneHash(h) => bytes := bytes + HashBytes(h);
        case Hashes(hs) =>
          var b := EncodeHashArray(hs);
          bytes := bytes + b;
      }
    }
    assert values[..|values|] == values;
    res := Some(bytes);
  }

  lemma {:induction false} EncodeFails(vs: seq<Value>, i: nat)
    requires i < |vs| && EncodeValue(vs[i]).None?
    ensures EncodeAll(vs).None?
    decreases |vs|
  {
    if i < |vs| - 1 {
      EncodeFails(vs[..|vs| - 1], i);
    }
  }

  // ---------- Messages ----------

  datatype MintParameter = MintParameter(btcTxId: Hash, receiver: Bytes, amount: int)

  datatype PrepareParameter = PrepareParameter(
    request: Hash, requester: Bytes, receiver: Bytes, amount: int, txIds: seq<Hash>, idxs: seq<uint16>)

  function MintMessage(p: MintParameter): Option<Bytes> {
    EncodeAll([OneHash(p.btcTxId), Raw(p.receiver), Number(p.amount)])
  }

  function PrepareMessage(p: PrepareParameter): Option<Bytes> {
    EncodeAll([OneHash(p.request), Raw(p.requester), Text(p.receiver), Number(p.amount), Hashes(p.txIds), Numbers(p.idxs)])
  }

  predicate ValidAmount(n: int) {
    0 <= n < TWO_256
  }

  lemma MintLayout(p: MintParameter)
    ensures MintMessage(p) == Some(HashBytes(p.btcTxId) + p.receiver + U256Bytes(p.amount))
  {
    var v0, v1, v2 := OneHash(p.btcTxId), Raw(p.receiver), Number(p.amount);
    EncodeSnoc([v0, v1], v2);
    EncodeSnoc([v0], v1);
    EncodeFirst(v0);
    assert [v0] + [v1] == [v0, v1] && [v0, v1] + [v2] == [v0, v1, v2];
  }

  /** The words after the receiver: amount, transaction ids, indices, 32 bytes each. */
  function Words(p: PrepareParameter): (ws: seq<Hash>)
    requires ValidAmount(p.amount)
    ensures |ws| == 1 + |p.txIds| + |p.idxs|
  {
    [p.amount] + p.txIds + IndexWords(p.idxs)
  }

  function IndexWords(idxs: seq<uint16>): (ws: seq<Hash>)
    ensures |ws| == |idxs| && forall i :: 0 <= i < |ws| ==> ws[i] == idxs[i]
  {
    seq(|idxs|, i requires 0 <= i < |idxs| => idxs[i])
  }

  /** The message for a receiver that goes in as it is. */
  function Body(p: PrepareParameter): Bytes
    requires ValidAmount(p.amount)
  {
    HashBytes(p.request) + p.requester + p.receiver + EncodeHashes(Words(p))
  }

  lemma {:induction false} EncodeHashesConcat(a: seq<Hash>, b: seq<Hash>)
    ensures EncodeHashes(a + b) == EncodeHashes(a) + EncodeHashes(b)
  {
    if b == [] {
      assert a + b == a;
    } else {
      var last := |b| - 1;
      assert (a + b)[..|a + b| - 1] == a + b[..last];
      EncodeHashesConcat(a, b[..last]);
    }
  }

  lemma {:induction false} NumbersAreWords(idxs: seq<uint16>)
    ensures var ns: seq<int> := idxs; EncodeNumbers(ns) == EncodeHashes(IndexWords(idxs))
  {
    if idxs != [] {
      var ns: seq<int>, last := idxs, |idxs| - 1;
      NumbersAreWords(idxs[..last]);
      var front: seq<int> := idxs[..last];
      assert ns[..last] == front && IndexWords(idxs)[..last] == IndexWords(idxs[..last]);
      assert idxs[last] % TWO_256 == idxs[last];
    }
  }

  lemma AmountIsWord(n: int)
    requires ValidAmount(n)
    ensures U256Bytes(n) == EncodeHashes([n])
  {
    assert n % TWO_256 == n;
    var h: Hash := n;
    assert [h][..0] == [];
  }

  /** The parameters with the receiver as it is encoded. */
  function Decoded(p: PrepareParameter): PrepareParameter
    requires EncodeString(p.receiver).Some?
  {
    p.(receiver := EncodeString(p.receiver).value)
  }

  lemma EncodeThree(v0: Value, v1: Value, v2: Value)
    requires EncodeValue(v0).Some? && EncodeValue(v1).Some?
    ensures EncodeAll([v0, v1, v2]) ==
            if EncodeValue(v2).None? then None
            else Some(EncodeValue(v0).value + EncodeValue(v1).value + EncodeValue(v2).value)
  {
    EncodeFirst(v0);
    EncodeSnoc([v0], v1);
    EncodeSnoc([v0, v1], v2);
    assert [v0] + [v1] == [v0, v1] && [v0, v1] + [v2] == [v0, v1, v2];
  }

  lemma EncodeThreeMore(vs: seq<Value>, v3: Value, v4: Value, v5: Value)
    requires EncodeValue(v3).Some? && EncodeValue(v4).Some? && EncodeValue(v5).Some?
    ensures EncodeAll(vs + [v3, v4, v5]) ==
            if EncodeAll(vs).None? then None
            else Some(EncodeAll(vs).value + (EncodeValue(v3).value + EncodeValue(v4).value + EncodeValue(v5).value))
  {
    EncodeSnoc(vs, v3);
    EncodeSnoc(vs + [v3], v4);
    EncodeSnoc(vs + [v3] + [v4], v5);
    assert vs + [v3] + [v4] + [v5] == vs + [v3, v4, v5];
    if EncodeAll(vs).Some? {
      var a, b, c := EncodeValue(v3).value, EncodeValue(v4).value, EncodeValue(v5).value;
      Associate(EncodeAll(vs).value, a, b, c);
    }
  }

  lemma Associate(a: Bytes, b: Bytes, c: Bytes, d: Bytes)
    ensures a + b + c + d == a + (b + c + d)
  {
  }

  lemma PrepareLayout(p: PrepareParameter)
    requires ValidAmount(p.amount)
    ensures PrepareMessage(p) == if EncodeString(p.receiver).None? then None else Some(Body(Decoded(p)))
  {
    var ns: seq<int> := p.idxs;
    var v0, v1, v2 := OneHash(p.request), Raw(p.requester), Text(p.receiver);
    var v3, v4, v5 := Number(p.amount), Hashes(p.txIds), Numbers(ns);
    EncodeThree(v0, v1, v2);
    EncodeThreeMore([v0, v1, v2], v3, v4, v5);
    assert [v0, v1, v2] + [v3, v4, v5] == [v0, v1, v2, v3, v4, v5];
    WordsLayout(p);
  }

  lemma WordsLayout(p: PrepareParameter)
    requires ValidAmount(p.amount)
    ensures var ns: seq<int> := p.idxs;
            EncodeHashes(Words(p)) == U256Bytes(p.amount) + EncodeHashes(p.txIds) + EncodeNumbers(ns)
  {
    AmountIsWord(p.amount);
    NumbersAreWords(p.idxs);
    var h: Hash := p.amount;
    EncodeHashesConcat([h], p.txIds);
    EncodeHashesConcat([h] + p.txIds, IndexWords(p.idxs));
  }

  lemma EncodeFirst(v: Value)
    ensures EncodeAll([v]) == EncodeValue(v)
  {
    assert [v][..0] == [];
    if EncodeValue(v).Some? {
      assert [] + EncodeValue(v).value == EncodeValue(v).value;
    }
  }

  lemma EncodeSnoc(vs: seq<Value>, v: Value)
    ensures EncodeAll(vs + [v]) ==
            var front, last := EncodeAll(vs), EncodeValue(v);
            if front.None? || last.None? then None else Some(front.value + last.value)
  {
  }

  // ---------- Injectivity ----------

  lemma U256Injective(m: int, n: int)
    requires ValidAmount(m) && ValidAmount(n) && U256Bytes(m) == U256Bytes(n)
    ensures m == n
  {
    assert m % TWO_256 == m && n % TWO_256 == n;
    HashBytesInjective(m, n);
  }

  lemma {:induction false} HashesInjective(a: seq<Hash>, b: seq<Hash>)
    requires EncodeHashes(a) == EncodeHashes(b)
    ensures a == b
    decreases |a|
  {
    assert |a| == |b|;
    if a != [] {
      var last := |a| - 1;
      SplitEqual(EncodeHashes(a[..last]), HashBytes(a[last]), EncodeHashes(b[..last]), HashBytes(b[last]));
      HashesInjective(a[..last], b[..last]);
      HashBytesInjective(a[last], b[last]);
      assert a == a[..last] + [a[last]] && b == b[..last] + [b[last]];
    }
  }

  lemma SplitEqual(a: Bytes, b: Bytes, c: Bytes, d: Bytes)
    requires a + b == c + d && |a| == |c|
    ensures a == c && b == d
  {
    assert (a + b)[..|a|] == a && (c + d)[..|c|] == c;
    assert (a + b)[|a|..] == b && (c + d)[|c|..] == d;
  }

  /** The mint message determines its parameters, for receivers of any length. */
  lemma MintInjective(p: MintParameter, q: MintParameter)
    requires ValidAmount(p.amount) && ValidAmount(q.amount)
    requires MintMessage(p) == MintMessage(q)
    ensures p == q
  {
    MintLayout(p);
    MintLayout(q);
    var pf, qf := HashBytes(p.btcTxId) + p.receiver, HashBytes(q.btcTxId) + q.receiver;
    assert |pf + U256Bytes(p.amount)| == |qf + U256Bytes(q.amount)|;
    SplitEqual(pf, U256Bytes(p.amount), qf, U256Bytes(q.amount));
    SplitEqual(HashBytes(p.btcTxId), p.receiver, HashBytes(q.btcTxId), q.receiver);
    HashBytesInjective(p.btcTxId, q.btcTxId);
    U256Injective(p.amount, q.amount);
  }

  // ---------- The prepare message, exactly ----------

  /** Outpoint lists of equal length, an amount that fits. */
  predicate Sound(p: PrepareParameter) {
    |p.txIds| == |p.idxs| && ValidAmount(p.amount)
  }

  /** The parameters with the first 2 * d words read as part of the receiver. */
  function Shifted(p: PrepareParameter, d: nat): (q: PrepareParameter)
    requires Sound(p) && d <= |p.idxs|
    ensures Sound(q) && |q.idxs| == |p.idxs| - d && |q.receiver| == |p.receiver| + 64 * d
  {
    var ws := Words(p);
    PrepareParameter(p.request, p.requester, p.receiver + EncodeHashes(ws[..2 * d]), ws[2 * d],
                     ws[2 * d + 1..|p.idxs| + d + 1], p.idxs[d..])
  }

  lemma SplitWords(ws: seq<Hash>, a: nat, b: nat)
    requires a < b <= |ws|
    ensures ws[a..] == [ws[a]] + ws[a + 1..b] + ws[b..]
  {
  }

  lemma LastWords(p: PrepareParameter, d: nat)
    requires Sound(p) && d <= |p.idxs|
    ensures IndexWords(p.idxs[d..]) == Words(p)[|p.idxs| + d + 1..]
  {
  }

  lemma ShiftedWords(p: PrepareParameter, d: nat)
    requires Sound(p) && d <= |p.idxs|
    ensures Words(Shifted(p, d)) == Words(p)[2 * d..]
  {
    LastWords(p, d);
    SplitWords(Words(p), 2 * d, |p.idxs| + d + 1);
  }

  lemma ShiftedBody(p: PrepareParameter, d: nat)
    requires Sound(p) && d <= |p.idxs|
    ensures Body(Shifted(p, d)) == Body(p)
  {
    var ws, front := Words(p), HashBytes(p.request) + p.requester;
    var xs, ys := ws[..2 * d], ws[2 * d..];
    ShiftedWords(p, d);
    assert ws == xs + ys;
    EncodeHashesConcat(xs, ys);
    Regroup(front, p.receiver, EncodeHashes(xs), EncodeHashes(ys));
  }

  lemma Regroup(a: Bytes, b: Bytes, c: Bytes, d: Bytes)
    ensures a + (b + c) + d == a + b + (c + d)
  {
  }

  lemma ShiftedByNone(p: PrepareParameter)
    requires Sound(p)
    ensures Shifted(p, 0) == p
  {
    assert Words(p)[1..|p.idxs| + 1] == p.txIds && EncodeHashes(Words(p)[..0]) == [];
  }

  lemma WordsInjective(p: PrepareParameter, q: PrepareParameter)
    requires Sound(p) && Sound(q) && Words(p) == Words(q)
    ensures p.amount == q.amount && p.txIds == q.txIds && p.idxs == q.idxs
  {
    var ps, qs, n := Words(p), Words(q), |p.txIds|;
    assert |p.txIds| == |q.txIds|;
    assert p.amount == ps[0] && q.amount == qs[0];
    assert p.txIds == ps[1..n + 1] && q.txIds == qs[1..n + 1];
    forall i | 0 <= i < n ensures p.idxs[i] == q.idxs[i] {
      assert p.idxs[i] == ps[1 + n + i] && q.idxs[i] == qs[1 + n + i];
    }
  }

  lemma BodyInjective(p: PrepareParameter, q: PrepareParameter)
    requires Sound(p) && Sound(q) && |p.requester| == |q.requester| && |p.receiver| == |q.receiver|
    requires Body(p) == Body(q)
    ensures p == q
  {
    var p1, q1 := HashBytes(p.request) + p.requester, HashBytes(q.request) + q.requester;
    SplitEqual(p1 + p.receiver, EncodeHashes(Words(p)), q1 + q.receiver, EncodeHashes(Words(q)));
    SplitEqual(p1, p.receiver, q1, q.receiver);
    SplitEqual(HashBytes(p.request), p.requester, HashBytes(q.request), q.requester);
    HashBytesInjective(p.request, q.request);
    HashesInjective(Words(p), Words(q));
    WordsInjective(p, q);
  }

  /** q is p with words moved into the receiver. */
  predicate IsShift(p: PrepareParameter, q: PrepareParameter)
    requires Sound(p)
  {
    |q.idxs| <= |p.idxs| && q == Shifted(p, |p.idxs| - |q.idxs|)
  }

  lemma BodyEqualIff(p: PrepareParameter, q: PrepareParameter)
    requires Sound(p) && Sound(q) && |p.requester| == |q.requester| && |p.receiver| <= |q.receiver|
    ensures Body(p) == Body(q) <==> IsShift(p, q)
  {
    if |q.idxs| <= |p.idxs| {
      ShiftedBody(p, |p.idxs| - |q.idxs|);
    }
    if Body(p) == Body(q) {
      assert |Body(p)| == 64 + |p.requester| + |p.receiver| + 64 * |p.idxs|;
      assert |Body(q)| == 64 + |q.requester| + |q.receiver| + 64 * |q.idxs|;
      BodyInjective(Shifted(p, |p.idxs| - |q.idxs|), q);
    }
  }

  /** When two messages are equal, exactly, for requesters of one length: the one with the longer receiver is the
      other one with words moved into the receiver, both receivers taken as they are encoded. */
  lemma PrepareEqualIff(p: PrepareParameter, q: PrepareParameter)
    requires Sound(p) && Sound(q) && |p.requester| == |q.requester|
    requires EncodeString(p.receiver).Some? && EncodeString(q.receiver).Some?
    requires |Decoded(p).receiver| <= |Decoded(q).receiver|
    ensures PrepareMessage(p) == PrepareMessage(q) <==> IsShift(Decoded(p), Decoded(q))
  {
    MessagesAreBodies(p, q);
    BodyEqualIff(Decoded(p), Decoded(q));
  }

  lemma MessagesAreBodies(p: PrepareParameter, q: PrepareParameter)
    requires ValidAmount(p.amount) && ValidAmount(q.amount)
    requires EncodeString(p.receiver).Some? && EncodeString(q.receiver).Some?
    ensures PrepareMessage(p) == PrepareMessage(q) <==> Body(Decoded(p)) == Body(Decoded(q))
  {
    PrepareLayout(p);
    PrepareLayout(q);
  }

  /** Lengths of encoded receivers between which no word can move. */
  predicate Unambiguous(m: nat, n: nat) {
    m == n || (m - n) % 64 != 0
  }

  /** For all receivers that can be encoded, of unambiguous lengths: messages are equal exactly when all other
      fields agree and the receivers are encoded alike. */
  lemma PrepareDecides(p: PrepareParameter, q: PrepareParameter)
    requires Sound(p) && Sound(q) && |p.requester| == |q.requester|
    requires EncodeString(p.receiver).Some? && EncodeString(q.receiver).Some?
    requires Unambiguous(|Decoded(p).receiver|, |Decoded(q).receiver|)
    ensures PrepareMessage(p) == PrepareMessage(q) <==>
            p.(receiver := []) == q.(receiver := []) && EncodeString(p.receiver) == EncodeString(q.receiver)
  {
    if |Decoded(p).receiver| <= |Decoded(q).receiver| {
      DecidesOneWay(p, q);
    } else {
      DecidesOneWay(q, p);
    }
  }

  lemma DecidesOneWay(p: PrepareParameter, q: PrepareParameter)
    requires Sound(p) && Sound(q) && |p.requester| == |q.requester|
    requires EncodeString(p.receiver).Some? && EncodeString(q.receiver).Some?
    requires |Decoded(p).receiver| <= |Decoded(q).receiver|
    requires Unambiguous(|Decoded(p).receiver|, |Decoded(q).receiver|)
    ensures PrepareMessage(p) == PrepareMessage(q) <==>
            p.(receiver := []) == q.(receiver := []) && EncodeString(p.receiver) == EncodeString(q.receiver)
  {
    PrepareEqualIff(p, q);
    ShiftedByNone(Decoded(p));
    if PrepareMessage(p) == PrepareMessage(q) {
      var d := |p.idxs| - |q.idxs|;
      assert |Decoded(q).receiver| - |Decoded(p).receiver| == 64 * d;
      assert (|Decoded(p).receiver| - |Decoded(q).receiver|) % 64 == 0;
      assert Decoded(p).(receiver := []) == p.(receiver := []) && Decoded(q).(receiver := []) == q.(receiver := []);
    }
  }

  /** The prepare message determines its parameters among requesters of one length and receivers of unambiguous
      lengths that are not read as hex; in particular for all such receivers shorter than 64 bytes. */
  lemma PrepareInjective(p: PrepareParameter, q: PrepareParameter)
    requires Sound(p) && Sound(q) && |p.requester| == |q.requester|
    requires !HasHexPrefix(p.receiver) && !HasHexPrefix(q.receiver) && Unambiguous(|p.receiver|, |q.receiver|)
    requires PrepareMessage(p) == PrepareMessage(q)
    ensures p == q
  {
    PrepareDecides(p, q);
    assert p == p.(receiver := []).(receiver := p.receiver) && q == q.(receiver := []).(receiver := q.receiver);
  }

  /** Every message with an outpoint is also the message of other parameters, with one outpoint less and a receiver
      that is 64 bytes longer, unless that receiver starts with "0x". */
  lemma PrepareCollision(p: PrepareParameter)
    requires Sound(p) && p.idxs != [] && !HasHexPrefix(p.receiver)
    requires !HasHexPrefix(p.receiver + U256Bytes(p.amount) + HashBytes(p.txIds[0]))
    ensures var q := Shifted(p, 1);
            && q.receiver == p.receiver + U256Bytes(p.amount) + HashBytes(p.txIds[0])
            && q != p && |q.idxs| == |p.idxs| - 1 && PrepareMessage(q) == PrepareMessage(p)
  {
    var q, ws := Shifted(p, 1), Words(p);
    assert ws[..2] == [ws[0]] + [ws[1]];
    EncodeHashesConcat([ws[0]], [ws[1]]);
    AmountIsWord(p.amount);
    assert [ws[1]][..0] == [];
    assert q.receiver == p.receiver + U256Bytes(p.amount) + HashBytes(p.txIds[0]);
    ShiftedBody(p, 1);
    PrepareLayout(p);
    PrepareLayout(q);
  }

  /** What the bridge may really be asked to sign: at least one outpoint, no zero transaction id, an amount of 63
      bits, a receiver that is not read as hex. */
  predicate Payable(p: PrepareParameter) {
    && Sound(p) && p.idxs != [] && 0 < p.amount < 0x8000_0000_0000_0000 && !HasHexPrefix(p.receiver)
    && forall t :: t in p.txIds ==> t != ZERO_HASH
  }

  /** Different payable parameters with requesters of length l, receivers of lengths m and n, and one message. */
  predicate Collide(p: PrepareParameter, q: PrepareParameter, l: nat, m: nat, n: nat) {
    && Payable(p) && Payable(q) && p != q && |p.requester| == |q.requester| == l
    && |p.receiver| == m && |q.receiver| == n
    && PrepareMessage(p) == PrepareMessage(q)
  }

  /** Parameters of ones: n outpoints, a receiver of m letters. */
  function Ones(l: nat, m: nat, n: nat): (p: PrepareParameter)
    ensures Sound(p) && |p.idxs| == n && |p.requester| == l && |p.receiver| == m
    ensures forall w :: w in Words(p) ==> w == 1
  {
    PrepareParameter(1, seq(l, i => 0), seq(m, i => 0x61), 1, seq(n, i => 1), seq(n, i => 1))
  }

  lemma {:induction false} LeadingZero(width: nat)
    requires width > 0
    ensures BigEndian(0, width)[0] == 0
  {
    if width > 1 {
      LeadingZero(width - 1);
    } else {
      assert BigEndian(0, 0) == [];
    }
  }

  lemma OnesStartWithZero(ws: seq<Hash>)
    requires ws != [] && ws[0] == 1
    ensures EncodeHashes(ws)[0] == 0
  {
    assert ws == [ws[0]] + ws[1..];
    EncodeHashesConcat([ws[0]], ws[1..]);
    LeadingZero(31);
    assert [ws[0]][..0] == [];
    assert HashBytes(1) == BigEndian(0, 31) + [1];
  }

  lemma ShiftedOnesPayable(l: nat, m: nat, d: nat)
    requires d > 0
    ensures Payable(Shifted(Ones(l, m, d + 1), d))
  {
    var p := Ones(l, m, d + 1);
    var q, ws := Shifted(p, d), Words(p);
    assert ws[2 * d] in ws;
    forall t | t in q.txIds ensures t != ZERO_HASH { assert t in ws; }
    assert ws[..2 * d][0] in ws;
    OnesStartWithZero(ws[..2 * d]);
    assert q.receiver[0] == if m > 0 then 0x61 else EncodeHashes(ws[..2 * d])[0];
  }

  lemma PlainMessage(p: PrepareParameter)
    requires ValidAmount(p.amount) && !HasHexPrefix(p.receiver)
    ensures PrepareMessage(p) == Some(Body(p))
  {
    PrepareLayout(p);
    assert Decoded(p) == p;
  }

  lemma ShiftCollides(p: PrepareParameter, d: nat)
    requires Payable(p) && 0 < d <= |p.idxs| && Payable(Shifted(p, d))
    ensures Collide(p, Shifted(p, d), |p.requester|, |p.receiver|, |p.receiver| + 64 * d)
  {
    ShiftedBody(p, d);
    PlainMessage(p);
    PlainMessage(Shifted(p, d));
  }

  lemma ShiftedOnes(l: nat, m: nat, d: nat)
    requires d > 0
    ensures var p := Ones(l, m, d + 1); Collide(p, Shifted(p, d), l, m, m + 64 * d)
  {
    ShiftedOnesPayable(l, m, d);
    ShiftCollides(Ones(l, m, d + 1), d);
  }

  lemma CollisionNeedsWords(p: PrepareParameter, q: PrepareParameter, l: nat, m: nat, n: nat)
    requires Collide(p, q, l, m, n)
    ensures !Unambiguous(m, n)
  {
    if Unambiguous(m, n) {
      PrepareInjective(p, q);
    }
  }

  lemma WordsCollide(l: nat, m: nat, n: nat) returns (p: PrepareParameter, q: PrepareParameter)
    requires m < n && (n - m) % 64 == 0
    ensures Collide(p, q, l, m, n)
  {
    var d: nat := (n - m) / 64;
    ShiftedOnes(l, m, d);
    p, q := Ones(l, m, d + 1), Shifted(Ones(l, m, d + 1), d);
  }

  /** Two receiver lengths can collide exactly when they differ by a multiple of 64, whatever the length of the
      requester. */
  lemma CollidingLengths(l: nat, m: nat, n: nat)
    ensures (exists p, q :: Collide(p, q, l, m, n)) <==> m != n && (m - n) % 64 == 0
  {
    forall p, q | Collide(p, q, l, m, n) ensures !Unambiguous(m, n) {
      CollisionNeedsWords(p, q, l, m, n);
    }
    if m < n && (m - n) % 64 == 0 {
      var p, q := WordsCollide(l, m, n);
    } else if m > n && (m - n) % 64 == 0 {
      var p, q := WordsCollide(l, n, m);
      assert Collide(q, p, l, m, n);
    }
  }

  // ---------- Receivers that are read as hex ----------

  predicate IsHex(s: Bytes) {
    |s| % 2 == 0 && forall i :: 0 <= i < |s| ==> HexDigit(s[i]).Some?
  }

  function Lower(c: byte): byte {
    if 0x41 <= c <= 0x5a then c + 32 else c
  }

  predicate SameUpToCase(a: Bytes, b: Bytes) {
    |a| == |b| && forall i :: 0 <= i < |a| ==> Lower(a[i]) == Lower(b[i])
  }

  lemma {:induction false} HexDecodes(s: Bytes)
    ensures HexDecode(s).Some? <==> IsHex(s)
    ensures HexDecode(s).Some? ==> 2 * |HexDecode(s).value| == |s|
  {
    if |s| >= 2 {
      HexDecodes(s[2..]);
      assert forall i :: 2 <= i < |s| ==> s[i] == s[2..][i - 2];
    }
  }

  lemma SameDigit(c: byte, d: byte)
    requires HexDigit(c).Some? && HexDigit(d).Some?
    ensures HexDigit(c) == HexDigit(d) <==> Lower(c) == Lower(d)
  {
  }

  lemma PairInjective(a: byte, b: byte, c: byte, d: byte)
    requires a < 16 && b < 16 && c < 16 && d < 16
    ensures Pair(a, b) == Pair(c, d) <==> a == c && b == d
  {
  }

  lemma SamePair(a: Bytes, b: Bytes)
    requires |a| >= 2 && |b| >= 2 && HexDecode(a).Some? && HexDecode(b).Some?
    ensures HexDecode(a) == HexDecode(b) <==>
            HexDigit(a[0]) == HexDigit(b[0]) && HexDigit(a[1]) == HexDigit(b[1]) && HexDecode(a[2..]) == HexDecode(b[2..])
  {
    var c, d, e, f := HexDigit(a[0]).value, HexDigit(a[1]).value, HexDigit(b[0]).value, HexDigit(b[1]).value;
    PairInjective(c, d, e, f);
    SplitEqualIff([Pair(c, d)], HexDecode(a[2..]).value, [Pair(e, f)], HexDecode(b[2..]).value);
  }

  lemma SplitEqualIff(a: Bytes, b: Bytes, c: Bytes, d: Bytes)
    requires |a| == |c|
    ensures a + b == c + d <==> a == c && b == d
  {
    if a + b == c + d {
      SplitEqual(a, b, c, d);
    }
  }

  lemma CaseOfRest(a: Bytes, b: Bytes)
    requires |a| == |b| >= 2
    ensures SameUpToCase(a, b) <==> Lower(a[0]) == Lower(b[0]) && Lower(a[1]) == Lower(b[1]) && SameUpToCase(a[2..], b[2..])
  {
    assert forall i :: 2 <= i < |a| ==> a[i] == a[2..][i - 2] && b[i] == b[2..][i - 2];
  }

  lemma HexRest(a: Bytes)
    requires IsHex(a) && |a| >= 2
    ensures HexDigit(a[0]).Some? && HexDigit(a[1]).Some? && IsHex(a[2..])
  {
    assert forall i :: 0 <= i < |a| - 2 ==> a[2..][i] == a[i + 2];
  }

  lemma HexStep(a: Bytes, b: Bytes)
    requires IsHex(a) && IsHex(b) && |a| == |b| >= 2
    requires HexDecode(a[2..]) == HexDecode(b[2..]) <==> SameUpToCase(a[2..], b[2..])
    ensures HexDecode(a) == HexDecode(b) <==> SameUpToCase(a, b)
  {
    HexDecodes(a);
    HexDecodes(b);
    SamePair(a, b);
    CaseOfRest(a, b);
    HexRest(a);
    HexRest(b);
    SameDigit(a[0], b[0]);
    SameDigit(a[1], b[1]);
  }

  /** Hex texts decode alike exactly when they agree up to the case of their letters. */
  lemma {:induction false} HexEqualIff(a: Bytes, b: Bytes)
    requires IsHex(a) && IsHex(b)
    ensures HexDecode(a) == HexDecode(b) <==> SameUpToCase(a, b)
  {
    if |a| != |b| {
      HexDecodes(a);
      HexDecodes(b);
    } else if |a| >= 2 {
      HexRest(a);
      HexRest(b);
      HexEqualIff(a[2..], b[2..]);
      HexStep(a, b);
    }
  }

  /** There is no message, and the program ends, exactly when the receiver starts with "0x" and no hex follows. */
  lemma MessageFailsIff(p: PrepareParameter)
    requires ValidAmount(p.amount)
    ensures PrepareMessage(p).None? <==> HasHexPrefix(p.receiver) && !IsHex(p.receiver[2..])
  {
    PrepareLayout(p);
    if HasHexPrefix(p.receiver) {
      HexDecodes(p.receiver[2..]);
    }
  }

  /** Receivers that start with "0x" give one message exactly when they agree up to the case of their letters. */
  lemma HexReceiversCollideIff(p: PrepareParameter, a: Bytes, b: Bytes)
    requires Sound(p) && HasHexPrefix(a) && HasHexPrefix(b) && IsHex(a[2..]) && IsHex(b[2..])
    ensures PrepareMessage(p.(receiver := a)) == PrepareMessage(p.(receiver := b)) <==> SameUpToCase(a, b)
  {
    var q, r := p.(receiver := a), p.(receiver := b);
    HexDecodes(a[2..]);
    HexDecodes(b[2..]);
    MessagesAreBodies(q, r);
    HexEqualIff(a[2..], b[2..]);
    assert Words(Decoded(q)) == Words(p) == Words(Decoded(r));
    if Body(Decoded(q)) == Body(Decoded(r)) {
      BodyInjective(Decoded(q), Decoded(r));
    }
    if |a| == |b| {
      CaseOfRest(a, b);
    }
  }

  /** `PrepareParameter.GenerateMsgHash` up to the hash: the indices become big integers one by one. */
  method PreparePreimage(p: PrepareParameter) returns (message: Option<Bytes>)
    ensures message == PrepareMessage(p)
  {
    var outpointIdxs: seq<int> := [];
    for i := 0 to |p.idxs|
      invariant outpointIdxs == p.idxs[..i]
    {
      outpointIdxs := outpointIdxs + [p.idxs[i]];
    }
    assert p.idxs[..|p.idxs|] == p.idxs;
    message := EncodePacked([OneHash(p.request), Raw(p.requester), Text(p.receiver), Number(p.amount), Hashes(p.txIds), Numbers(outpointIdxs)]);
  }

  /** `ConvertOutpoints` */
  method ConvertOutpoints(bop: seq<BtcOutpoint>) returns (txIds: seq<Hash>, idxs: seq<uint16>)
    ensures |txIds| == |idxs| == |bop|
    ensures forall i :: 0 <= i < |bop| ==> BtcOutpoint(txIds[i], idxs[i]) == bop[i]
  {
    txIds, idxs := [], [];
    for i := 0 to |bop|
      invariant |txIds| == |idxs| == i
      invariant forall j :: 0 <= j < i ==> BtcOutpoint(txIds[j], idxs[j]) == bop[j]
    {
      txIds := txIds + [bop[i].txId];
      idxs := idxs + [bop[i].idx];
    }
  }
}

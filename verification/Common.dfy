/** Types shared by the components of the bridge. */
module Common {

  datatype Option<+T> = None | Some(value: T)

  datatype Result<+T, +E> = Ok(value: T) | Err(error: E)

  const TWO_256: int := 0x1_0000000000000000_0000000000000000_0000000000000000_0000000000000000

  /** A 32-byte hash, read as a big-endian number. */
  type Hash = h: int | 0 <= h < TWO_256

  const ZERO_HASH: Hash := 0

  type byte = b: int | 0 <= b < 256

  type uint16 = n: int | 0 <= n < 0x1_0000

  /** How the shared state and the chain name a Bitcoin output. */
  datatype BtcOutpoint = BtcOutpoint(txId: Hash, idx: uint16)

  /** How the vault names a Bitcoin output: the primary key (tx_id, vout) of its table. */
  datatype Key = Key(txId: Hash, vout: int)

  /** The conversion `uint16(utxo.Vout)` keeps the low 16 bits. */
  function ToOutpoint(k: Key): BtcOutpoint {
    BtcOutpoint(k.txId, k.vout % 0x1_0000)
  }

  function ToKey(o: BtcOutpoint): Key {
    Key(o.txId, o.idx)
  }

  ghost predicate Distinct<T>(s: seq<T>) {
    forall i, j :: 0 <= i < j < |s| ==> s[i] != s[j]
  }

  ghost function Elements<T>(s: seq<T>): set<T> {
    set x | x in s
  }

  function Pow256(n: nat): (p: int)
    ensures p > 0
  {
    if n == 0 then 1 else 256 * Pow256(n - 1)
  }

  lemma {:induction false} Pow256Sum(m: nat, n: nat)
    ensures Pow256(m + n) == Pow256(m) * Pow256(n)
  {
    if m > 0 {
      Pow256Sum(m - 1, n);
    }
  }

  /** The low `width` bytes of n, most significant first. */
  function BigEndian(n: nat, width: nat): (b: seq<byte>)
    ensures |b| == width
  {
    if width == 0 then [] else BigEndian(n / 256, width - 1) + [n % 256]
  }

  function FromBigEndian(b: seq<byte>): nat {
    if b == [] then 0 else 256 * FromBigEndian(b[..|b| - 1]) + b[|b| - 1]
  }

  lemma {:induction false} BigEndianRoundTrip(n: nat, width: nat)
    requires n < Pow256(width)
    ensures FromBigEndian(BigEndian(n, width)) == n
  {
    if width > 0 {
      BigEndianRoundTrip(n / 256, width - 1);
      assert BigEndian(n, width)[..width - 1] == BigEndian(n / 256, width - 1);
    }
  }

  lemma MultipleIsFar(d: int, e: int)
    requires d >= 0
    ensures e >= 1 ==> d * e >= d
    ensures e <= -1 ==> d * e <= -d
  {
  }

  lemma QuotientIs(n: nat, d: nat, q: nat, r: nat)
    requires r < d && n == d * q + r
    ensures n / d == q
  {
    var e: int := n / d - q;
    assert d * e == d * (n / d) - d * q;
    MultipleIsFar(d, e);
  }

  lemma DivideTwice(n: nat, p: nat)
    requires p > 0
    ensures n / (256 * p) == n / 256 / p
  {
    var m, q := n / 256, n / 256 / p;
    var r := m - p * q;
    assert 0 <= r < p;
    assert n == 256 * (p * q + r) + n % 256;
    assert 256 * (p * q) == (256 * p) * q;
    QuotientIs(n, 256 * p, q, 256 * r + n % 256);
  }

  /** Byte i from the left is the digit of 256 to the number of bytes right of it. */
  lemma {:induction false} BigEndianAt(n: nat, width: nat, i: nat)
    requires i < width
    ensures BigEndian(n, width)[i] == n / Pow256(width - 1 - i) % 256
    decreases width
  {
    if i < width - 1 {
      BigEndianAt(n / 256, width - 1, i);
      DivideTwice(n, Pow256(width - 2 - i));
      assert Pow256(width - 1 - i) == 256 * Pow256(width - 2 - i);
    } else {
      assert Pow256(0) == 1;
    }
  }

  const WORD: nat := 32

  function HashBytes(h: Hash): (b: seq<byte>)
    ensures |b| == 32
  {
    BigEndian(h, WORD)
  }

  lemma Pow256Of32()
    ensures Pow256(32) == TWO_256
  {
    Pow256Sum(8, 8);
    Pow256Sum(16, 16);
    assert Pow256(4) == 0x1_0000_0000 && Pow256(8) == 0x1_0000_0000_0000_0000;
  }

  lemma HashBytesInjective(h: Hash, g: Hash)
    requires HashBytes(h) == HashBytes(g)
    ensures h == g
  {
    Pow256Of32();
    BigEndianRoundTrip(h, 32);
    BigEndianRoundTrip(g, 32);
  }
}

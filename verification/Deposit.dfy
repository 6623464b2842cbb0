/** Deposits: building the outputs, recognising them, and the OP_RETURN data in RLP. */
module Deposit {
  import opened Common
  import opened Assembler

  type Bytes = seq<byte>

  /** `EVM_CHAIN_ID [4]byte` and `EVM_ADDR [20]byte` */
  datatype DepositData = DepositData(chainId: Bytes, address: Bytes)

  predicate Sized(d: DepositData) {
    |d.chainId| == 4 && |d.address| == 20
  }

  const MAX_CHAIN_ID: int := 4294967295

  // ---------- Integers ----------

  method IntToByteArray(n: int) returns (r: Option<array<byte>>)
    ensures r.Some? <==> 0 <= n <= MAX_CHAIN_ID
    ensures r.Some? ==> fresh(r.value) && r.value[..] == BigEndian(n, 4)
  {
    if n < 0 || n > MAX_CHAIN_ID {
      return None;
    }
    var byteArray := new byte[4];
    byteArray[0] := n / 0x100_0000 % 0x100;
    byteArray[1] := n / 0x1_0000 % 0x100;
    byteArray[2] := n / 0x100 % 0x100;
    byteArray[3] := n % 0x100;
    FourBytes(n);
    assert byteArray[..] == [byteArray[0], byteArray[1], byteArray[2], byteArray[3]];
    r := Some(byteArray);
  }

  lemma FourBytes(n: nat)
    ensures BigEndian(n, 4) == [n / 0x100_0000 % 0x100, n / 0x1_0000 % 0x100, n / 0x100 % 0x100, n % 0x100]
  {
    var a, b, c := n / 0x100, n / 0x100 / 0x100, n / 0x100 / 0x100 / 0x100;
    assert BigEndian(c, 1) == [c % 0x100] by { assert BigEndian(c / 0x100, 0) == []; }
    assert BigEndian(b, 2) == [c % 0x100, b % 0x100];
    assert BigEndian(a, 3) == [c % 0x100, b % 0x100, a % 0x100];
    assert b == n / 0x1_0000 && c == n / 0x100_0000;
  }

  /** `ByteArrayToInt`, for four bytes */
  function ByteArrayToInt(b: Bytes): int
    requires |b| == 4
  {
    var b0: int, b1: int, b2: int, b3: int := b[0], b[1], b[2], b[3];
    b0 * 0x100_0000 + b1 * 0x1_0000 + b2 * 0x100 + b3
  }

  /** `int32(n)` */
  function ToInt32(n: int): int {
    var low := n % 0x1_0000_0000;
    if low < 0x8000_0000 then low else low - 0x1_0000_0000
  }

  lemma ByteArrayToIntInverts(n: nat)
    requires n <= MAX_CHAIN_ID
    ensures ByteArrayToInt(BigEndian(n, 4)) == n
  {
    FourBytes(n);
    var a, b, c := n / 0x100, n / 0x1_0000, n / 0x100_0000;
    assert n == a * 0x100 + n % 0x100 && a == b * 0x100 + a % 0x100 && b == c * 0x100 + b % 0x100;
  }

  // ---------- RLP ----------

  /** RLP of a byte string and of a list payload, for the short forms (fewer than 56 bytes). */
  function RlpString(s: Bytes): Bytes
    requires |s| < 56
  {
    if |s| == 1 && s[0] < 0x80 then s else [0x80 + |s|] + s
  }

  function RlpList(payload: Bytes): Bytes
    requires |payload| < 56
  {
    [0xc0 + |payload|] + payload
  }

  function Serialize(d: DepositData): (b: Bytes)
    requires Sized(d)
    ensures |b| == 27
  {
    RlpList(RlpString(d.chainId) + RlpString(d.address))
  }

  /** A byte array of a fixed size above one: only the short string header of that size fits. */
  function RlpFixed(b: Bytes, size: nat): Option<(Bytes, Bytes)>
    requires 1 < size < 56
  {
    if |b| < 1 + size || b[0] != 0x80 + size then None else Some((b[1..1 + size], b[1 + size..]))
  }

  /** `rlp.DecodeBytes` into the struct: one list that fills the input, of exactly the two fields. The long list
      form is refused for payloads this short. */
  function Deserialize(b: Bytes): Option<DepositData> {
    if b == [] || !(0xc0 <= b[0] < 0xf8) || |b| != 1 + (b[0] - 0xc0) then None else
      var chainId := RlpFixed(b[1..], 4);
      if chainId.None? then None else
        var address := RlpFixed(chainId.value.1, 20);
        if address.None? || address.value.1 != [] then None
        else Some(DepositData(chainId.value.0, address.value.0))
  }

  lemma FixedDecodes(s: Bytes, rest: Bytes)
    requires 1 < |s| < 56
    ensures RlpString(s) == [0x80 + |s|] + s
    ensures RlpFixed(RlpString(s) + rest, |s|) == Some((s, rest))
  {
  }

  lemma SerializeDecodes(d: DepositData)
    requires Sized(d)
    ensures Deserialize(Serialize(d)) == Some(d)
  {
    var b, first, second := Serialize(d), RlpString(d.chainId), RlpString(d.address);
    FixedDecodes(d.chainId, second);
    FixedDecodes(d.address, []);
    assert second + [] == second;
    assert |first + second| == 26 && b[1..] == first + second;
  }

  lemma DeserializeIsCanonical(b: Bytes)
    requires Deserialize(b).Some?
    ensures Sized(Deserialize(b).value) && b == Serialize(Deserialize(b).value)
  {
  }

  /** Decoding accepts exactly the encodings, and gives back what was encoded. */
  lemma DeserializeInverts(b: Bytes, d: DepositData)
    ensures Deserialize(b) == Some(d) <==> Sized(d) && b == Serialize(d)
  {
    if Sized(d) {
      SerializeDecodes(d);
    }
    if Deserialize(b).Some? {
      DeserializeIsCanonical(b);
    }
  }

  /** The encoding in full, by the Yellow Paper: a list of 26 bytes that holds strings of 4 and of 20 bytes. */
  lemma EncodingIs(d: DepositData)
    requires Sized(d)
    ensures Serialize(d) == [0xc0 + 26, 0x80 + 4] + d.chainId + [0x80 + 20] + d.address
  {
  }

  /** `DecodeOpReturnData` cuts off two bytes; a shorter script ends the program. */
  datatype Decoding = Panic | Rejected | Decoded(data: DepositData)

  function DecodeOpReturnData(script: Bytes): Decoding {
    if |script| < 2 then Panic else
      var data := Deserialize(script[2..]);
      if data.None? then Rejected else Decoded(data.value)
  }

  // ---------- Building and recognising ----------

  /** The script around `MakeDepositOpReturnData` */
  function DepositScript(chainId: int, address: Bytes): Option<Bytes>
    requires |address| == 20
  {
    if 0 <= chainId <= MAX_CHAIN_ID then Some(NullDataScript(Serialize(DepositData(BigEndian(chainId, 4), address)))) else None
  }

  predicate PaysTo(o: TxOut, bridge: string) {
    o.script == PayTo(bridge) && o.value != 0
  }

  /** One data push of at most 80 bytes, or one small integer, and nothing else. */
  predicate PushesOnce(b: Bytes) {
    && b != []
    && if b[0] == 0 || 0x51 <= b[0] <= 0x60 then |b| == 1
       else if b[0] <= 75 then |b| == 1 + b[0]
       else if b[0] == 0x4c then |b| >= 2 && b[1] <= 80 && |b| == 2 + b[1]
       else if b[0] == 0x4d then |b| >= 3 && b[2] == 0 && b[1] <= 80 && |b| == 3 + b[1]
       else b[0] == 0x4e && |b| >= 5 && b[2] == b[3] == b[4] == 0 && b[1] <= 80 && |b| == 5 + b[1]
  }

  /** `txscript.IsNullData`: a bare OP_RETURN, or OP_RETURN and one push. */
  predicate IsNullData(script: Bytes) {
    script != [] && script[0] == 0x6a && (|script| == 1 || PushesOnce(script[1..]))
  }

  /** `MaybeDepositTx` */
  predicate MaybeDeposit(os: seq<TxOut>, bridge: string) {
    |os| >= 2 && PaysTo(os[0], bridge) && os[1].value == 0 && os[1].script.Other? && IsNullData(os[1].script.bytes)
  }

  datatype DepositAction = DepositAction(value: int, receiver: string, evmId: int, evmAddress: Bytes)

  /** `CraftDepositAction`; None when decoding fails or ends the program. */
  function CraftDeposit(os: seq<TxOut>, bridge: string): Option<DepositAction>
    requires |os| >= 2 && os[1].script.Other?
  {
    var r := DecodeOpReturnData(os[1].script.bytes);
    if !r.Decoded? || !Sized(r.data) then None
    else Some(DepositAction(os[0].value, bridge, ToInt32(ByteArrayToInt(r.data.chainId)), r.data.address))
  }

  /** A deposit is recognised exactly when its first output pays the bridge something, and its second output is worth
      nothing and carries a bare OP_RETURN, or OP_RETURN and a single push. In particular with the scripts that the
      bridge builds. */
  lemma RecognisedIff(os: seq<TxOut>, bridge: string, data: Bytes)
    ensures MaybeDeposit(os, bridge) <==>
            && |os| >= 2 && os[0].value != 0 && os[0].script == PayTo(bridge)
            && os[1].value == 0 && os[1].script.Other? && IsNullData(os[1].script.bytes)
    ensures IsNullData(data) ==> data[0] == 0x6a && (|data| == 1 || PushesOnce(data[1..]))
    ensures IsNullData([0x6a]) && (2 <= |data| <= 75 ==> IsNullData(NullDataScript(data)))
  {
    if 2 <= |data| <= 75 {
      assert NullDataScript(data)[1..][0] == |data|;
    }
  }

  /** What becomes of a recognised deposit: it ends the program exactly when its script is a bare OP_RETURN, and it
      is decoded exactly when its script is the one that the bridge builds for that data. */
  lemma RecognisedDeposit(os: seq<TxOut>, bridge: string, d: DepositData)
    requires MaybeDeposit(os, bridge)
    ensures var script := os[1].script.bytes;
            && (DecodeOpReturnData(script).Panic? <==> script == [0x6a])
            && (DecodeOpReturnData(script) == Decoded(d) <==> Sized(d) && script == NullDataScript(Serialize(d)))
  {
    var script := os[1].script.bytes;
    if |script| >= 2 {
      DeserializeInverts(script[2..], d);
      if Sized(d) && script[2..] == Serialize(d) {
        assert script[1..][1] == Serialize(d)[0] == 0xda;
        assert script == [script[0], script[1]] + script[2..];
      }
    }
  }

  /** `MaybeJustTransfer`: the outputs that pay the bridge, with their index. */
  function Transfers(os: seq<TxOut>, bridge: string): seq<(nat, int)> {
    if os == [] then [] else
      var last := |os| - 1;
      Transfers(os[..last], bridge) + if PaysTo(os[last], bridge) then [(last, os[last].value)] else []
  }

  method MaybeJustTransfer(os: seq<TxOut>, bridge: string) returns (results: seq<(nat, int)>)
    ensures results == Transfers(os, bridge)
  {
    results := [];
    for i := 0 to |os|
      invariant results == Transfers(os[..i], bridge)
    {
      assert os[..i + 1][..i] == os[..i];
      if PaysTo(os[i], bridge) {
        results := results + [(i, os[i].value)];
      }
    }
    assert os[..|os|] == os;
  }

  lemma {:induction false} TransfersAre(os: seq<TxOut>, bridge: string)
    ensures forall i: nat, v: int :: (i, v) in Transfers(os, bridge) <==> i < |os| && v != 0 && os[i] == TxOut(v, PayTo(bridge))
  {
    if os != [] {
      TransfersAre(os[..|os| - 1], bridge);
    }
  }

  /** Outputs built for a deposit are recognised as one exactly when the amount is not zero. The deposit then
      names the amount, the bridge and the address; it names the chain id exactly when that is below 2^31. */
  lemma DepositRoundTrip(net: Net, inputs: int, bridge: string, amount: int, fee: int, change: string, chainId: int, address: Bytes)
    requires |address| == 20 && 0 <= chainId <= MAX_CHAIN_ID
    requires Outputs(net, inputs, bridge, amount, DepositScript(chainId, address), change, fee).Ok?
    ensures var os := Outputs(net, inputs, bridge, amount, DepositScript(chainId, address), change, fee).value;
            && |os| >= 2 && os[1].script.Other?
            && (MaybeDeposit(os, bridge) <==> amount != 0)
            && CraftDeposit(os, bridge).Some?
            && var d := CraftDeposit(os, bridge).value;
            && d.value == amount && d.receiver == bridge && d.evmAddress == address
            && (d.evmId == chainId <==> chainId < 0x8000_0000)
            && (chainId >= 0x8000_0000 ==> d.evmId == chainId - 0x1_0000_0000)
            && (amount != 0 ==> (0, amount) in Transfers(os, bridge))
  {
    var os := Outputs(net, inputs, bridge, amount, DepositScript(chainId, address), change, fee).value;
    var d := DepositData(BigEndian(chainId, 4), address);
    assert os[1] == TxOut(0, Other(NullDataScript(Serialize(d))));
    assert |Serialize(d)| == 27 && NullDataScript(Serialize(d))[1..][0] == 27;
    DeserializeInverts(Serialize(d), d);
    ByteArrayToIntInverts(chainId);
    TransfersAre(os, bridge);
  }

  /** A chain id outside 32 bits is an error and no outputs are built. */
  method CraftBridgeDepositOutputs(net: Net, tx: MsgTx, prev: seq<int>, bridge: string, amount: int, fee: int,
                                   change: string, address: Bytes, chainId: int)
    returns (ok: bool)
    requires tx.outputs == [] && |address| == 20
    modifies tx
    ensures ok <==> 0 <= chainId <= MAX_CHAIN_ID
                    && Outputs(net, Sum(prev), bridge, amount, DepositScript(chainId, address), change, fee).Ok?
    ensures ok ==> tx.outputs == Outputs(net, Sum(prev), bridge, amount, DepositScript(chainId, address), change, fee).value
  {
    var evmId := IntToByteArray(chainId);
    if evmId.None? {
      return false;
    }
    var data := Serialize(DepositData(evmId.value[..], address));
    var error := CraftRedeemOutput(net, tx, prev, bridge, amount, data, change, fee);
    ok := error.None?;
  }
}

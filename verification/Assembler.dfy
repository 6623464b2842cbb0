/** Building Bitcoin transactions: outputs, change and conservation of value. */
module Assembler {
  import opened Common

  /** A locking script as far as the bridge distinguishes it: one that pays an address, or the bytes of another. */
  datatype Script = PayTo(address: string) | Other(bytes: seq<byte>)

  /** `txscript.NullDataScript`: OP_RETURN, a push of one byte length, the data. */
  function NullDataScript(data: seq<byte>): (s: seq<byte>)
    requires 2 <= |data| <= 75
    ensures |s| == 2 + |data| && s[2..] == data
  {
    [0x6a, |data|] + data
  }

  datatype TxOut = TxOut(value: int, script: Script)

  datatype TxError = MissingUtxo | NegativeChange | BadAddress

  datatype Net = Net(decodes: string -> bool)

  function Values(os: seq<TxOut>): int {
    if os == [] then 0 else os[0].value + Values(os[1..])
  }

  function Sum(amounts: seq<int>): int {
    if amounts == [] then 0 else Sum(amounts[..|amounts| - 1]) + amounts[|amounts| - 1]
  }

  /** The outputs of a payment of `amount` to `dst` out of `inputs` satoshi, with an output that carries `script`
      if any between the payment and the change. */
  function Outputs(net: Net, inputs: int, dst: string, amount: int, script: Option<seq<byte>>, change: string, fee: int)
    : Result<seq<TxOut>, TxError>
  {
    var rest := inputs - amount - fee;
    if rest < 0 then Err(NegativeChange)
    else if !net.decodes(dst) || (rest > 0 && !net.decodes(change)) then Err(BadAddress)
    else Ok([TxOut(amount, PayTo(dst))]
            + (if script.Some? then [TxOut(0, Other(script.value))] else [])
            + (if rest > 0 then [TxOut(rest, PayTo(change))] else []))
  }

  /** Nothing is lost: outputs plus fee are the inputs. The build fails for want of money exactly when the
      inputs are below amount plus fee. */
  lemma ValueConserved(net: Net, inputs: int, dst: string, amount: int, script: Option<seq<byte>>, change: string, fee: int)
    ensures var r := Outputs(net, inputs, dst, amount, script, change, fee);
            && (r == Err(NegativeChange) <==> inputs < amount + fee)
            && (r.Ok? ==> Values(r.value) + fee == inputs)
  {
    var r := Outputs(net, inputs, dst, amount, script, change, fee);
    if r.Ok? {
      var os, rest := r.value, inputs - amount - fee;
      var tail := if rest > 0 then [TxOut(rest, PayTo(change))] else [];
      assert Values(tail) == rest;
      if script.Some? {
        assert os[1..] == [TxOut(0, Other(script.value))] + tail;
        assert os[1..][1..] == tail;
      } else {
        assert os[1..] == tail;
      }
    }
  }

  /** Where the money goes: the payment to `dst` comes first, the script second if there is one; a further output
      exists exactly when the inputs are worth more than amount plus fee, is the last one, and pays what is left to
      the change address. The build succeeds exactly when there is enough money and every address that is paid
      decodes. */
  lemma PaymentThenChange(net: Net, inputs: int, dst: string, amount: int, script: Option<seq<byte>>, change: string, fee: int)
    ensures var r := Outputs(net, inputs, dst, amount, script, change, fee);
            var fixed := if script.Some? then 2 else 1;
            && (r.Ok? <==> inputs >= amount + fee && net.decodes(dst) && (inputs > amount + fee ==> net.decodes(change)))
            && (r.Err? && inputs >= amount + fee ==> r.error == BadAddress)
            && (r.Ok? ==>
                  && |r.value| == fixed + (if inputs > amount + fee then 1 else 0)
                  && r.value[0] == TxOut(amount, PayTo(dst))
                  && (script.Some? ==> r.value[1] == TxOut(0, Other(script.value)))
                  && (forall i :: fixed <= i < |r.value| ==> r.value[i] == TxOut(inputs - amount - fee, PayTo(change))))
  {
  }

  class MsgTx {
    var outputs: seq<TxOut>

    constructor ()
      ensures outputs == []
    {
      outputs := [];
    }

    method AddTxOut(o: TxOut)
      modifies this
      ensures outputs == old(outputs) + [o]
    {
      outputs := outputs + [o];
    }

    /** `AppendPayToAddress` */
    method PayToAddress(net: Net, address: string, value: int) returns (ok: bool)
      modifies this
      ensures ok == net.decodes(address)
      ensures outputs == old(outputs) + if ok then [TxOut(value, PayTo(address))] else []
    {
      ok := net.decodes(address);
      if ok {
        AddTxOut(TxOut(value, PayTo(address)));
      }
    }
  }

  method SumAmounts(prev: seq<int>) returns (sum: int)
    ensures sum == Sum(prev)
  {
    sum := 0;
    for i := 0 to |prev|
      invariant sum == Sum(prev[..i])
    {
      assert prev[..i + 1][..i] == prev[..i];
      sum := sum + prev[i];
    }
    assert prev[..|prev|] == prev;
  }

  method CraftTransferOutOutput(net: Net, tx: MsgTx, prev: seq<int>, dst: string, amount: int, change: string, fee: int)
    returns (error: Option<TxError>)
    requires tx.outputs == []
    modifies tx
    ensures match Outputs(net, Sum(prev), dst, amount, None, change, fee)
            case Ok(os) => error == None && tx.outputs == os
            case Err(e) => error == Some(e)
  {
    var sum := SumAmounts(prev);
    var rest := sum - amount - fee;
    if rest < 0 {
      return Some(NegativeChange);
    }
    var ok := tx.PayToAddress(net, dst, amount);
    if !ok {
      return Some(BadAddress);
    }
    if rest > 0 {
      ok := tx.PayToAddress(net, change, rest);
      if !ok {
        return Some(BadAddress);
      }
    }
    error := None;
  }

  /** A redeem carries its request hash in an OP_RETURN output between payment and change. */
  method CraftRedeemOutput(net: Net, tx: MsgTx, prev: seq<int>, dst: string, amount: int, data: seq<byte>, change: string, fee: int)
    returns (error: Option<TxError>)
    requires tx.outputs == [] && 2 <= |data| <= 75
    modifies tx
    ensures match Outputs(net, Sum(prev), dst, amount, Some(NullDataScript(data)), change, fee)
            case Ok(os) => error == None && tx.outputs == os
            case Err(e) => error == Some(e)
  {
    var sum := SumAmounts(prev);
    var rest := sum - amount - fee;
    if rest < 0 {
      return Some(NegativeChange);
    }
    var ok := tx.PayToAddress(net, dst, amount);
    if !ok {
      return Some(BadAddress);
    }
    tx.AddTxOut(TxOut(0, Other(NullDataScript(data))));
    if rest > 0 {
      ok := tx.PayToAddress(net, change, rest);
      if !ok {
        return Some(BadAddress);
      }
    }
    error := None;
  }
}

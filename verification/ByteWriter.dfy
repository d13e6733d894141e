/**
  * The byte-buffer serializer of serialize.ts, proved to emit exactly the specified bytes.
  */
module Serializer {
  import opened Wrappers
  import opened Hex
  import opened Wire

  class ByteWriter {
    var chunks: bytes

    constructor ()
      ensures chunks == []
    {
      chunks := [];
    }

    method U8(n: nat)
      modifies this
      ensures chunks == old(chunks) + [n % 256]
    {
      chunks := chunks + [n % 256];
    }

    method U16LE(n: nat)
      modifies this
      ensures chunks == old(chunks) + LE(n, 2)
    {
      U8(n);
      U8(n / 0x100);
      assert LE(n, 2) == [n % 256] + LE(n / 256, 1);
    }

    method U32LE(n: nat)
      modifies this
      ensures chunks == old(chunks) + LE(n, 4)
    {
      U8(n);
      U8(n / 0x100);
      U8(n / 0x1_0000);
      U8(n / 0x100_0000);
      FourBytes(n);
    }

    method U64LE(n: int)
      modifies this
      ensures chunks == old(chunks) + Bytes8(n)
    {
      hide LE;
      var v := n % TWO_64;
      ghost var start := chunks;
      var i := 0;
      while i < 8
        invariant 0 <= i <= 8 && v >= 0
        invariant chunks + LE(v, 8 - i) == start + Bytes8(n)
      {
        LEStep(v, 8 - i);
        assert chunks + LE(v, 8 - i) == (chunks + [v % 256]) + LE(v / 256, 8 - (i + 1));
        U8(v % 256);
        v := v / 256;
        i := i + 1;
      }
      assert chunks + LE(v, 0) == chunks;
    }

    method WriteVarInt(n: nat)
      modifies this
      ensures chunks == old(chunks) + VarInt(n)
    {
      hide LE;
      if n < 0xfd {
        U8(n);
      } else if n <= 0xffff {
        U8(0xfd);
        U16LE(n);
      } else if n <= 0xffff_ffff {
        U8(0xfe);
        U32LE(n);
      } else {
        U8(0xff);
        U64LE(n);
      }
    }

    method WriteBytes(b: bytes)
      modifies this
      ensures chunks == old(chunks) + b
    {
      ghost var start := chunks;
      for k := 0 to |b|
        invariant chunks == start + b[..k]
      {
        chunks := chunks + [b[k]];
      }
      assert b[..|b|] == b;
    }

    method WriteVarBytes(b: bytes)
      modifies this
      ensures chunks == old(chunks) + VarBytes(b)
    {
      WriteVarInt(|b|);
      WriteBytes(b);
    }

    /** One input's outpoint, script and sequence; false on a bad transaction id. */
    method WriteInput(input: TxInput) returns (ok: bool)
      modifies this
      ensures ok == IsHex(input.txid)
      ensures ok ==> chunks == old(chunks) + InputBytes(input)
    {
      hide VarBytes, LE, Reverse, IsHex;
      var id := FromHex(input.txid);
      if id.None? {
        return false;
      }
      WriteBytes(Reverse(id.value));
      U32LE(input.vout % TWO_32);
      WriteVarBytes(input.scriptSig);
      U32LE(input.sequence % TWO_32);
      ok := true;
      assert chunks == old(chunks) + (Reverse(id.value) + Bytes4(input.vout) + VarBytes(input.scriptSig) + Bytes4(input.sequence));
    }

    method WriteInputs(inputs: seq<TxInput>) returns (ok: bool)
      modifies this
      ensures ok == HexIds(inputs)
      ensures ok ==> chunks == old(chunks) + InputsBytes(inputs)
    {
      hide VarInt, InputBytes, IsHex;
      WriteVarInt(|inputs|);
      ghost var start := chunks;
      for k := 0 to |inputs|
        invariant HexIds(inputs[..k])
        invariant chunks == start + Concat(InputBytes, inputs[..k])
      {
        ok := WriteInput(inputs[k]);
        if !ok {
          return;
        }
        ConcatSnoc(InputBytes, inputs[..k], inputs[k]);
        assert inputs[..k + 1] == inputs[..k] + [inputs[k]];
      }
      assert inputs[..|inputs|] == inputs;
      ok := true;
    }

    method WriteOutput(output: TxOutput)
      modifies this
      ensures chunks == old(chunks) + OutputBytes(output)
    {
      hide VarBytes, Bytes8;
      U64LE(output.value);
      WriteVarBytes(output.pkScript);
    }

    method WriteOutputs(outputs: seq<TxOutput>)
      modifies this
      ensures chunks == old(chunks) + OutputsBytes(outputs)
    {
      hide VarInt, OutputBytes;
      WriteVarInt(|outputs|);
      ghost var start := chunks;
      for k := 0 to |outputs|
        invariant chunks == start + Concat(OutputBytes, outputs[..k])
      {
        WriteOutput(outputs[k]);
        ConcatSnoc(OutputBytes, outputs[..k], outputs[k]);
        assert outputs[..k + 1] == outputs[..k] + [outputs[k]];
      }
      assert outputs[..|outputs|] == outputs;
    }

    /** One input's witness stack. */
    method WriteWitness(stack: seq<bytes>)
      modifies this
      ensures chunks == old(chunks) + WitnessBytes(stack)
    {
      WriteVarInt(|stack|);
      ghost var start := chunks;
      for k := 0 to |stack|
        invariant chunks == start + Concat(ItemBytes, stack[..k])
      {
        WriteVarBytes(stack[k]);
        ConcatSnoc(ItemBytes, stack[..k], stack[k]);
        assert stack[..k + 1] == stack[..k] + [stack[k]];
      }
      assert stack[..|stack|] == stack;
    }
  }

  method Serialize(tx: WireTx, includeWitness: bool) returns (r: Option<bytes>)
    ensures r == SerializeTx(tx, includeWitness)
  {
    hide InputsBytes, OutputsBytes, LE, WitnessBytes, HexIds;
    var hasWitness := includeWitness && HasWitness(tx.inputs);
    var w := new ByteWriter();
    w.U32LE(tx.version % TWO_32);
    if hasWitness {
      w.U8(0x00);
      w.U8(0x01);
    }
    assert w.chunks == Bytes4(tx.version) + (if hasWitness then [0, 1] else []);
    var ok := w.WriteInputs(tx.inputs);
    if !ok {
      return None;
    }
    w.WriteOutputs(tx.outputs);
    ghost var start := w.chunks;
    if hasWitness {
      for k := 0 to |tx.inputs|
        invariant w.chunks == start + Concat(InputWitness, tx.inputs[..k])
      {
        w.WriteWitness(tx.inputs[k].stack);
        ConcatSnoc(InputWitness, tx.inputs[..k], tx.inputs[k]);
        assert tx.inputs[..k + 1] == tx.inputs[..k] + [tx.inputs[k]];
      }
      assert tx.inputs[..|tx.inputs|] == tx.inputs;
    }
    assert w.chunks == start + (if hasWitness then Concat(InputWitness, tx.inputs) else []);
    w.U32LE(tx.locktime % TWO_32);
    r := Some(w.chunks);
  }
}

/**
  * The signed message of sign.ts (BIP-341, "Common signature message"), its own copies of the
  * wire encodings, and what two equal messages have in common.
  */
module Sighash {
  import opened Wrappers
  import opened Hex
  import opened Wire
  import opened WireParser

  type Digest = d: bytes | |d| == 32 witness seq(32, _ => 0)
  type Signature = s: bytes | |s| == 64 witness seq(64, _ => 0)

  datatype SignError = IndexOutOfRange | PrevoutsMismatch | BadTxid

  // ---------------------------------------------------------------- encodings of sign.ts

  function Flatten(parts: seq<bytes>): bytes {
    if parts == [] then [] else parts[0] + Flatten(parts[1..])
  }

  lemma {:induction false} FlattenSnoc(parts: seq<bytes>, last: bytes)
    ensures Flatten(parts + [last]) == Flatten(parts) + last
  {
    if parts == [] {
    } else {
      FlattenSnoc(parts[1..], last);
      assert (parts + [last])[1..] == parts[1..] + [last];
    }
  }

  lemma {:induction false} FlattenMap<T>(enc: T -> bytes, xs: seq<T>, parts: seq<bytes>)
    requires |parts| == |xs| && forall k :: 0 <= k < |xs| ==> parts[k] == enc(xs[k])
    ensures Flatten(parts) == Concat(enc, xs)
  {
    if xs != [] {
      FlattenMap(enc, xs[1..], parts[1..]);
    }
  }

  /** `concat`: measure, allocate, copy each part at the running offset. */
  method ConcatParts(parts: seq<bytes>) returns (out: array<byte>)
    ensures fresh(out) && out[..] == Flatten(parts)
  {
    var len := 0;
    for k := 0 to |parts|
      invariant len == |Flatten(parts[..k])|
    {
      FlattenSnoc(parts[..k], parts[k]);
      assert parts[..k + 1] == parts[..k] + [parts[k]];
      len := len + |parts[k]|;
    }
    assert parts[..|parts|] == parts;
    out := new byte[len];
    var off := 0;
    for k := 0 to |parts|
      invariant off == |Flatten(parts[..k])| <= len
      invariant out[..off] == Flatten(parts[..k])
    {
      FlattenSnoc(parts[..k], parts[k]);
      assert parts[..k + 1] == parts[..k] + [parts[k]];
      FlattenPrefix(parts, k + 1);
      CopyInto(out, off, parts[k]);
      off := off + |parts[k]|;
    }
    assert out[..] == out[..off];
  }

  lemma {:induction false} FlattenPrefix(parts: seq<bytes>, k: nat)
    requires k <= |parts|
    ensures |Flatten(parts[..k])| <= |Flatten(parts)|
    decreases |parts| - k
  {
    if k == |parts| {
      assert parts[..k] == parts;
    } else {
      FlattenSnoc(parts[..k], parts[k]);
      assert parts[..k + 1] == parts[..k] + [parts[k]];
      FlattenPrefix(parts, k + 1);
    }
  }

  /** `out.set(a, off)`. */
  method CopyInto(out: array<byte>, off: nat, a: bytes)
    requires off + |a| <= out.Length
    modifies out
    ensures out[..off + |a|] == old(out[..off]) + a
    ensures out[off + |a|..] == old(out[off + |a|..])
  {
    for j := 0 to |a|
      invariant out[..off] == old(out[..off]) && out[off..off + j] == a[..j]
      invariant out[off + |a|..] == old(out[off + |a|..])
    {
      out[off + j] := a[j];
    }
    assert out[..off + |a|] == out[..off] + out[off..off + |a|];
  }

  method U32le(n: int) returns (out: array<byte>)
    ensures fresh(out) && out[..] == Bytes4(n)
  {
    var u := n % TWO_32;
    out := new byte[4];
    out[0] := u % 256;
    out[1] := u / 0x100 % 256;
    out[2] := u / 0x1_0000 % 256;
    out[3] := u / 0x100_0000 % 256;
    FourBytes(u);
  }

  lemma NextByte(written: bytes, v: nat, k: nat)
    requires k > 0
    ensures written + LE(v, k) == written + [v % 256] + LE(v / 256, k - 1)
  {
  }

  method U64le(n: int) returns (out: array<byte>)
    ensures fresh(out) && out[..] == Bytes8(n)
  {
    hide LE;
    out := new byte[8];
    var v := n % TWO_64;
    for i := 0 to 8
      invariant v >= 0
      invariant out[..i] + LE(v, 8 - i) == Bytes8(n)
    {
      ghost var before := out[..i];
      NextByte(before, v, 8 - i);
      out[i] := v % 256;
      assert out[..i + 1] == before + [v % 256];
      v := v / 256;
    }
    assert out[..8] + LE(v, 0) == out[..];
  }

  method VarIntBytes(n: nat) returns (r: bytes)
    ensures r == VarInt(n)
  {
    hide LE;
    if n < 0xfd {
      return [n];
    }
    if n <= 0xffff {
      var four := U32le(n);
      TwoBytes(n);
      return [0xfd] + four[..2];
    }
    if n <= 0xffff_ffff {
      var four := U32le(n);
      return [0xfe] + four[..];
    }
    var eight := U64le(n);
    r := [0xff] + eight[..];
  }

  /** sign.ts and serialize.ts encode an output alike. */
  method SerializeTxOut(value: int, script: bytes) returns (r: bytes)
    ensures r == OutputBytes(TxOutput(value, script))
  {
    hide VarInt, Bytes8;
    var v := U64le(value);
    var n := VarIntBytes(|script|);
    var all := ConcatParts([v[..], n, script]);
    FlattenCons([n, script], v[..]);
    FlattenTwo(n, script);
    r := all[..];
  }

  method SerializeOutpoint(txid: string, vout: int) returns (r: Option<bytes>)
    ensures r == if IsHex(txid) then Some(Outpoint(txid, vout)) else None
  {
    hide IsHex, Bytes4;
    var id := HexToBytes(txid);
    if id.None? {
      return None;
    }
    var source := new byte[|id.value|](i requires 0 <= i < |id.value| => id.value[i]);
    assert source[..] == id.value;
    var reversed := ReverseBytes(source);
    var index := U32le(vout);
    var all := ConcatParts([reversed[..], index[..]]);
    FlattenTwo(reversed[..], index[..]);
    r := Some(all[..]);
  }

  // ---------------------------------------------------------------- the message

  datatype Prevout = Prevout(txid: string, vout: int)

  function PrevoutBytes(p: Prevout): bytes { Outpoint(p.txid, p.vout) }
  function PrevoutOf(i: TxInput): Prevout { Prevout(i.txid, i.vout) }

  function Prevouts(inputs: seq<TxInput>): (ps: seq<Prevout>)
    ensures |ps| == |inputs|
  {
    seq(|inputs|, k requires 0 <= k < |inputs| => PrevoutOf(inputs[k]))
  }

  function Sequences(inputs: seq<TxInput>): (ss: seq<int>)
    ensures |ss| == |inputs|
  {
    seq(|inputs|, k requires 0 <= k < |inputs| => inputs[k].sequence)
  }

  /** The five hashed lists. */
  datatype Preimages = Preimages(prevouts: bytes, amounts: bytes, scripts: bytes, sequences: bytes, outputs: bytes)

  function PreimagesOf(tx: WireTx, prevValues: seq<int>, prevScripts: seq<bytes>): Preimages {
    Preimages(
      Concat(PrevoutBytes, Prevouts(tx.inputs)),
      Concat(Bytes8, prevValues),
      Concat(VarBytes, prevScripts),
      Concat(Bytes4, Sequences(tx.inputs)),
      Concat(OutputBytes, tx.outputs))
  }

  function Message(sha: bytes -> Digest, version: int, locktime: int, p: Preimages, idx: nat): bytes {
    [0x00, 0x00] + (Bytes4(version) + (Bytes4(locktime)
    + (sha(p.prevouts) + (sha(p.amounts) + (sha(p.scripts) + (sha(p.sequences) + (sha(p.outputs)
    + ([0x00] + Bytes4(idx)))))))))
  }

  function SigMsg(sha: bytes -> Digest, tx: WireTx, idx: nat, prevValues: seq<int>, prevScripts: seq<bytes>): bytes {
    Message(sha, tx.version, tx.locktime, PreimagesOf(tx, prevValues, prevScripts), idx)
  }

  /** `taprootKeySpendSighash` over arbitrary hash functions. */
  function Sighash(sha: bytes -> Digest, tagged: bytes -> Digest, tx: WireTx, idx: int,
                   prevValues: seq<int>, prevScripts: seq<bytes>): Result<Digest, SignError>
  {
    if idx < 0 || idx >= |tx.inputs| then Err(IndexOutOfRange)
    else if |prevValues| != |tx.inputs| || |prevScripts| != |tx.inputs| then Err(PrevoutsMismatch)
    else if !HexIds(tx.inputs) then Err(BadTxid)
    else Ok(tagged(SigMsg(sha, tx, idx, prevValues, prevScripts)))
  }

  /** The outpoints, or None at the first id that is not hexadecimal. */
  method PrevoutParts(inputs: seq<TxInput>) returns (r: Option<seq<bytes>>)
    ensures r.Some? <==> HexIds(inputs)
    ensures r.Some? ==> |r.value| == |inputs| && forall j :: 0 <= j < |inputs| ==> r.value[j] == PrevoutBytes(Prevouts(inputs)[j])
  {
    hide IsHex, Outpoint;
    var parts: seq<bytes> := [];
    for k := 0 to |inputs|
      invariant HexIds(inputs[..k]) && |parts| == k
      invariant forall j :: 0 <= j < k ==> parts[j] == PrevoutBytes(Prevouts(inputs)[j])
    {
      var outpoint := SerializeOutpoint(inputs[k].txid, inputs[k].vout);
      if outpoint.None? {
        return None;
      }
      parts := parts + [outpoint.value];
    }
    r := Some(parts);
  }

  method AmountParts(values: seq<int>) returns (parts: seq<bytes>)
    ensures |parts| == |values| && forall j :: 0 <= j < |values| ==> parts[j] == Bytes8(values[j])
  {
    hide Bytes8;
    parts := [];
    for k := 0 to |values|
      invariant |parts| == k && forall j :: 0 <= j < k ==> parts[j] == Bytes8(values[j])
    {
      var amount := U64le(values[k]);
      parts := parts + [amount[..]];
    }
  }

  method ScriptParts(scripts: seq<bytes>) returns (parts: seq<bytes>)
    ensures |parts| == |scripts| && forall j :: 0 <= j < |scripts| ==> parts[j] == VarBytes(scripts[j])
  {
    hide VarInt;
    parts := [];
    for k := 0 to |scripts|
      invariant |parts| == k && forall j :: 0 <= j < k ==> parts[j] == VarBytes(scripts[j])
    {
      var count := VarIntBytes(|scripts[k]|);
      parts := parts + [count + scripts[k]];
    }
  }

  method SequenceParts(inputs: seq<TxInput>) returns (parts: seq<bytes>)
    ensures |parts| == |inputs| && forall j :: 0 <= j < |inputs| ==> parts[j] == Bytes4(Sequences(inputs)[j])
  {
    hide Bytes4;
    parts := [];
    for k := 0 to |inputs|
      invariant |parts| == k && forall j :: 0 <= j < k ==> parts[j] == Bytes4(Sequences(inputs)[j])
    {
      var sequence := U32le(inputs[k].sequence);
      parts := parts + [sequence[..]];
    }
  }

  method ComputePreimages(tx: WireTx, prevValues: seq<int>, prevScripts: seq<bytes>) returns (r: Option<Preimages>)
    requires |prevValues| == |tx.inputs| && |prevScripts| == |tx.inputs|
    ensures r == if HexIds(tx.inputs) then Some(PreimagesOf(tx, prevValues, prevScripts)) else None
  {
    hide HexIds, Bytes4, Bytes8, VarBytes, PrevoutBytes, Prevouts, Sequences, OutputBytes, Flatten, Concat;
    var prevouts := PrevoutParts(tx.inputs);
    if prevouts.None? {
      return None;
    }
    var amounts := AmountParts(prevValues);
    var scripts := ScriptParts(prevScripts);
    var sequences := SequenceParts(tx.inputs);
    FlattenMap(PrevoutBytes, Prevouts(tx.inputs), prevouts.value);
    FlattenMap(Bytes8, prevValues, amounts);
    FlattenMap(VarBytes, prevScripts, scripts);
    FlattenMap(Bytes4, Sequences(tx.inputs), sequences);
    var a := ConcatParts(prevouts.value);
    var b := ConcatParts(amounts);
    var c := ConcatParts(scripts);
    var d := ConcatParts(sequences);
    var outputs := ComputeOutputs(tx.outputs);
    r := Some(Preimages(a[..], b[..], c[..], d[..], outputs));
  }

  method ComputeOutputs(outputs: seq<TxOutput>) returns (r: bytes)
    ensures r == Concat(OutputBytes, outputs)
  {
    hide OutputBytes;
    var parts: seq<bytes> := [];
    for k := 0 to |outputs|
      invariant |parts| == k && forall j :: 0 <= j < k ==> parts[j] == OutputBytes(outputs[j])
    {
      var part := SerializeTxOut(outputs[k].value, outputs[k].pkScript);
      parts := parts + [part];
    }
    FlattenMap(OutputBytes, outputs, parts);
    var all := ConcatParts(parts);
    r := all[..];
  }

  method ComputeSighash(sha: bytes -> Digest, tagged: bytes -> Digest, tx: WireTx, idx: int,
                        prevValues: seq<int>, prevScripts: seq<bytes>) returns (r: Result<Digest, SignError>)
    ensures r == Sighash(sha, tagged, tx, idx, prevValues, prevScripts)
  {
    hide PreimagesOf, HexIds, Bytes4, Flatten;
    if idx < 0 || idx >= |tx.inputs| {
      return Err(IndexOutOfRange);
    }
    if |prevValues| != |tx.inputs| || |prevScripts| != |tx.inputs| {
      return Err(PrevoutsMismatch);
    }
    var pre := ComputePreimages(tx, prevValues, prevScripts);
    if pre.None? {
      return Err(BadTxid);
    }
    var p := pre.value;
    var version := U32le(tx.version);
    var locktime := U32le(tx.locktime);
    var inputIndex := U32le(idx);
    var parts := [[0x00], [0x00], version[..], locktime[..], sha(p.prevouts), sha(p.amounts), sha(p.scripts),
                  sha(p.sequences), sha(p.outputs), [0x00], inputIndex[..]];
    var sigMsg := ConcatParts(parts);
    assert parts == [[0x00], [0x00], Bytes4(tx.version), Bytes4(tx.locktime), sha(p.prevouts), sha(p.amounts),
                     sha(p.scripts), sha(p.sequences), sha(p.outputs), [0x00], Bytes4(idx)];
    MessageParts(sha, tx.version, tx.locktime, p, idx);
    r := Ok(tagged(sigMsg[..]));
  }

  lemma MessageParts(sha: bytes -> Digest, version: int, locktime: int, p: Preimages, idx: nat)
    ensures Flatten([[0x00], [0x00], Bytes4(version), Bytes4(locktime), sha(p.prevouts), sha(p.amounts), sha(p.scripts),
                     sha(p.sequences), sha(p.outputs), [0x00], Bytes4(idx)])
            == Message(sha, version, locktime, p, idx)
  {
    hide Bytes4, Flatten;
    var l9 := [[0x00], Bytes4(idx)];
    FlattenTwo([0x00], Bytes4(idx));
    var l8 := [sha(p.outputs)] + l9;
    FlattenCons(l9, sha(p.outputs));
    var l7 := [sha(p.sequences)] + l8;
    FlattenCons(l8, sha(p.sequences));
    var l6 := [sha(p.scripts)] + l7;
    FlattenCons(l7, sha(p.scripts));
    var l5 := [sha(p.amounts)] + l6;
    FlattenCons(l6, sha(p.amounts));
    var l4 := [sha(p.prevouts)] + l5;
    FlattenCons(l5, sha(p.prevouts));
    var l3 := [Bytes4(locktime)] + l4;
    FlattenCons(l4, Bytes4(locktime));
    var l2 := [Bytes4(version)] + l3;
    FlattenCons(l3, Bytes4(version));
    FlattenCons(l2, [0x00]);
    FlattenCons([[0x00]] + l2, [0x00]);
    assert [[0x00]] + ([[0x00]] + l2) ==
      [[0x00], [0x00], Bytes4(version), Bytes4(locktime), sha(p.prevouts), sha(p.amounts), sha(p.scripts),
       sha(p.sequences), sha(p.outputs), [0x00], Bytes4(idx)];
    assert [0x00] + ([0x00] + Flatten(l2)) == [0x00, 0x00] + Flatten(l2);
  }

  lemma FlattenCons(parts: seq<bytes>, head: bytes)
    ensures Flatten([head] + parts) == head + Flatten(parts)
  {
    assert ([head] + parts)[1..] == parts;
  }

  lemma FlattenTwo(a: bytes, b: bytes)
    ensures Flatten([a, b]) == a + b
  {
    FlattenCons([b], a);
    FlattenCons([], b);
    assert [a, b] == [a] + [b] && [b] == [b] + [];
  }

  // ---------------------------------------------------------------- what the message binds

  /** The two inputs of a hash do not collide. */
  predicate NoCollision(sha: bytes -> Digest, a: bytes, b: bytes) {
    sha(a) == sha(b) ==> a == b
  }

  predicate NoCollisions(sha: bytes -> Digest, a: Preimages, b: Preimages) {
    && NoCollision(sha, a.prevouts, b.prevouts)
    && NoCollision(sha, a.amounts, b.amounts)
    && NoCollision(sha, a.scripts, b.scripts)
    && NoCollision(sha, a.sequences, b.sequences)
    && NoCollision(sha, a.outputs, b.outputs)
  }

  /** A transaction and its previous outputs as a signer receives them, in range. */
  predicate Signable(tx: WireTx, idx: nat, prevValues: seq<int>, prevScripts: seq<bytes>) {
    && ValidTx(tx) && idx < |tx.inputs| && InRange32(idx)
    && |prevValues| == |tx.inputs| && |prevScripts| == |tx.inputs|
    && AllValid(InRange64, prevValues) && AllValid(ShortBytes, prevScripts)
  }

  lemma SameHead(a: bytes, x: bytes, b: bytes, y: bytes)
    requires |a| == |b| && a + x == b + y
    ensures a == b && x == y
  {
    assert a == (a + x)[..|a|] && b == (b + y)[..|b|];
    assert x == (a + x)[|a|..] && y == (b + y)[|b|..];
  }

  lemma Bytes4Injective(m: int, n: int)
    requires InRange32(m) && InRange32(n) && Bytes4(m) == Bytes4(n)
    ensures m == n
  {
    hide Bytes4, Parse4;
    Parse4Undoes(m, []);
    Parse4Undoes(n, []);
  }

  /** Fixed-length fields at fixed offsets: equal messages have equal fields. */
  lemma MessageFields(sha: bytes -> Digest, v: int, l: int, p: Preimages, i: nat, v': int, l': int, p': Preimages, i': nat)
    requires InRange32(v) && InRange32(l) && InRange32(i) && InRange32(v') && InRange32(l') && InRange32(i')
    requires Message(sha, v, l, p, i) == Message(sha, v', l', p', i')
    ensures v == v' && l == l' && i == i'
    ensures sha(p.prevouts) == sha(p'.prevouts) && sha(p.amounts) == sha(p'.amounts)
    ensures sha(p.scripts) == sha(p'.scripts) && sha(p.sequences) == sha(p'.sequences)
    ensures sha(p.outputs) == sha(p'.outputs)
  {
    hide Bytes4;
    var t9, t9' := [0x00] + Bytes4(i), [0x00] + Bytes4(i');
    var t8, t8' := sha(p.outputs) + t9, sha(p'.outputs) + t9';
    var t7, t7' := sha(p.sequences) + t8, sha(p'.sequences) + t8';
    var t6, t6' := sha(p.scripts) + t7, sha(p'.scripts) + t7';
    var t5, t5' := sha(p.amounts) + t6, sha(p'.amounts) + t6';
    var t4, t4' := sha(p.prevouts) + t5, sha(p'.prevouts) + t5';
    var t3, t3' := Bytes4(l) + t4, Bytes4(l') + t4';
    SameHead([0x00, 0x00], Bytes4(v) + t3, [0x00, 0x00], Bytes4(v') + t3');
    SameHead(Bytes4(v), t3, Bytes4(v'), t3');
    SameHead(Bytes4(l), t4, Bytes4(l'), t4');
    SameHead(sha(p.prevouts), t5, sha(p'.prevouts), t5');
    SameHead(sha(p.amounts), t6, sha(p'.amounts), t6');
    SameHead(sha(p.scripts), t7, sha(p'.scripts), t7');
    SameHead(sha(p.sequences), t8, sha(p'.sequences), t8');
    SameHead(sha(p.outputs), t9, sha(p'.outputs), t9');
    SameHead([0x00], Bytes4(i), [0x00], Bytes4(i'));
    Bytes4Injective(v, v');
    Bytes4Injective(l, l');
    Bytes4Injective(i, i');
  }

  /** A list without a count is still recovered: each item says where it ends. */
  lemma {:induction false} ConcatInjective<T(!new)>(p: bytes -> Parse<T>, enc: T -> bytes, valid: T -> bool, xs: seq<T>, ys: seq<T>)
    requires Undoes(p, enc, valid) && AllValid(valid, xs) && AllValid(valid, ys)
    requires forall x :: enc(x) == [] ==> !valid(x)
    requires Concat(enc, xs) == Concat(enc, ys)
    ensures xs == ys
  {
    if xs == [] {
    } else {
      assert valid(xs[0]);
      if ys == [] {
      } else {
        assert valid(ys[0]);
        assert p(enc(xs[0]) + Concat(enc, xs[1..])) == Some((xs[0], Concat(enc, xs[1..])));
        assert p(enc(ys[0]) + Concat(enc, ys[1..])) == Some((ys[0], Concat(enc, ys[1..])));
        ConcatInjective(p, enc, valid, xs[1..], ys[1..]);
        assert xs == [xs[0]] + xs[1..] && ys == [ys[0]] + ys[1..];
      }
    }
  }

  function ParsePrevout(b: bytes): Parse<Prevout> {
    match ParseOutpoint(b)
    case None => None
    case Some(((txid, vout), rest)) => Some((Prevout(txid, vout), rest))
  }

  predicate ValidPrevout(p: Prevout) { ValidId(p.txid) && InRange32(p.vout) }

  lemma PrevoutUndone()
    ensures Undoes(ParsePrevout, PrevoutBytes, ValidPrevout)
  {
    hide ParseOutpoint, Outpoint, ValidId;
    forall p: Prevout, rest: bytes | ValidPrevout(p)
      ensures ParsePrevout(PrevoutBytes(p) + rest) == Some((p, rest))
    {
      ParseOutpointUndoes(p.txid, p.vout, rest);
    }
    forall b: bytes | ParsePrevout(b).Some?
      ensures ValidPrevout(ParsePrevout(b).value.0)
      ensures b == PrevoutBytes(ParsePrevout(b).value.0) + ParsePrevout(b).value.1
    {
      ParseOutpointSound(b);
    }
    UndoesIntro(ParsePrevout, PrevoutBytes, ValidPrevout);
  }

  lemma FourUndone()
    ensures Undoes(Parse4, Bytes4, InRange32)
  {
    hide Parse4, Bytes4;
    forall n: int, rest: bytes | InRange32(n)
      ensures Parse4(Bytes4(n) + rest) == Some((n, rest))
    {
      Parse4Undoes(n, rest);
    }
    forall b: bytes | Parse4(b).Some?
      ensures InRange32(Parse4(b).value.0) && b == Bytes4(Parse4(b).value.0) + Parse4(b).value.1
    {
      Parse4Sound(b);
    }
    UndoesIntro(Parse4, Bytes4, InRange32);
  }

  lemma EightUndone()
    ensures Undoes(Parse8, Bytes8, InRange64)
  {
    hide Parse8, Bytes8;
    forall n: int, rest: bytes | InRange64(n)
      ensures Parse8(Bytes8(n) + rest) == Some((n, rest))
    {
      Parse8Undoes(n, rest);
    }
    forall b: bytes | Parse8(b).Some?
      ensures InRange64(Parse8(b).value.0) && b == Bytes8(Parse8(b).value.0) + Parse8(b).value.1
    {
      Parse8Sound(b);
    }
    UndoesIntro(Parse8, Bytes8, InRange64);
  }

  lemma ScriptUndone()
    ensures Undoes(ParseVarBytes, VarBytes, ShortBytes)
  {
    VarBytesUndone();
    forall s: bytes, rest: bytes | ShortBytes(s)
      ensures ParseVarBytes(VarBytes(s) + rest) == Some((s, rest))
    {
      ParseVarBytesUndoes(s, rest);
    }
    forall b: bytes | ParseVarBytes(b).Some?
      ensures ShortBytes(ParseVarBytes(b).value.0) && b == VarBytes(ParseVarBytes(b).value.0) + ParseVarBytes(b).value.1
    {
      ParseVarBytesSound(b);
    }
    UndoesIntro(ParseVarBytes, VarBytes, ShortBytes);
  }

  /**
    * Signed-message binding: unless two of the hashed lists collide, equal messages are about
    * the same version, lock time, outpoints, sequences, previous values and scripts, outputs
    * and input index.
    */
  lemma MessageBinds(sha: bytes -> Digest, a: WireTx, idxA: nat, valuesA: seq<int>, scriptsA: seq<bytes>,
                     b: WireTx, idxB: nat, valuesB: seq<int>, scriptsB: seq<bytes>)
    requires Signable(a, idxA, valuesA, scriptsA) && Signable(b, idxB, valuesB, scriptsB)
    requires NoCollisions(sha, PreimagesOf(a, valuesA, scriptsA), PreimagesOf(b, valuesB, scriptsB))
    requires SigMsg(sha, a, idxA, valuesA, scriptsA) == SigMsg(sha, b, idxB, valuesB, scriptsB)
    ensures a.version == b.version && a.locktime == b.locktime && idxA == idxB
    ensures Prevouts(a.inputs) == Prevouts(b.inputs) && Sequences(a.inputs) == Sequences(b.inputs)
    ensures valuesA == valuesB && scriptsA == scriptsB && a.outputs == b.outputs
  {
    MessageFields(sha, a.version, a.locktime, PreimagesOf(a, valuesA, scriptsA), idxA,
                  b.version, b.locktime, PreimagesOf(b, valuesB, scriptsB), idxB);
    ListsDecode(a, valuesA, scriptsA, b, valuesB, scriptsB);
  }

  /** The same for the hash that is signed. */
  lemma SighashBinds(sha: bytes -> Digest, tagged: bytes -> Digest,
                     a: WireTx, idxA: nat, valuesA: seq<int>, scriptsA: seq<bytes>,
                     b: WireTx, idxB: nat, valuesB: seq<int>, scriptsB: seq<bytes>)
    requires Signable(a, idxA, valuesA, scriptsA) && Signable(b, idxB, valuesB, scriptsB)
    requires NoCollisions(sha, PreimagesOf(a, valuesA, scriptsA), PreimagesOf(b, valuesB, scriptsB))
    requires NoCollision(tagged, SigMsg(sha, a, idxA, valuesA, scriptsA), SigMsg(sha, b, idxB, valuesB, scriptsB))
    requires Sighash(sha, tagged, a, idxA, valuesA, scriptsA) == Sighash(sha, tagged, b, idxB, valuesB, scriptsB)
    ensures idxA == idxB && valuesA == valuesB && scriptsA == scriptsB
    ensures a.(inputs := []) == b.(inputs := [])
    ensures Prevouts(a.inputs) == Prevouts(b.inputs) && Sequences(a.inputs) == Sequences(b.inputs)
  {
    SignableHashes(sha, tagged, a, idxA, valuesA, scriptsA);
    SignableHashes(sha, tagged, b, idxB, valuesB, scriptsB);
    MessageBinds(sha, a, idxA, valuesA, scriptsA, b, idxB, valuesB, scriptsB);
  }

  lemma SignableHashes(sha: bytes -> Digest, tagged: bytes -> Digest, tx: WireTx, idx: nat, values: seq<int>, scripts: seq<bytes>)
    requires Signable(tx, idx, values, scripts)
    ensures Sighash(sha, tagged, tx, idx, values, scripts) == Ok(tagged(SigMsg(sha, tx, idx, values, scripts)))
  {
    forall k | 0 <= k < |tx.inputs| ensures IsHex(tx.inputs[k].txid) { assert ValidInput(tx.inputs[k]); }
  }

  /** The five lists are recovered from their preimages. */
  lemma ListsDecode(a: WireTx, valuesA: seq<int>, scriptsA: seq<bytes>, b: WireTx, valuesB: seq<int>, scriptsB: seq<bytes>)
    requires Signable(a, 0, valuesA, scriptsA) && Signable(b, 0, valuesB, scriptsB)
    requires PreimagesOf(a, valuesA, scriptsA) == PreimagesOf(b, valuesB, scriptsB)
    ensures Prevouts(a.inputs) == Prevouts(b.inputs) && Sequences(a.inputs) == Sequences(b.inputs)
    ensures valuesA == valuesB && scriptsA == scriptsB && a.outputs == b.outputs
  {
    PrevoutUndone();
    FourUndone();
    EightUndone();
    ScriptUndone();
    OutputUndone();
    InputListsValid(a);
    InputListsValid(b);
    ConcatInjective(ParsePrevout, PrevoutBytes, ValidPrevout, Prevouts(a.inputs), Prevouts(b.inputs));
    ConcatInjective(Parse4, Bytes4, InRange32, Sequences(a.inputs), Sequences(b.inputs));
    ConcatInjective(Parse8, Bytes8, InRange64, valuesA, valuesB);
    ConcatInjective(ParseVarBytes, VarBytes, ShortBytes, scriptsA, scriptsB);
    ConcatInjective(ParseOutput, OutputBytes, ValidOutput, a.outputs, b.outputs);
  }

  lemma InputListsValid(tx: WireTx)
    requires ValidTx(tx)
    ensures AllValid(ValidPrevout, Prevouts(tx.inputs)) && AllValid(InRange32, Sequences(tx.inputs))
    ensures AllValid(ValidOutput, tx.outputs)
  {
    forall k | 0 <= k < |tx.inputs|
      ensures ValidPrevout(Prevouts(tx.inputs)[k]) && InRange32(Sequences(tx.inputs)[k])
    {
      assert ValidInput(tx.inputs[k]);
    }
  }

  // ---------------------------------------------------------------- the message of the standard

  /** What each hashed list holds, as a parser reads it, item after item to its end. */
  predicate ListsHold(prevouts: bytes, amounts: bytes, scripts: bytes, sequences: bytes, outputs: bytes,
                      tx: WireTx, prevValues: seq<int>, prevScripts: seq<bytes>)
  {
    var n := |tx.inputs|;
    && ParseMany(ParsePrevout, n, prevouts) == Some((seq(n, k requires 0 <= k < n => Prevout(tx.inputs[k].txid, tx.inputs[k].vout)), []))
    && ParseMany(Parse8, n, amounts) == Some((prevValues, []))
    && ParseMany(ParseVarBytes, n, scripts) == Some((prevScripts, []))
    && ParseMany(Parse4, n, sequences) == Some((seq(n, k requires 0 <= k < n => tx.inputs[k].sequence), []))
    && ParseMany(ParseOutput, |tx.outputs|, outputs) == Some((tx.outputs, []))
  }

  /**
    * The 175 bytes of BIP-341 for the default hash type without annex: epoch, hash type,
    * version, lock time, the five hashes, spend type, input index, each at its offset.
    */
  predicate MessageLayout(sha: bytes -> Digest, m: bytes, prevouts: bytes, amounts: bytes, scripts: bytes,
                          sequences: bytes, outputs: bytes, version: int, locktime: int, idx: int)
  {
    && |m| == 175
    && m[0] == 0 && m[1] == 0
    && FromLE(m[2..6]) == version && FromLE(m[6..10]) == locktime
    && m[10..42] == sha(prevouts) && m[42..74] == sha(amounts) && m[74..106] == sha(scripts)
    && m[106..138] == sha(sequences) && m[138..170] == sha(outputs)
    && m[170] == 0 && FromLE(m[171..]) == idx
  }

  lemma Shifted(a: bytes, b: bytes, from: nat, to: nat)
    requires |a| <= from <= to <= |a| + |b|
    ensures (a + b)[from..to] == b[from - |a|..to - |a|]
  {
  }

  lemma FieldBytes(n: int)
    requires InRange32(n)
    ensures FromLE(Bytes4(n)) == n
  {
    hide LE, FromLE, Cap;
    Caps();
    FromLEOfLE(n, 4);
  }

  lemma HashesLaid(d1: Digest, d2: Digest, d3: Digest, d4: Digest, d5: Digest, tail: bytes)
    ensures var h := d1 + (d2 + (d3 + (d4 + (d5 + tail))));
            |h| == 160 + |tail| && h[..32] == d1 && h[32..64] == d2 && h[64..96] == d3
            && h[96..128] == d4 && h[128..160] == d5 && h[160..] == tail
  {
    var t5 := d5 + tail;
    var t4 := d4 + t5;
    var t3 := d3 + t4;
    var t2 := d2 + t3;
    Shifted(d1, t2, 32, 64);
    Shifted(d1, t2, 64, 96);
    Shifted(d1, t2, 96, 128);
    Shifted(d1, t2, 128, 160);
    Shifted(d2, t3, 32, 64);
    Shifted(d2, t3, 64, 96);
    Shifted(d2, t3, 96, 128);
    Shifted(d3, t4, 32, 64);
    Shifted(d3, t4, 64, 96);
    Shifted(d4, t5, 32, 64);
  }

  lemma MessageLaid(sha: bytes -> Digest, version: int, locktime: int, p: Preimages, idx: nat)
    requires InRange32(version) && InRange32(locktime) && InRange32(idx)
    ensures MessageLayout(sha, Message(sha, version, locktime, p, idx), p.prevouts, p.amounts, p.scripts,
                          p.sequences, p.outputs, version, locktime, idx)
  {
    hide Bytes4, FromLE;
    FieldBytes(version);
    FieldBytes(locktime);
    FieldBytes(idx);
    var tail := [0x00] + Bytes4(idx);
    HashesLaid(sha(p.prevouts), sha(p.amounts), sha(p.scripts), sha(p.sequences), sha(p.outputs), tail);
    var hashes := sha(p.prevouts) + (sha(p.amounts) + (sha(p.scripts) + (sha(p.sequences) + (sha(p.outputs) + tail))));
    FrontLaid(Bytes4(version), Bytes4(locktime), hashes);
    BackLaid(hashes, tail, Bytes4(idx));
  }

  lemma FrontLaid(v: bytes, l: bytes, rest: bytes)
    requires |v| == |l| == 4 && |rest| == 165
    ensures var m := [0x00, 0x00] + (v + (l + rest));
            |m| == 175 && m[0] == 0 && m[1] == 0 && m[2..6] == v && m[6..10] == l
            && m[10..42] == rest[..32] && m[42..74] == rest[32..64] && m[74..106] == rest[64..96]
            && m[106..138] == rest[96..128] && m[138..170] == rest[128..160]
            && m[170] == rest[160] && m[171..] == rest[161..]
  {
    var head := [0x00, 0x00] + v + l;
    assert [0x00, 0x00] + (v + (l + rest)) == head + rest;
    assert head[2..6] == v && head[6..10] == l;
    Shifted(head, rest, 10, 42);
    Shifted(head, rest, 42, 74);
    Shifted(head, rest, 74, 106);
    Shifted(head, rest, 106, 138);
    Shifted(head, rest, 138, 170);
    Shifted(head, rest, 171, 175);
    HeadKept(head, rest, 2, 6);
    HeadKept(head, rest, 6, 10);
  }

  lemma HeadKept(a: bytes, b: bytes, from: nat, to: nat)
    requires from <= to <= |a|
    ensures (a + b)[from..to] == a[from..to]
  {
  }

  lemma BackLaid(rest: bytes, tail: bytes, index: bytes)
    requires |rest| == 165 && rest[160..] == tail == [0x00] + index && |index| == 4
    ensures rest[160] == 0 && rest[161..] == index
  {
    assert rest[160..][0] == 0;
    assert rest[161..] == rest[160..][1..];
  }

  /**
    * What is signed: the tagged hash of the standard's message, with each hash at its offset
    * and each hashed list holding the outpoints, previous values, previous scripts,
    * sequences and outputs.
    */
  lemma SighashIsStandard(sha: bytes -> Digest, tagged: bytes -> Digest, tx: WireTx, idx: nat,
                          prevValues: seq<int>, prevScripts: seq<bytes>)
    requires Signable(tx, idx, prevValues, prevScripts)
    ensures
      exists m, prevouts, amounts, scripts, sequences, outputs ::
        && Sighash(sha, tagged, tx, idx, prevValues, prevScripts) == Ok(tagged(m))
        && MessageLayout(sha, m, prevouts, amounts, scripts, sequences, outputs, tx.version, tx.locktime, idx)
        && ListsHold(prevouts, amounts, scripts, sequences, outputs, tx, prevValues, prevScripts)
  {
    hide MessageLayout, ListsHold, Message, PreimagesOf, ValidTx;
    var p := PreimagesOf(tx, prevValues, prevScripts);
    SignableHashes(sha, tagged, tx, idx, prevValues, prevScripts);
    SignableFields(tx, idx, prevValues, prevScripts);
    MessageLaid(sha, tx.version, tx.locktime, p, idx);
    ListsParse(tx, prevValues, prevScripts);
  }

  lemma SignableFields(tx: WireTx, idx: nat, prevValues: seq<int>, prevScripts: seq<bytes>)
    requires Signable(tx, idx, prevValues, prevScripts)
    ensures InRange32(tx.version) && InRange32(tx.locktime)
  {
  }

  lemma ListsParse(tx: WireTx, prevValues: seq<int>, prevScripts: seq<bytes>)
    requires Signable(tx, 0, prevValues, prevScripts)
    ensures var p := PreimagesOf(tx, prevValues, prevScripts);
            ListsHold(p.prevouts, p.amounts, p.scripts, p.sequences, p.outputs, tx, prevValues, prevScripts)
  {
    hide Concat, Undoes, ParseMany, AllValid, ParsePrevout, Parse4, Parse8, ParseVarBytes, ParseOutput, ValidTx;
    hide PrevoutBytes, Bytes4, Bytes8, VarBytes, OutputBytes;
    var n := |tx.inputs|;
    PrevoutUndone();
    FourUndone();
    EightUndone();
    ScriptUndone();
    OutputUndone();
    InputListsValid(tx);
    ToEnd(ParsePrevout, PrevoutBytes, ValidPrevout, Prevouts(tx.inputs));
    ToEnd(Parse8, Bytes8, InRange64, prevValues);
    ToEnd(ParseVarBytes, VarBytes, ShortBytes, prevScripts);
    ToEnd(Parse4, Bytes4, InRange32, Sequences(tx.inputs));
    ToEnd(ParseOutput, OutputBytes, ValidOutput, tx.outputs);
    assert seq(n, k requires 0 <= k < n => Prevout(tx.inputs[k].txid, tx.inputs[k].vout)) == Prevouts(tx.inputs);
    assert seq(n, k requires 0 <= k < n => tx.inputs[k].sequence) == Sequences(tx.inputs);
  }

  lemma ToEnd<T(!new)>(p: bytes -> Parse<T>, enc: T -> bytes, valid: T -> bool, xs: seq<T>)
    requires Undoes(p, enc, valid) && AllValid(valid, xs)
    ensures ParseMany(p, |xs|, Concat(enc, xs)) == Some((xs, []))
  {
    hide Undoes, ParseMany, Concat;
    ParseManyUndoes(p, enc, valid, xs, []);
    assert Concat(enc, xs) + [] == Concat(enc, xs);
  }

  /** The hashed outputs are byte for byte the serialized outputs after their count. */
  lemma OutputsPreimageIsBody(tx: WireTx, prevValues: seq<int>, prevScripts: seq<bytes>)
    ensures OutputsBytes(tx.outputs) == VarInt(|tx.outputs|) + PreimagesOf(tx, prevValues, prevScripts).outputs
  {
  }

  // ---------------------------------------------------------------- signing every input

  /** Equal but for the scripts and witnesses that signing fills in. */
  predicate SameUnsigned(a: WireTx, b: WireTx) {
    && a.version == b.version && a.locktime == b.locktime && a.outputs == b.outputs
    && |a.inputs| == |b.inputs|
    && forall k :: 0 <= k < |a.inputs| ==> Body(a.inputs[k]) == Body(b.inputs[k])
  }

  /** `signTransaction`: `sign` stands for the key path signature of an input over a hash. */
  function SignTransaction(sha: bytes -> Digest, tagged: bytes -> Digest, sign: (nat, Digest) -> Signature,
                           tx: WireTx, prevValues: seq<int>, prevScripts: seq<bytes>): Result<WireTx, SignError>
  {
    if |prevValues| != |tx.inputs| || |prevScripts| != |tx.inputs| then Err(PrevoutsMismatch)
    else if !HexIds(tx.inputs) then Err(BadTxid)
    else Ok(tx.(inputs := seq(|tx.inputs|, k requires 0 <= k < |tx.inputs| =>
      tx.inputs[k].(stack := [sign(k, Sighash(sha, tagged, tx, k, prevValues, prevScripts).value)]))))
  }

  lemma SighashIgnoresWitness(sha: bytes -> Digest, tagged: bytes -> Digest, a: WireTx, b: WireTx, idx: int,
                              prevValues: seq<int>, prevScripts: seq<bytes>)
    requires SameUnsigned(a, b)
    ensures Sighash(sha, tagged, a, idx, prevValues, prevScripts) == Sighash(sha, tagged, b, idx, prevValues, prevScripts)
  {
    forall k | 0 <= k < |a.inputs|
      ensures a.inputs[k].txid == b.inputs[k].txid && a.inputs[k].vout == b.inputs[k].vout
      ensures a.inputs[k].sequence == b.inputs[k].sequence
    {
      assert Body(a.inputs[k]) == Body(b.inputs[k]);
    }
    assert Prevouts(a.inputs) == Prevouts(b.inputs) && Sequences(a.inputs) == Sequences(b.inputs);
  }

  /**
    * Signing adds one 64-byte witness item per input and changes nothing else; the id stays
    * that of the unsigned transaction, and each item signs the finished transaction's own hash.
    */
  lemma SignedTransaction(sha: bytes -> Digest, tagged: bytes -> Digest, sign: (nat, Digest) -> Signature,
                          tx: WireTx, prevValues: seq<int>, prevScripts: seq<bytes>, doubleHash: bytes -> bytes)
    requires SignTransaction(sha, tagged, sign, tx, prevValues, prevScripts).Ok?
    ensures
      var signed := SignTransaction(sha, tagged, sign, tx, prevValues, prevScripts).value;
      && SameUnsigned(tx, signed)
      && ComputeTxid(doubleHash, signed) == ComputeTxid(doubleHash, tx)
      && forall k :: 0 <= k < |signed.inputs| ==>
           var hash := Sighash(sha, tagged, signed, k, prevValues, prevScripts);
           hash.Ok? && signed.inputs[k].stack == [sign(k, hash.value)]
  {
    hide Concat, Bytes4, VarInt, SigMsg, IsHex;
    var signed := SignTransaction(sha, tagged, sign, tx, prevValues, prevScripts).value;
    assert SameUnsigned(tx, signed);
    SameTxid(doubleHash, tx, signed);
    forall k | 0 <= k < |signed.inputs|
      ensures Sighash(sha, tagged, signed, k, prevValues, prevScripts) == Sighash(sha, tagged, tx, k, prevValues, prevScripts)
    {
      SighashIgnoresWitness(sha, tagged, tx, signed, k, prevValues, prevScripts);
    }
  }

  /** The id does not see what signing fills in. */
  lemma SameTxid(doubleHash: bytes -> bytes, a: WireTx, b: WireTx)
    requires SameUnsigned(a, b)
    ensures ComputeTxid(doubleHash, a) == ComputeTxid(doubleHash, b)
  {
    hide Concat, Bytes4, VarInt, IsHex, OutputsBytes;
    assert Bodies(a.inputs) == Bodies(b.inputs);
    BodiesBytes(a.inputs);
    BodiesBytes(b.inputs);
    assert forall k :: 0 <= k < |a.inputs| ==> Body(a.inputs[k]).txid == Body(b.inputs[k]).txid;
  }
}

/**
  * A parser for the layout of BIP-144, and the proof that it and the serializer undo each
  * other: every in-range transaction with an input is recovered, and nothing else parses.
  */
module WireParser {
  import opened Wrappers
  import opened Hex
  import opened Wire

  /** A parsed value and the bytes after it. */
  type Parse<T> = Option<(T, bytes)>

  /** What it takes for a parser to undo an encoder on every prefix. */
  ghost predicate Undoes<T(!new)>(p: bytes -> Parse<T>, enc: T -> bytes, valid: T -> bool) {
    && (forall x: T, rest: bytes {:trigger p(enc(x) + rest)} :: valid(x) ==> p(enc(x) + rest) == Some((x, rest)))
    && (forall b: bytes {:trigger p(b)} :: p(b).Some? ==>
          valid(p(b).value.0) && b == enc(p(b).value.0) + p(b).value.1)
  }

  // ---------------------------------------------------------------- integers

  function ParseLE(b: bytes, k: nat): Parse<nat> {
    if |b| < k then None else Some((FromLE(b[..k]), b[k..]))
  }

  lemma ParseLEUndoes(n: nat, k: nat, rest: bytes)
    requires n < Cap(k)
    ensures ParseLE(LE(n, k) + rest, k) == Some((n, rest))
  {
    FromLEOfLE(n, k);
    assert (LE(n, k) + rest)[..k] == LE(n, k) && (LE(n, k) + rest)[k..] == rest;
  }

  lemma ParseLESound(b: bytes, k: nat)
    requires |b| >= k
    ensures var (n, rest) := ParseLE(b, k).value; n < Cap(k) && b == LE(n, k) + rest
  {
    LEOfFromLE(b[..k]);
    assert b == b[..k] + b[k..];
  }

  function Parse4(b: bytes): Parse<int> {
    match ParseLE(b, 4) case None => None case Some((n, rest)) => Some((n, rest))
  }

  function Parse8(b: bytes): Parse<int> {
    match ParseLE(b, 8) case None => None case Some((n, rest)) => Some((n, rest))
  }

  predicate InRange64(n: int) { 0 <= n < TWO_64 }

  lemma Parse4Undoes(n: int, rest: bytes)
    requires InRange32(n)
    ensures Parse4(Bytes4(n) + rest) == Some((n, rest))
  {
    hide LE, FromLE, Cap, ParseLE;
    Caps();
    ParseLEUndoes(n, 4, rest);
  }

  lemma Parse4Sound(b: bytes)
    requires Parse4(b).Some?
    ensures var (n, rest) := Parse4(b).value; InRange32(n) && b == Bytes4(n) + rest
  {
    hide LE, FromLE, Cap;
    Caps();
    ParseLESound(b, 4);
  }

  lemma Parse8Undoes(n: int, rest: bytes)
    requires InRange64(n)
    ensures Parse8(Bytes8(n) + rest) == Some((n, rest))
  {
    hide LE, FromLE, Cap, ParseLE;
    Caps();
    ParseLEUndoes(n, 8, rest);
  }

  lemma Parse8Sound(b: bytes)
    requires Parse8(b).Some?
    ensures var (n, rest) := Parse8(b).value; InRange64(n) && b == Bytes8(n) + rest
  {
    hide LE, FromLE, Cap;
    Caps();
    ParseLESound(b, 8);
  }

  /** A compact size; one that has a shorter form is refused. */
  function ParseVarInt(b: bytes): Parse<nat> {
    if b == [] then None
    else if b[0] < 0xfd then Some((b[0], b[1..]))
    else
      var k := if b[0] == 0xfd then 2 else if b[0] == 0xfe then 4 else 8;
      match ParseLE(b[1..], k)
      case None => None
      case Some((n, rest)) => if n < Least(k) then None else Some((n, rest))
  }

  /** The least number written in `k` bytes after the tag. */
  function Least(k: nat): nat {
    if k == 2 then 0xfd else if k == 4 then 0x1_0000 else TWO_32
  }

  lemma ParseVarIntUndoes(n: nat, rest: bytes)
    requires n < TWO_64
    ensures ParseVarInt(VarInt(n) + rest) == Some((n, rest))
  {
    hide LE, FromLE, Cap, ParseLE;
    Caps();
    if n < 0xfd {
      assert ([n] + rest)[1..] == rest;
    } else {
      var k := if n <= 0xffff then 2 else if n <= 0xffff_ffff then 4 else 8;
      ParseLEUndoes(n, k, rest);
      assert (VarInt(n) + rest)[1..] == LE(n, k) + rest;
    }
  }

  lemma ParseVarIntSound(b: bytes)
    requires ParseVarInt(b).Some?
    ensures var (n, rest) := ParseVarInt(b).value; n < TWO_64 && b == VarInt(n) + rest
  {
    hide LE, FromLE, Cap;
    Caps();
    if b[0] >= 0xfd {
      var k := if b[0] == 0xfd then 2 else if b[0] == 0xfe then 4 else 8;
      ParseLESound(b[1..], k);
      var n := ParseVarInt(b).value.0;
      assert VarInt(n) == [b[0]] + LE(n, k);
    }
    assert b == [b[0]] + b[1..];
  }

  function ParseVarBytes(b: bytes): Parse<bytes> {
    match ParseVarInt(b)
    case None => None
    case Some((n, rest)) => if |rest| < n then None else Some((rest[..n], rest[n..]))
  }

  predicate ShortBytes(b: bytes) { |b| < TWO_64 }

  lemma ParseVarBytesUndoes(s: bytes, rest: bytes)
    requires ShortBytes(s)
    ensures ParseVarBytes(VarBytes(s) + rest) == Some((s, rest))
  {
    hide ParseVarInt, VarInt;
    ParseVarIntUndoes(|s|, s + rest);
    assert VarBytes(s) + rest == VarInt(|s|) + (s + rest);
    assert (s + rest)[..|s|] == s && (s + rest)[|s|..] == rest;
  }

  lemma ParseVarBytesSound(b: bytes)
    requires ParseVarBytes(b).Some?
    ensures var (s, rest) := ParseVarBytes(b).value; ShortBytes(s) && b == VarBytes(s) + rest
  {
    hide ParseVarInt, VarInt;
    ParseVarIntSound(b);
    var (n, rest) := ParseVarInt(b).value;
    assert b == VarInt(n) + (rest[..n] + rest[n..]);
  }

  lemma VarBytesUndone()
    ensures Undoes(ParseVarBytes, ItemBytes, ShortBytes)
  {
    hide ParseVarBytes, VarBytes, ShortBytes;
    forall s: bytes, rest: bytes | ShortBytes(s)
      ensures ParseVarBytes(ItemBytes(s) + rest) == Some((s, rest))
    {
      ParseVarBytesUndoes(s, rest);
    }
    forall b: bytes | ParseVarBytes(b).Some?
      ensures ShortBytes(ParseVarBytes(b).value.0)
      ensures b == ItemBytes(ParseVarBytes(b).value.0) + ParseVarBytes(b).value.1
    {
      ParseVarBytesSound(b);
    }
  }

  // ---------------------------------------------------------------- repetition

  function ParseMany<T>(p: bytes -> Parse<T>, n: nat, b: bytes): Parse<seq<T>> {
    if n == 0 then Some(([], b))
    else match p(b)
      case None => None
      case Some((x, rest)) =>
        match ParseMany(p, n - 1, rest)
        case None => None
        case Some((xs, rest')) => Some(([x] + xs, rest'))
  }

  predicate AllValid<T>(valid: T -> bool, xs: seq<T>) {
    forall k :: 0 <= k < |xs| ==> valid(xs[k])
  }

  lemma {:induction false} ParseManyUndoes<T(!new)>(p: bytes -> Parse<T>, enc: T -> bytes, valid: T -> bool, xs: seq<T>, rest: bytes)
    requires Undoes(p, enc, valid) && AllValid(valid, xs)
    ensures ParseMany(p, |xs|, Concat(enc, xs) + rest) == Some((xs, rest))
  {
    if xs == [] {
      assert Concat(enc, xs) + rest == rest;
    } else {
      ParseManyUndoes(p, enc, valid, xs[1..], rest);
      assert Concat(enc, xs) + rest == enc(xs[0]) + (Concat(enc, xs[1..]) + rest);
      assert valid(xs[0]);
      assert xs == [xs[0]] + xs[1..];
    }
  }

  lemma {:induction false} ParseManySound<T(!new)>(p: bytes -> Parse<T>, enc: T -> bytes, valid: T -> bool, n: nat, b: bytes)
    requires Undoes(p, enc, valid) && ParseMany(p, n, b).Some?
    ensures var (xs, rest) := ParseMany(p, n, b).value;
            |xs| == n && AllValid(valid, xs) && b == Concat(enc, xs) + rest
  {
    if n == 0 {
      assert b == Concat(enc, []) + b;
    } else {
      var (x, rest) := p(b).value;
      ParseManySound(p, enc, valid, n - 1, rest);
      var (xs, rest') := ParseMany(p, n - 1, rest).value;
      assert ([x] + xs)[1..] == xs;
      assert Concat(enc, [x] + xs) == enc(x) + Concat(enc, xs);
      assert b == enc(x) + (Concat(enc, xs) + rest');
    }
  }

  /** A count followed by that many values. */
  function ParseList<T>(p: bytes -> Parse<T>, b: bytes): Parse<seq<T>> {
    match ParseVarInt(b)
    case None => None
    case Some((n, rest)) => ParseMany(p, n, rest)
  }

  lemma ParseListUndoes<T(!new)>(p: bytes -> Parse<T>, enc: T -> bytes, valid: T -> bool, xs: seq<T>, rest: bytes)
    requires Undoes(p, enc, valid) && AllValid(valid, xs) && |xs| < TWO_64
    ensures ParseList(p, VarInt(|xs|) + Concat(enc, xs) + rest) == Some((xs, rest))
  {
    hide Undoes, ParseVarInt, VarInt, ParseMany;
    assert VarInt(|xs|) + Concat(enc, xs) + rest == VarInt(|xs|) + (Concat(enc, xs) + rest);
    ParseVarIntUndoes(|xs|, Concat(enc, xs) + rest);
    ParseManyUndoes(p, enc, valid, xs, rest);
  }

  lemma ParseListSound<T(!new)>(p: bytes -> Parse<T>, enc: T -> bytes, valid: T -> bool, b: bytes)
    requires Undoes(p, enc, valid) && ParseList(p, b).Some?
    ensures var (xs, rest) := ParseList(p, b).value;
            |xs| < TWO_64 && AllValid(valid, xs) && b == VarInt(|xs|) + Concat(enc, xs) + rest
  {
    hide Undoes, ParseVarInt, VarInt, ParseMany;
    ParseVarIntSound(b);
    var (n, tail) := ParseVarInt(b).value;
    ParseManySound(p, enc, valid, n, tail);
    var (xs, rest) := ParseMany(p, n, tail).value;
    assert b == VarInt(n) + (Concat(enc, xs) + rest);
  }

  // ---------------------------------------------------------------- inputs and outputs

  function ParseOutput(b: bytes): Parse<TxOutput> {
    match Parse8(b)
    case None => None
    case Some((value, rest)) =>
      match ParseVarBytes(rest)
      case None => None
      case Some((script, rest')) => Some((TxOutput(value, script), rest'))
  }

  lemma OutputUndone()
    ensures Undoes(ParseOutput, OutputBytes, ValidOutput)
  {
    hide Parse8, ParseVarBytes, VarBytes, Bytes8;
    forall o: TxOutput, rest: bytes | ValidOutput(o)
      ensures ParseOutput(OutputBytes(o) + rest) == Some((o, rest))
    {
      assert OutputBytes(o) + rest == Bytes8(o.value) + (VarBytes(o.pkScript) + rest);
      Parse8Undoes(o.value, VarBytes(o.pkScript) + rest);
      ParseVarBytesUndoes(o.pkScript, rest);
    }
    forall b: bytes | ParseOutput(b).Some?
      ensures ValidOutput(ParseOutput(b).value.0)
      ensures b == OutputBytes(ParseOutput(b).value.0) + ParseOutput(b).value.1
    {
      Parse8Sound(b);
      ParseVarBytesSound(Parse8(b).value.1);
    }
  }

  /** An input as the body lists it: its witness comes later. */
  predicate ValidBody(i: TxInput) { ValidInput(i) && i.stack == [] }

  function ParseOutpoint(b: bytes): Parse<(string, int)> {
    if |b| < 32 then None
    else match Parse4(b[32..])
      case None => None
      case Some((vout, rest)) => Some(((ToHex(Reverse(b[..32])), vout), rest))
  }

  predicate ValidId(txid: string) { |txid| == 64 && IsLowerHex(txid) }

  lemma ParseOutpointUndoes(txid: string, vout: int, rest: bytes)
    requires ValidId(txid) && InRange32(vout)
    ensures ParseOutpoint(Outpoint(txid, vout) + rest) == Some(((txid, vout), rest))
  {
    hide FromHex, ToHex, Parse4, Bytes4;
    ToFromHex(txid);
    var id := FromHex(txid).value;
    var b := Outpoint(txid, vout) + rest;
    assert b == Reverse(id) + (Bytes4(vout) + rest);
    assert b[..32] == Reverse(id) && b[32..] == Bytes4(vout) + rest;
    ReverseTwice(id);
    Parse4Undoes(vout, rest);
  }

  lemma ParseOutpointSound(b: bytes)
    requires ParseOutpoint(b).Some?
    ensures var ((txid, vout), rest) := ParseOutpoint(b).value;
            ValidId(txid) && InRange32(vout) && b == Outpoint(txid, vout) + rest
  {
    var id := Reverse(b[..32]);
    ToHexIsLowerHex(id);
    FromToHex(id);
    ReverseTwice(b[..32]);
    Parse4Sound(b[32..]);
    assert b == b[..32] + b[32..];
  }

  function ParseInput(b: bytes): Parse<TxInput> {
    match ParseOutpoint(b)
    case None => None
    case Some(((txid, vout), b1)) =>
      match ParseVarBytes(b1)
      case None => None
      case Some((script, b2)) =>
        match Parse4(b2)
        case None => None
        case Some((sequence, rest)) => Some((TxInput(txid, vout, script, sequence, []), rest))
  }

  lemma ParseInputUndoes(i: TxInput, rest: bytes)
    requires ValidBody(i)
    ensures ParseInput(InputBytes(i) + rest) == Some((i, rest))
  {
    hide ParseOutpoint, Outpoint, Parse4, ParseVarBytes, VarBytes, Bytes4, IsLowerHex;
    assert InputBytes(i) + rest == Outpoint(i.txid, i.vout) + (VarBytes(i.scriptSig) + (Bytes4(i.sequence) + rest));
    ParseOutpointUndoes(i.txid, i.vout, VarBytes(i.scriptSig) + (Bytes4(i.sequence) + rest));
    ParseVarBytesUndoes(i.scriptSig, Bytes4(i.sequence) + rest);
    Parse4Undoes(i.sequence, rest);
  }

  lemma ParseInputSound(b: bytes)
    requires ParseInput(b).Some?
    ensures ValidBody(ParseInput(b).value.0)
    ensures b == InputBytes(ParseInput(b).value.0) + ParseInput(b).value.1
  {
    hide ParseOutpoint, Outpoint, Parse4, ParseVarBytes, VarBytes, Bytes4, IsLowerHex;
    ParseOutpointSound(b);
    var ((txid, vout), b1) := ParseOutpoint(b).value;
    ParseVarBytesSound(b1);
    var (script, b2) := ParseVarBytes(b1).value;
    Parse4Sound(b2);
    var (sequence, rest) := Parse4(b2).value;
    assert b == Outpoint(txid, vout) + VarBytes(script) + Bytes4(sequence) + rest;
  }

  lemma InputUndone()
    ensures Undoes(ParseInput, InputBytes, ValidBody)
  {
    hide ParseInput, InputBytes, ValidBody;
    forall i: TxInput, rest: bytes | ValidBody(i)
      ensures ParseInput(InputBytes(i) + rest) == Some((i, rest))
    {
      ParseInputUndoes(i, rest);
    }
    forall b: bytes | ParseInput(b).Some?
      ensures ValidBody(ParseInput(b).value.0)
      ensures b == InputBytes(ParseInput(b).value.0) + ParseInput(b).value.1
    {
      ParseInputSound(b);
    }
  }

  function ParseStack(b: bytes): Parse<seq<bytes>> { ParseList(ParseVarBytes, b) }

  lemma StackUndone()
    ensures Undoes(ParseStack, WitnessBytes, ValidStack)
  {
    VarBytesUndone();
    forall s: seq<bytes>, rest: bytes | ValidStack(s)
      ensures ParseStack(WitnessBytes(s) + rest) == Some((s, rest))
    {
      assert AllValid(ShortBytes, s);
      ParseListUndoes(ParseVarBytes, ItemBytes, ShortBytes, s, rest);
    }
    forall b: bytes | ParseStack(b).Some?
      ensures ValidStack(ParseStack(b).value.0)
      ensures b == WitnessBytes(ParseStack(b).value.0) + ParseStack(b).value.1
    {
      ParseListSound(ParseVarBytes, ItemBytes, ShortBytes, b);
    }
    UndoesIntro(ParseStack, WitnessBytes, ValidStack);
  }

  lemma UndoesIntro<T(!new)>(p: bytes -> Parse<T>, enc: T -> bytes, valid: T -> bool)
    requires forall x: T, rest: bytes {:trigger p(enc(x) + rest)} :: valid(x) ==> p(enc(x) + rest) == Some((x, rest))
    requires forall b: bytes {:trigger p(b)} :: p(b).Some? ==>
               valid(p(b).value.0) && b == enc(p(b).value.0) + p(b).value.1
    ensures Undoes(p, enc, valid)
  {
  }

  // ---------------------------------------------------------------- transactions

  function Body(i: TxInput): TxInput { i.(stack := []) }

  function Bodies(inputs: seq<TxInput>): (bs: seq<TxInput>)
    ensures |bs| == |inputs|
  {
    seq(|inputs|, k requires 0 <= k < |inputs| => Body(inputs[k]))
  }

  function Stacks(inputs: seq<TxInput>): (ss: seq<seq<bytes>>)
    ensures |ss| == |inputs|
  {
    seq(|inputs|, k requires 0 <= k < |inputs| => inputs[k].stack)
  }

  /** Put the witness stacks back into the inputs. */
  function Attach(bodies: seq<TxInput>, stacks: seq<seq<bytes>>): (inputs: seq<TxInput>)
    requires |bodies| == |stacks|
    ensures |inputs| == |bodies|
  {
    seq(|bodies|, k requires 0 <= k < |bodies| => bodies[k].(stack := stacks[k]))
  }

  lemma AttachParts(inputs: seq<TxInput>)
    ensures Attach(Bodies(inputs), Stacks(inputs)) == inputs
  {
    assert forall k :: 0 <= k < |inputs| ==> Attach(Bodies(inputs), Stacks(inputs))[k] == inputs[k];
  }

  lemma PartsOfAttached(bodies: seq<TxInput>, stacks: seq<seq<bytes>>)
    requires |bodies| == |stacks| && AllValid(ValidBody, bodies)
    ensures Bodies(Attach(bodies, stacks)) == bodies && Stacks(Attach(bodies, stacks)) == stacks
  {
    forall k | 0 <= k < |bodies|
      ensures Bodies(Attach(bodies, stacks))[k] == bodies[k]
    {
      assert ValidBody(bodies[k]);
    }
  }

  lemma BodyBytes(i: TxInput)
    ensures InputBytes(Body(i)) == InputBytes(i)
  {
    hide Outpoint, VarBytes, Bytes4;
  }

  lemma {:induction false} BodiesBytes(inputs: seq<TxInput>)
    ensures Concat(InputBytes, Bodies(inputs)) == Concat(InputBytes, inputs)
  {
    hide InputBytes;
    if inputs == [] {
    } else {
      BodiesBytes(inputs[1..]);
      assert Bodies(inputs)[1..] == Bodies(inputs[1..]);
      BodyBytes(inputs[0]);
    }
  }

  lemma {:induction false} StacksBytes(inputs: seq<TxInput>)
    ensures Concat(InputWitness, inputs) == Concat(WitnessBytes, Stacks(inputs))
  {
    if inputs == [] {
    } else {
      StacksBytes(inputs[1..]);
      assert Stacks(inputs)[1..] == Stacks(inputs[1..]);
    }
  }

  /** Inputs, outputs and lock time with no witness, up to the end of the bytes. */
  function ParseLegacy(version: int, b: bytes): Option<WireTx> {
    match ParseList(ParseInput, b)
    case None => None
    case Some((inputs, b1)) =>
      match ParseList(ParseOutput, b1)
      case None => None
      case Some((outputs, b2)) =>
        match Parse4(b2)
        case None => None
        case Some((locktime, rest)) =>
          if rest != [] then None else Some(WireTx(version, inputs, outputs, locktime))
  }

  /** The same with one witness stack per input, at least one of them not empty. */
  function ParseSegwit(version: int, b: bytes): Option<WireTx> {
    match ParseList(ParseInput, b)
    case None => None
    case Some((bodies, b1)) =>
      match ParseList(ParseOutput, b1)
      case None => None
      case Some((outputs, b2)) =>
        match ParseMany(ParseStack, |bodies|, b2)
        case None => None
        case Some((stacks, b3)) =>
          match Parse4(b3)
          case None => None
          case Some((locktime, rest)) =>
            if rest != [] || |stacks| != |bodies| || !HasWitness(Attach(bodies, stacks)) then None
            else Some(WireTx(version, Attach(bodies, stacks), outputs, locktime))
  }

  function ParseTx(b: bytes): Option<WireTx> {
    match Parse4(b)
    case None => None
    case Some((version, rest)) =>
      if rest != [] && rest[0] == 0 then
        if |rest| < 2 || rest[1] != 1 then None else ParseSegwit(version, rest[2..])
      else ParseLegacy(version, rest)
  }

  /** Everything after the version and the marker. */
  function LegacyTail(tx: WireTx): bytes {
    InputsBytes(tx.inputs) + (OutputsBytes(tx.outputs) + Bytes4(tx.locktime))
  }

  function SegwitTail(tx: WireTx): bytes {
    InputsBytes(tx.inputs) + (OutputsBytes(tx.outputs) + (Concat(InputWitness, tx.inputs) + Bytes4(tx.locktime)))
  }

  lemma TxBytesParts(tx: WireTx)
    ensures HasWitness(tx.inputs) ==> TxBytes(tx, true) == Bytes4(tx.version) + ([0, 1] + SegwitTail(tx))
    ensures !HasWitness(tx.inputs) ==> TxBytes(tx, true) == Bytes4(tx.version) + LegacyTail(tx)
    ensures TxBytes(tx, false) == Bytes4(tx.version) + LegacyTail(tx)
  {
    hide InputsBytes, OutputsBytes, Bytes4, HasWitness, Concat;
  }

  lemma InputsUndone(inputs: seq<TxInput>, rest: bytes)
    requires AllValid(ValidInput, inputs) && |inputs| < TWO_64
    ensures ParseList(ParseInput, InputsBytes(inputs) + rest) == Some((Bodies(inputs), rest))
  {
    InputUndone();
    BodiesBytes(inputs);
    assert AllValid(ValidBody, Bodies(inputs)) by {
      forall k | 0 <= k < |inputs| ensures ValidBody(Bodies(inputs)[k]) { BodyValid(inputs[k]); }
    }
    ParseListUndoes(ParseInput, InputBytes, ValidBody, Bodies(inputs), rest);
  }

  lemma BodyValid(i: TxInput)
    requires ValidInput(i)
    ensures ValidBody(Body(i))
  {
  }

  lemma OutputsUndone(outputs: seq<TxOutput>, rest: bytes)
    requires AllValid(ValidOutput, outputs) && |outputs| < TWO_64
    ensures ParseList(ParseOutput, OutputsBytes(outputs) + rest) == Some((outputs, rest))
  {
    OutputUndone();
    ParseListUndoes(ParseOutput, OutputBytes, ValidOutput, outputs, rest);
  }

  lemma StacksUndone(inputs: seq<TxInput>, rest: bytes)
    requires AllValid(ValidInput, inputs)
    ensures ParseMany(ParseStack, |inputs|, Concat(InputWitness, inputs) + rest) == Some((Stacks(inputs), rest))
  {
    StackUndone();
    StacksBytes(inputs);
    assert AllValid(ValidStack, Stacks(inputs)) by {
      forall k | 0 <= k < |inputs| ensures ValidStack(Stacks(inputs)[k]) { assert ValidInput(inputs[k]); }
    }
    ParseManyUndoes(ParseStack, WitnessBytes, ValidStack, Stacks(inputs), rest);
  }

  lemma ParseLegacyUndoes(tx: WireTx)
    requires ValidTx(tx)
    ensures ParseLegacy(tx.version, LegacyTail(tx)) == Some(tx.(inputs := Bodies(tx.inputs)))
  {
    assert AllValid(ValidInput, tx.inputs) && AllValid(ValidOutput, tx.outputs);
    InputsUndone(tx.inputs, OutputsBytes(tx.outputs) + Bytes4(tx.locktime));
    OutputsUndone(tx.outputs, Bytes4(tx.locktime));
    Parse4Undoes(tx.locktime, []);
    assert Bytes4(tx.locktime) + [] == Bytes4(tx.locktime);
  }

  lemma ParseSegwitUndoes(tx: WireTx)
    requires ValidTx(tx) && HasWitness(tx.inputs)
    ensures ParseSegwit(tx.version, SegwitTail(tx)) == Some(tx)
  {
    assert AllValid(ValidInput, tx.inputs) && AllValid(ValidOutput, tx.outputs);
    var wit := Concat(InputWitness, tx.inputs);
    InputsUndone(tx.inputs, OutputsBytes(tx.outputs) + (wit + Bytes4(tx.locktime)));
    OutputsUndone(tx.outputs, wit + Bytes4(tx.locktime));
    StacksUndone(tx.inputs, Bytes4(tx.locktime));
    Parse4Undoes(tx.locktime, []);
    assert Bytes4(tx.locktime) + [] == Bytes4(tx.locktime);
    AttachParts(tx.inputs);
  }

  lemma BodiesOfUnsigned(inputs: seq<TxInput>)
    requires !HasWitness(inputs)
    ensures Bodies(inputs) == inputs
  {
    assert forall k :: 0 <= k < |inputs| ==> inputs[k].stack == [];
  }

  lemma ParseUnsigned(tx: WireTx)
    requires ValidTx(tx) && tx.inputs != []
    ensures ParseTx(TxBytes(tx, false)) == Some(tx.(inputs := Bodies(tx.inputs)))
  {
    TxBytesParts(tx);
    ParseLegacyUndoes(tx);
    Parse4Undoes(tx.version, LegacyTail(tx));
  }

  lemma ParseSigned(tx: WireTx)
    requires ValidTx(tx) && HasWitness(tx.inputs)
    ensures ParseTx(TxBytes(tx, true)) == Some(tx)
  {
    TxBytesParts(tx);
    ParseSegwitUndoes(tx);
    Parse4Undoes(tx.version, [0, 1] + SegwitTail(tx));
    assert ([0, 1] + SegwitTail(tx))[2..] == SegwitTail(tx);
  }

  /** Nothing without an input parses. */
  lemma ParsedHasInput(b: bytes)
    requires ParseTx(b).Some?
    ensures ParseTx(b).value.inputs != []
  {
  }

  /**
    * Wire round trip: an in-range transaction is recovered from its serialization, with or
    * without witnesses, exactly when it has an input; without one the count is mistaken
    * for the marker.
    */
  lemma RoundTrip(tx: WireTx)
    requires ValidTx(tx)
    ensures SerializeTx(tx, true) == Some(TxBytes(tx, true))
    ensures ParseTx(TxBytes(tx, true)) == Some(tx) <==> tx.inputs != []
  {
    assert HexIds(tx.inputs) by {
      forall k | 0 <= k < |tx.inputs| ensures IsHex(tx.inputs[k].txid) { assert ValidInput(tx.inputs[k]); }
    }
    if tx.inputs == [] {
      if ParseTx(TxBytes(tx, true)) == Some(tx) {
        ParsedHasInput(TxBytes(tx, true));
      }
    } else if HasWitness(tx.inputs) {
      ParseSigned(tx);
    } else {
      TxBytesParts(tx);
      ParseUnsigned(tx);
      BodiesOfUnsigned(tx.inputs);
    }
  }

  /** Serialization with witnesses is injective. */
  lemma SerializationInjective(a: WireTx, b: WireTx)
    requires ValidTx(a) && ValidTx(b) && a.inputs != [] && b.inputs != []
    requires SerializeTx(a, true) == SerializeTx(b, true)
    ensures a == b
  {
    RoundTrip(a);
    RoundTrip(b);
  }

  /**
    * The computed id: 64 lower-case hexadecimal characters, and an input that spends by it
    * carries the double hash of the stripped bytes as it is. There is an id exactly when
    * every input's own id is hexadecimal.
    */
  lemma ComputedIdSpends(doubleHash: bytes -> bytes, tx: WireTx, vout: int)
    requires |doubleHash(TxBytes(tx, false))| == 32
    ensures ComputeTxid(doubleHash, tx).Some? <==> HexIds(tx.inputs)
    ensures ComputeTxid(doubleHash, tx).Some? ==>
              var id := ComputeTxid(doubleHash, tx).value;
              ValidId(id) && Outpoint(id, vout) == doubleHash(TxBytes(tx, false)) + Bytes4(vout)
  {
    hide TxBytes, HexIds, FromHex, ToHex, IsLowerHex, Bytes4;
    var hash := doubleHash(TxBytes(tx, false));
    ToHexIsLowerHex(Reverse(hash));
    FromToHex(Reverse(hash));
    ReverseTwice(hash);
  }

  /** The stripped serialization, hence the transaction id, ignores witnesses and nothing else. */
  lemma StrippedIgnoresWitness(a: WireTx, b: WireTx)
    requires ValidTx(a) && ValidTx(b) && a.inputs != [] && b.inputs != []
    ensures SerializeTx(a, false) == SerializeTx(b, false) <==>
            a.(inputs := Bodies(a.inputs)) == b.(inputs := Bodies(b.inputs))
  {
    RoundTrip(a);
    RoundTrip(b);
    ParseUnsigned(a);
    ParseUnsigned(b);
    assert SerializeTx(a, false) == Some(TxBytes(a, false)) && SerializeTx(b, false) == Some(TxBytes(b, false));
    BodiesBytes(a.inputs);
    BodiesBytes(b.inputs);
    assert |Bodies(a.inputs)| == |a.inputs| && |Bodies(b.inputs)| == |b.inputs|;
  }

  /** Whatever parses is an in-range transaction, and the bytes are its serialization. */
  lemma ParseSound(b: bytes)
    requires ParseTx(b).Some?
    ensures var tx := ParseTx(b).value; ValidTx(tx) && tx.inputs != [] && SerializeTx(tx, true) == Some(b)
  {
    ParsedHasInput(b);
    Parse4Sound(b);
    var (version, rest) := Parse4(b).value;
    ParsedTail(version, rest);
    RoundTrip(ParseTx(b).value);
  }

  lemma ParsedTail(version: int, rest: bytes)
    requires InRange32(version) && ParseTx(Bytes4(version) + rest).Some?
    ensures var tx := ParseTx(Bytes4(version) + rest).value;
            ValidTx(tx) && Bytes4(version) + rest == TxBytes(tx, true)
  {
    hide SegwitTail, LegacyTail, Parse4, Bytes4, TxBytes, ParseSegwit, ParseLegacy, HasWitness, ValidTx;
    Parse4Undoes(version, rest);
    var tx := ParseTx(Bytes4(version) + rest).value;
    TxBytesParts(tx);
    if rest != [] && rest[0] == 0 {
      SegwitSound(version, rest[2..]);
      assert rest == [0, 1] + rest[2..];
      SegwitVersion(version, rest[2..]);
    } else {
      LegacySound(version, rest);
      LegacyVersion(version, rest);
    }
  }

  lemma SegwitVersion(version: int, b: bytes)
    requires ParseSegwit(version, b).Some?
    ensures ParseSegwit(version, b).value.version == version
  {
    hide ParseList, ParseMany, Parse4, HasWitness;
  }

  lemma LegacyVersion(version: int, b: bytes)
    requires ParseLegacy(version, b).Some?
    ensures ParseLegacy(version, b).value.version == version
  {
    hide ParseList, ParseMany, Parse4;
  }

  lemma LegacySound(version: int, b: bytes)
    requires InRange32(version) && ParseLegacy(version, b).Some?
    ensures var tx := ParseLegacy(version, b).value;
            ValidTx(tx) && !HasWitness(tx.inputs) && b == LegacyTail(tx)
  {
    InputUndone();
    OutputUndone();
    hide ParseList, ParseInput, ParseOutput, Parse4, Undoes, InputBytes, OutputBytes, Bytes4, VarInt;
    ParseListSound(ParseInput, InputBytes, ValidBody, b);
    var (inputs, b1) := ParseList(ParseInput, b).value;
    ParseListSound(ParseOutput, OutputBytes, ValidOutput, b1);
    var (outputs, b2) := ParseList(ParseOutput, b1).value;
    Parse4Sound(b2);
    assert forall k :: 0 <= k < |outputs| ==> ValidOutput(outputs[k]);
  }

  lemma SegwitSound(version: int, b: bytes)
    requires InRange32(version) && ParseSegwit(version, b).Some?
    ensures var tx := ParseSegwit(version, b).value;
            ValidTx(tx) && HasWitness(tx.inputs) && b == SegwitTail(tx)
  {
    InputUndone();
    OutputUndone();
    StackUndone();
    hide ParseList, ParseInput, ParseOutput, ParseStack, ParseMany, Parse4, Undoes;
    hide InputBytes, OutputBytes, Bytes4, VarInt, HasWitness, WitnessBytes;
    ParseListSound(ParseInput, InputBytes, ValidBody, b);
    var (bodies, b1) := ParseList(ParseInput, b).value;
    ParseListSound(ParseOutput, OutputBytes, ValidOutput, b1);
    var (outputs, b2) := ParseList(ParseOutput, b1).value;
    ParseManySound(ParseStack, WitnessBytes, ValidStack, |bodies|, b2);
    var (stacks, b3) := ParseMany(ParseStack, |bodies|, b2).value;
    Parse4Sound(b3);
    AttachedValid(bodies, stacks);
    assert forall k :: 0 <= k < |outputs| ==> ValidOutput(outputs[k]);
  }

  lemma AttachedValid(bodies: seq<TxInput>, stacks: seq<seq<bytes>>)
    requires |bodies| == |stacks| && AllValid(ValidBody, bodies) && AllValid(ValidStack, stacks)
    ensures var inputs := Attach(bodies, stacks);
            && (forall k :: 0 <= k < |inputs| ==> ValidInput(inputs[k]))
            && Concat(InputBytes, inputs) == Concat(InputBytes, bodies)
            && Concat(InputWitness, inputs) == Concat(WitnessBytes, stacks)
  {
    var inputs := Attach(bodies, stacks);
    PartsOfAttached(bodies, stacks);
    BodiesBytes(inputs);
    StacksBytes(inputs);
    forall k | 0 <= k < |inputs|
      ensures ValidInput(inputs[k])
    {
      assert ValidBody(bodies[k]) && ValidStack(stacks[k]);
    }
  }
}

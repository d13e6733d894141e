/**
  * The bech32m encoder of BIP-173 and BIP-350, and the proof that the hand-written decoder
  * is its exact inverse.
  */
module SegwitCodec {
  import opened Wrappers
  import opened Numerals
  import opened Ascii
  import opened Hex
  import opened Bech32m
  import opened Checksum
  import opened Division
  import Bip350
  import Regroup

  // ---------------------------------------------------------------- characters

  /** Position in the charset, written out as a table. */
  function Rank(c: char): nat {
    match c
    case 'q' => 0 case 'p' => 1 case 'z' => 2 case 'r' => 3 case 'y' => 4 case '9' => 5 case 'x' => 6 case '8' => 7
    case 'g' => 8 case 'f' => 9 case '2' => 10 case 't' => 11 case 'v' => 12 case 'd' => 13 case 'w' => 14 case '0' => 15
    case 's' => 16 case '3' => 17 case 'j' => 18 case 'n' => 19 case '5' => 20 case '4' => 21 case 'k' => 22 case 'h' => 23
    case 'c' => 24 case 'e' => 25 case '6' => 26 case 'm' => 27 case 'u' => 28 case 'a' => 29 case '7' => 30 case 'l' => 31
    case _ => 32
  }

  lemma RankOfCharset(w: word)
    ensures |CHARSET| == 32 && Rank(CHARSET[w]) == w
  {
  }

  lemma CharsetCharacter(w: word)
    ensures |CHARSET| == 32 && CHARSET[w] < 128 as char && CHARSET[w] != '1' && !('A' <= CHARSET[w] <= 'Z')
  {
  }

  function CharOf(w: word): ascii {
    CharsetCharacter(w);
    CHARSET[w]
  }

  function CharsOf(ws: seq<word>): (t: Text)
    ensures |t| == |ws|
  {
    seq(|ws|, i requires 0 <= i < |ws| => CharOf(ws[i]))
  }

  lemma WordOfChar(w: word)
    ensures CharOf(w) in CHARSET && WordOf(CharOf(w)) == w
  {
    hide Rank, CHARSET;
    CharsetCharacter(w);
    RankOfCharset(w);
    RankOfCharset(WordOf(CharOf(w)));
  }

  lemma CharOfWord(c: ascii)
    requires c in CHARSET
    ensures CharOf(WordOf(c)) == c
  {
    hide CHARSET;
  }

  lemma WordsOfChars(ws: seq<word>)
    ensures InCharset(CharsOf(ws)) && WordsOf(CharsOf(ws)) == ws
    ensures Lower(CharsOf(ws)) == CharsOf(ws) && '1' !in CharsOf(ws)
  {
    hide CharOf, WordOf, CHARSET, IndexOf;
    forall i | 0 <= i < |ws|
      ensures CharsOf(ws)[i] in CHARSET && WordOf(CharsOf(ws)[i]) == ws[i]
    {
      WordOfChar(ws[i]);
    }
    forall i | 0 <= i < |ws|
      ensures LowerChar(CharsOf(ws)[i]) == CharsOf(ws)[i] && CharsOf(ws)[i] != '1'
    {
      CharPlain(ws[i]);
    }
    assert WordsOf(CharsOf(ws)) == ws;
  }

  lemma CharPlain(w: word)
    ensures LowerChar(CharOf(w)) == CharOf(w) && CharOf(w) != '1'
  {
    CharsetCharacter(w);
  }

  lemma CharsOfWords(t: Text)
    requires InCharset(t)
    ensures CharsOf(WordsOf(t)) == t
  {
    hide CharOf, WordOf, CHARSET;
    forall i | 0 <= i < |t|
      ensures CharsOf(WordsOf(t))[i] == t[i]
    {
      CharOfWord(t[i]);
    }
  }

  // ---------------------------------------------------------------- checksum

  /** Bits `5 * i` to `5 * i + 4` of the register, as a word. */
  function Slice(p: bv32, i: nat): bv32
    requires i < 6
  {
    (if i == 0 then p else if i == 1 then p >> 5 else if i == 2 then p >> 10
     else if i == 3 then p >> 15 else if i == 4 then p >> 20 else p >> 25) & 31
  }

  function ToWord(b: bv32): word
    requires b < 32
  {
    b as nat
  }

  lemma BitsOfWord(b: bv32)
    requires b < 32
    ensures Bits(ToWord(b)) == b
  {
  }

  lemma SliceSmall(p: bv32, i: nat)
    requires i < 6
    ensures Slice(p, i) < 32
  {
  }

  function SliceWord(p: bv32, i: nat): word
    requires i < 6
  {
    SliceSmall(p, i);
    ToWord(Slice(p, i))
  }

  /** The register written as six words, most significant first. */
  function SixWords(p: bv32): seq<word> {
    [SliceWord(p, 5), SliceWord(p, 4), SliceWord(p, 3), SliceWord(p, 2), SliceWord(p, 1), SliceWord(p, 0)]
  }

  /** The six words that the decoder's register accepts after a prefix and data. */
  function ChecksumOf(hrp: Text, data: seq<word>): seq<word> {
    SixWords(Xor(Polymod(HrpExpand(hrp) + data + Zeros(6)), BECH32M_CONST))
  }

  lemma SlicesJoin(p: bv32)
    requires p < LIMIT
    ensures Append(Append(Append(Append(Append(Append(0, Slice(p, 5)), Slice(p, 4)), Slice(p, 3)), Slice(p, 2)), Slice(p, 1)), Slice(p, 0)) == p
  {
  }

  lemma SliceWordBits(p: bv32, i: nat)
    requires i < 6
    ensures Bits(SliceWord(p, i)) == Slice(p, i)
  {
    SliceSmall(p, i);
    BitsOfWord(Slice(p, i));
  }

  lemma CatSnoc(ws: seq<word>, w: word)
    ensures Cat(ws + [w]) == Append(Cat(ws), Bits(w))
  {
    hide Append, Bits;
    assert (ws + [w])[..|ws|] == ws;
  }

  lemma CatThree(ws: seq<word>, a: word, b: word, c: word)
    ensures Cat(ws + [a, b, c]) == Append(Append(Append(Cat(ws), Bits(a)), Bits(b)), Bits(c))
  {
    hide Cat, Append, Bits;
    CatSnoc(ws, a);
    CatSnoc(ws + [a], b);
    CatSnoc(ws + [a] + [b], c);
    assert ws + [a, b, c] == ws + [a] + [b] + [c];
  }

  lemma CatEmpty()
    ensures Cat([]) == 0
  {
  }

  lemma CatSixWords(p: bv32)
    requires p < LIMIT
    ensures Cat(SixWords(p)) == p
  {
    hide Append, Bits, Slice, SliceWord, Cat;
    CatEmpty();
    SlicesJoin(p);
    SliceWordBits(p, 0);
    SliceWordBits(p, 1);
    SliceWordBits(p, 2);
    SliceWordBits(p, 3);
    SliceWordBits(p, 4);
    SliceWordBits(p, 5);
    var top := [SliceWord(p, 5), SliceWord(p, 4), SliceWord(p, 3)];
    CatThree([], SliceWord(p, 5), SliceWord(p, 4), SliceWord(p, 3));
    assert [] + top == top;
    CatThree(top, SliceWord(p, 2), SliceWord(p, 1), SliceWord(p, 0));
    assert SixWords(p) == top + [SliceWord(p, 2), SliceWord(p, 1), SliceWord(p, 0)];
  }

  lemma XorUndo(p: bv32, c: bv32)
    ensures Xor(p, Xor(p, c)) == c
  {
  }

  /** Data followed by its checksum words passes the decoder's test. */
  lemma ChecksumAccepted(hrp: Text, data: seq<word>)
    ensures |ChecksumOf(hrp, data)| == 6
    ensures Polymod(HrpExpand(hrp) + (data + ChecksumOf(hrp, data))) == BECH32M_CONST
  {
    var xs := HrpExpand(hrp) + data;
    var start := Polymod(xs);
    var p := Polymod(xs + Zeros(6));
    var sum := ChecksumOf(hrp, data);
    assert HrpExpand(hrp) + (data + sum) == xs + sum;
    FeedConcat(1, xs, Zeros(6));
    FeedConcat(1, xs, sum);
    FeedNarrow(1, xs + Zeros(6));
    CatSixWords(Xor(p, BECH32M_CONST));
    FeedCat(start, sum);
    XorUndo(p, BECH32M_CONST);
  }

  /** No other six words pass. */
  lemma ChecksumUnique(hrp: Text, data: seq<word>, sum: seq<word>)
    requires |sum| == 6 && Polymod(HrpExpand(hrp) + (data + sum)) == BECH32M_CONST
    ensures sum == ChecksumOf(hrp, data)
  {
    var xs := HrpExpand(hrp) + data;
    assert HrpExpand(hrp) + (data + sum) == xs + sum;
    assert HrpExpand(hrp) + (data + ChecksumOf(hrp, data)) == xs + ChecksumOf(hrp, data);
    ChecksumAccepted(hrp, data);
    FeedConcat(1, xs, sum);
    FeedConcat(1, xs, ChecksumOf(hrp, data));
    FeedShortInjective(Polymod(xs), sum, ChecksumOf(hrp, data));
  }

  lemma SlicesPacked(p: Bip350.Poly)
    requires Bip350.Reduced(p)
    ensures Slice(Pack(p), 5) == p.c5 && Slice(Pack(p), 4) == p.c4 && Slice(Pack(p), 3) == p.c3
    ensures Slice(Pack(p), 2) == p.c2 && Slice(Pack(p), 1) == p.c1 && Slice(Pack(p), 0) == p.c0
  {
  }

  /** They are the checksum of the standard. */
  lemma ChecksumIsStandard(hrp: Text, data: seq<word>)
    ensures Bip350.Checksum(hrp, data) == ChecksumOf(hrp, data)
  {
    hide HrpExpand, Bip350.Expanded, Feed, Pack, Slice, Xor, Bip350.Remainder, Bip350.Plus;
    PrefixExpansion(hrp);
    var message := HrpExpand(hrp) + data + Zeros(6);
    assert message == Bip350.Expanded(hrp) + data + [0, 0, 0, 0, 0, 0];
    PolymodIsRemainder(message);
    var r := Bip350.Remainder(message);
    Bip350.PlusReduced(r, Bip350.BECH32M);
    PackPlus(r, Bip350.BECH32M);
    ConstantPacked();
    SlicesPacked(Bip350.Plus(r, Bip350.BECH32M));
  }

  lemma SymbolIsChar(w: word)
    ensures Bip350.Symbol(w) == CharOf(w)
  {
  }

  // ---------------------------------------------------------------- raw strings

  function EncodeRaw(hrp: Text, data: seq<word>): Text { Bip350.EncodeRaw(hrp, data) }

  lemma EncodedText(hrp: Text, data: seq<word>)
    ensures |ChecksumOf(hrp, data)| == 6
    ensures EncodeRaw(hrp, data) == hrp + ['1'] + CharsOf(data + ChecksumOf(hrp, data))
  {
    hide ChecksumOf, Bip350.Checksum, Bip350.Symbol, CharOf;
    ChecksumIsStandard(hrp, data);
    var ws := data + ChecksumOf(hrp, data);
    forall k | 0 <= k < |ws| ensures Bip350.Symbols(ws)[k] == CharsOf(ws)[k] { SymbolIsChar(ws[k]); }
  }

  lemma LowerConcat(s: Text, t: Text)
    ensures Lower(s + t) == Lower(s) + Lower(t)
  {
  }

  predicate WellFormed(hrp: Text, data: seq<word>) {
    hrp != [] && hrp == Lower(hrp) && 8 <= |EncodeRaw(hrp, data)| <= 90
  }

  lemma SplitAtSeparator(hrp: Text, chars: Text)
    requires '1' !in chars
    ensures var t := hrp + ['1'] + chars;
            LastIndexOf(t, '1') == |hrp| && t[..|hrp|] == hrp && t[|hrp| + 1..] == chars
  {
    var t := hrp + ['1'] + chars;
    assert t[|hrp| + 1..] == chars;
    LastIndexUnique(t, '1', |hrp|);
  }

  lemma EncodedIsLower(hrp: Text, data: seq<word>)
    requires hrp == Lower(hrp)
    ensures Lower(EncodeRaw(hrp, data)) == EncodeRaw(hrp, data)
  {
    EncodedText(hrp, data);
    var ws := data + ChecksumOf(hrp, data);
    WordsOfChars(ws);
    LowerConcat(hrp, ['1']);
    LowerConcat(hrp + ['1'], CharsOf(ws));
  }

  /** What the decoder returns on the lower-case text of an encoding. */
  lemma DecodeEncodedRaw(hrp: Text, data: seq<word>, addr: Text)
    requires WellFormed(hrp, data) && SingleCase(addr) && Lower(addr) == EncodeRaw(hrp, data)
    ensures DecodeRaw(addr) == Some(Raw(hrp, data))
  {
    hide CharsOf, ChecksumOf, Lower, HrpExpand, Feed, LastIndexOf, WordsOf, InCharset, EncodeRaw, Upper;
    EncodedText(hrp, data);
    var ws := data + ChecksumOf(hrp, data);
    WordsOfChars(ws);
    ChecksumAccepted(hrp, data);
    SplitAtSeparator(hrp, CharsOf(ws));
    assert ws[..|ws| - 6] == data;
  }

  /** The decoder accepts exactly the encodings, and returns what was encoded. */
  lemma DecodeRawExactly(addr: Text, hrp: Text, data: seq<word>)
    ensures DecodeRaw(addr) == Some(Raw(hrp, data)) <==>
            SingleCase(addr) && WellFormed(hrp, data) && Lower(addr) == EncodeRaw(hrp, data)
  {
    if SingleCase(addr) && WellFormed(hrp, data) && Lower(addr) == EncodeRaw(hrp, data) {
      DecodeEncodedRaw(hrp, data, addr);
    }
    if DecodeRaw(addr) == Some(Raw(hrp, data)) {
      DecodedIsEncoding(addr, hrp, data);
    }
  }

  lemma DecodedIsEncoding(addr: Text, hrp: Text, data: seq<word>)
    requires DecodeRaw(addr) == Some(Raw(hrp, data))
    ensures SingleCase(addr) && WellFormed(hrp, data) && Lower(addr) == EncodeRaw(hrp, data)
  {
    hide CharsOf, ChecksumOf, Lower, HrpExpand, Feed, LastIndexOf, WordsOf, InCharset, EncodeRaw;
    EncodedText(hrp, data);
    var lower := Lower(addr);
    var sep := LastIndexOf(lower, '1');
    var ws := WordsOf(lower[sep + 1..]);
    var sum := ws[|ws| - 6..];
    assert ws == data + sum;
    ChecksumUnique(hrp, data, sum);
    CharsOfWords(lower[sep + 1..]);
    assert lower == lower[..sep] + ['1'] + lower[sep + 1..];
  }

  // ---------------------------------------------------------------- witness programs

  /** The zero bits that complete the last word. */
  function Padding(n: nat): (pad: nat)
    ensures pad < 5 && (n * 8 + 4) / 5 * 5 == n * 8 + pad
  {
    (n * 8 + 4) / 5 * 5 - n * 8
  }

  /** `convertBits(program, 8, 5, true)` of the standard: the last word padded with zeros. */
  function BytesToWords(program: bytes): (ws: seq<word>)
    ensures |ws| == (|program| * 8 + 4) / 5
  {
    Powers();
    Digits(Val(program, 8) * Pow2(Padding(|program|)), 5, (|program| * 8 + 4) / 5)
  }

  lemma BytesToWordsIsRegrouping(program: bytes)
    ensures Regroup.Regrouped(program, 8, 5, true, |program| * 8 / 5, |program| * 8 % 5) == Some(BytesToWords(program))
  {
    Powers();
    WholeWords(|program|, Val(program, 8));
    assert Regroup.AllFit(program, 8);
    hide Val, Digits, Pow2;
  }

  lemma WholeWords(n: nat, v: nat)
    ensures n * 8 % 5 == 0 ==> Padding(n) == 0 && v * Pow2(0) == v && (n * 8 + 4) / 5 == n * 8 / 5
    ensures n * 8 % 5 != 0 ==> Padding(n) == 5 - n * 8 % 5 && (n * 8 + 4) / 5 == n * 8 / 5 + 1
  {
  }

  /** How whole bytes and padding fill `m` words. */
  lemma WordCount(m: nat, n: nat, rest: nat)
    requires n * 8 + rest == m * 5 && rest < 5
    ensures Padding(n) == rest && (n * 8 + 4) / 5 == m && m * 5 / 8 == n && m * 5 % 8 == rest
  {
  }

  lemma BytesFit(program: bytes)
    ensures Fits(program, 8)
  {
    Powers();
  }

  lemma WordsFit(words: seq<word>)
    ensures Fits(words, 5)
  {
    Powers();
  }

  /** The words of a program, read as a number, are its bytes shifted left by the padding. */
  lemma BytesToWordsValue(program: bytes)
    ensures Val(BytesToWords(program), 5) == Val(program, 8) * Pow2(Padding(|program|))
  {
    PaddedBound(program);
    hide Val, Pow2, Padding;
    ValOfDigits(Val(program, 8) * Pow2(Padding(|program|)), 5, (|program| * 8 + 4) / 5);
    hide Digits;
  }

  lemma PaddedBound(program: bytes)
    ensures Val(program, 8) * Pow2(Padding(|program|)) < Pow2(5 * ((|program| * 8 + 4) / 5))
  {
    var n := |program|;
    BytesFit(program);
    ValBound(program, 8);
    Pow2Add(8 * n, Padding(n));
    MulStrict(Val(program, 8), Pow2(8 * n), Pow2(Padding(n)));
    assert 5 * ((n * 8 + 4) / 5) == 8 * n + Padding(n);
  }

  lemma MulStrict(a: nat, b: nat, c: nat)
    requires a < b && c > 0
    ensures a * c < b * c
  {
    MulMono(a + 1, b, c);
    MulSucc(a, c);
  }

  lemma WordsOfBytesDecode(program: bytes)
    ensures WordsToBytes(BytesToWords(program)) == Some(program)
  {
    var words := BytesToWords(program);
    var pad := Padding(|program|);
    BytesToWordsValue(program);
    BytesFit(program);
    WordCount(|words|, |program|, pad);
    ShrUnique(Val(words, 5), pad, Val(program, 8), 0);
    DigitsOfVal(program, 8);
  }

  /** The program's value: the words' value without its zero padding. */
  lemma DecodedValue(words: seq<word>, program: bytes)
    requires WordsToBytes(words) == Some(program)
    ensures |program| * 8 + |words| * 5 % 8 == |words| * 5 && |words| * 5 % 8 < 5
    ensures Val(words, 5) == Val(program, 8) * Pow2(|words| * 5 % 8)
  {
    var n, rest, v := |words| * 5 / 8, |words| * 5 % 8, Val(words, 5);
    DroppedBound(words);
    ShrLow(v, rest);
    ValOfDigits(Shr(v, rest), 8, n);
  }

  lemma DroppedBound(words: seq<word>)
    ensures Shr(Val(words, 5), |words| * 5 % 8) < Pow2(8 * (|words| * 5 / 8))
  {
    var n, rest := |words| * 5 / 8, |words| * 5 % 8;
    WordsFit(words);
    ValBound(words, 5);
    assert 5 * |words| == 8 * n + rest;
    ShrBound(Val(words, 5), 8 * n, rest);
  }

  lemma BytesOfWordsEncode(words: seq<word>, program: bytes)
    requires WordsToBytes(words) == Some(program)
    ensures BytesToWords(program) == words
  {
    DecodedValue(words, program);
    WordCount(|words|, |program|, |words| * 5 % 8);
    WordsFit(words);
    DigitsOfVal(words, 5);
  }

  lemma ShrBound(v: nat, m: nat, n: nat)
    requires v < Pow2(m + n)
    ensures Shr(v, n) < Pow2(m)
  {
    hide Shr, Low, Pow2;
    Pow2Add(m, n);
    ShrLow(v, n);
    if Shr(v, n) >= Pow2(m) {
      MulMono(Pow2(m), Shr(v, n), Pow2(n));
    }
  }

  // ---------------------------------------------------------------- segwit addresses

  function EncodeSegwit(hrp: Text, version: word, program: bytes): Text {
    EncodeRaw(hrp, [version] + BytesToWords(program))
  }

  /** What the encoder accepts: BIP-173 lengths and the witness versions of BIP-350. */
  predicate Encodable(hrp: Text, version: nat, program: bytes) {
    && hrp != [] && hrp == Lower(hrp)
    && 1 <= version <= 16 && 2 <= |program| <= 40
    && |EncodeSegwit(hrp, version, program)| <= 90
  }

  /**
    * The decoder and the encoder are mutual inverses: a string decodes to a prefix, version
    * and program exactly when it is, up to uniform upper case, their encoding.
    */
  lemma DecodeSegwitExactly(addr: Text, hrp: Text, version: nat, program: bytes)
    ensures DecodeSegwit(addr) == Some(Segwit(hrp, version, program)) <==>
            Encodable(hrp, version, program) && SingleCase(addr) && Lower(addr) == EncodeSegwit(hrp, version, program)
  {
    hide DecodeRaw, EncodeRaw, BytesToWords, WordsToBytes, Lower, Upper;
    if Encodable(hrp, version, program) && SingleCase(addr) && Lower(addr) == EncodeSegwit(hrp, version, program) {
      var data := [version] + BytesToWords(program);
      EncodedLength(hrp, data);
      DecodeRawExactly(addr, hrp, data);
      WordsOfBytesDecode(program);
      assert data[1..] == BytesToWords(program);
    }
    if DecodeSegwit(addr) == Some(Segwit(hrp, version, program)) {
      var raw := DecodeRaw(addr).value;
      DecodeRawExactly(addr, raw.hrp, raw.words);
      BytesOfWordsEncode(raw.words[1..], program);
      assert raw.words == [version] + BytesToWords(program);
    }
  }

  lemma EncodedLength(hrp: Text, data: seq<word>)
    ensures |EncodeRaw(hrp, data)| == |hrp| + 1 + |data| + 6
  {
    EncodedText(hrp, data);
  }

  /** Decoding what was encoded. */
  lemma DecodeEncode(hrp: Text, version: word, program: bytes)
    requires Encodable(hrp, version, program)
    ensures DecodeSegwit(EncodeSegwit(hrp, version, program)) == Some(Segwit(hrp, version, program))
  {
    var addr := EncodeSegwit(hrp, version, program);
    EncodedIsLower(hrp, [version] + BytesToWords(program));
    DecodeSegwitExactly(addr, hrp, version, program);
  }

  // ---------------------------------------------------------------- error detection

  /**
    * From an accepted string, any change confined to six consecutive positions after the
    * separator is rejected, as long as it does not put a new separator there.
    */
  lemma BurstRejected(addr: Text, damaged: Text, at: nat)
    requires DecodeRaw(addr).Some? && |damaged| == |addr| && Lower(damaged) != Lower(addr)
    requires LastIndexOf(Lower(addr), '1') < at <= |addr|
    requires forall i :: 0 <= i < |addr| && !(at <= i < at + 6) ==> Lower(damaged)[i] == Lower(addr)[i]
    requires forall i :: at <= i < |addr| && i < at + 6 ==> Lower(damaged)[i] != '1'
    ensures DecodeRaw(damaged) == None
  {
    hide Lower, HrpExpand, Feed, LastIndexOf, WordsOf, InCharset;
    var a, b := Lower(addr), Lower(damaged);
    var sep := LastIndexOf(a, '1');
    SameSeparator(a, b, sep, at);
    if DecodeRaw(damaged).Some? {
      BurstChangesChecksum(HrpExpand(a[..sep]), a[sep + 1..], b[sep + 1..], at - sep - 1);
    }
  }

  lemma SameSeparator(a: Text, b: Text, sep: nat, at: nat)
    requires |a| == |b| && sep == LastIndexOf(a, '1') && sep < at <= |a|
    requires forall i :: 0 <= i < |a| && !(at <= i < at + 6) ==> b[i] == a[i]
    requires forall i :: at <= i < |a| && i < at + 6 ==> b[i] != '1'
    ensures LastIndexOf(b, '1') == sep && b[..sep] == a[..sep]
  {
    assert forall i :: sep < i < |a| ==> a[i] == a[sep + 1..][i - sep - 1];
    var tail := b[sep + 1..];
    forall k | 0 <= k < |tail|
      ensures tail[k] != '1'
    {
      assert tail[k] == b[sep + 1 + k];
    }
    LastIndexUnique(b, '1', sep);
  }

  lemma BurstChangesChecksum(head: seq<word>, s: string, t: string, at: nat)
    requires InCharset(s) && InCharset(t) && |s| == |t| && s != t && at <= |s|
    requires forall i :: 0 <= i < |s| && !(at <= i < at + 6) ==> t[i] == s[i]
    ensures Polymod(head + WordsOf(s)) != Polymod(head + WordsOf(t))
  {
    hide Feed, WordOf;
    if WordsOf(s) == WordsOf(t) {
      WordsInjective(s, t);
    }
    BurstInWords(head, WordsOf(s), WordsOf(t), at);
  }

  lemma BurstInWords(head: seq<word>, us: seq<word>, vs: seq<word>, at: nat)
    requires |us| == |vs| && us != vs && at <= |us|
    requires forall i :: 0 <= i < |us| && !(at <= i < at + 6) ==> vs[i] == us[i]
    ensures Polymod(head + us) != Polymod(head + vs)
  {
    hide Feed, Polymod;
    var end := if at + 6 <= |us| then at + 6 else |us|;
    MiddleDiffers(us, vs, at, end);
    CutThree(head, us, at, end);
    CutThree(head, vs, at, end);
    BurstDetected(head + us[..at], us[at..end], vs[at..end], us[end..]);
  }

  lemma MiddleDiffers(us: seq<word>, vs: seq<word>, at: nat, end: nat)
    requires |us| == |vs| && us != vs && at <= end <= |us|
    requires forall i :: 0 <= i < |us| && !(at <= i < end) ==> vs[i] == us[i]
    ensures us[..at] == vs[..at] && us[end..] == vs[end..] && us[at..end] != vs[at..end]
  {
    if us[at..end] == vs[at..end] {
      CutThree([], us, at, end);
      CutThree([], vs, at, end);
    }
  }

  lemma CutThree(head: seq<word>, ws: seq<word>, at: nat, end: nat)
    requires at <= end <= |ws|
    ensures head + ws == (head + ws[..at]) + ws[at..end] + ws[end..]
    ensures head == [] ==> head + ws == ws
  {
  }

  lemma WordsInjective(s: string, t: string)
    requires InCharset(s) && InCharset(t) && WordsOf(s) == WordsOf(t)
    ensures s == t
  {
    forall i | 0 <= i < |s|
      ensures s[i] == t[i]
    {
      assert WordsOf(s)[i] == WordsOf(t)[i];
    }
  }
}

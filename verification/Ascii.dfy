/**
  * ASCII text: the case mappings and the whitespace trimming of JavaScript strings,
  * restricted to characters below 128.
  */
module Ascii {
  type ascii = c: char | c < 128 as char
  type Text = seq<ascii>

  predicate IsUpperChar(c: ascii) { 'A' <= c <= 'Z' }
  predicate IsLowerChar(c: ascii) { 'a' <= c <= 'z' }
  predicate IsDigit(c: char) { '0' <= c <= '9' }

  function LowerChar(c: ascii): ascii {
    if IsUpperChar(c) then (c as int + 32) as char else c
  }

  function UpperChar(c: ascii): ascii {
    if IsLowerChar(c) then (c as int - 32) as char else c
  }

  /** The two cases of the alphabet; every other character has one case. */
  lemma CaseAlphabet(i: nat)
    requires i < 26
    ensures LowerChar("ABCDEFGHIJKLMNOPQRSTUVWXYZ"[i]) == "abcdefghijklmnopqrstuvwxyz"[i]
    ensures UpperChar("abcdefghijklmnopqrstuvwxyz"[i]) == "ABCDEFGHIJKLMNOPQRSTUVWXYZ"[i]
  {
  }

  lemma CaselessCharacter(c: ascii)
    ensures LowerChar(c) != c <==> 'A' <= c <= 'Z'
    ensures UpperChar(c) != c <==> 'a' <= c <= 'z'
  {
  }

  function Lower(s: Text): (t: Text)
    ensures |t| == |s|
    ensures forall i :: 0 <= i < |s| ==> t[i] == LowerChar(s[i])
  {
    seq(|s|, i requires 0 <= i < |s| => LowerChar(s[i]))
  }

  function Upper(s: Text): (t: Text)
    ensures |t| == |s|
    ensures forall i :: 0 <= i < |s| ==> t[i] == UpperChar(s[i])
  {
    seq(|s|, i requires 0 <= i < |s| => UpperChar(s[i]))
  }

  /** The guard of BIP-173: the whole string is in one case. */
  predicate SingleCase(s: Text) {
    s == Lower(s) || s == Upper(s)
  }

  /** Text is in one case exactly when it has no capital letter, or no small one. */
  lemma SingleCaseExactly(s: Text)
    ensures SingleCase(s) <==> (forall i :: 0 <= i < |s| ==> !('A' <= s[i] <= 'Z'))
                               || (forall i :: 0 <= i < |s| ==> !('a' <= s[i] <= 'z'))
  {
    hide LowerChar, UpperChar;
    forall i | 0 <= i < |s|
      ensures LowerChar(s[i]) != s[i] <==> 'A' <= s[i] <= 'Z'
      ensures UpperChar(s[i]) != s[i] <==> 'a' <= s[i] <= 'z'
    {
      CaselessCharacter(s[i]);
    }
    assert (s == Lower(s)) <==> forall i :: 0 <= i < |s| ==> LowerChar(s[i]) == s[i];
    assert (s == Upper(s)) <==> forall i :: 0 <= i < |s| ==> UpperChar(s[i]) == s[i];
  }

  /** The characters that JavaScript's `trim` removes. */
  predicate IsSpace(c: char) {
    || '\t' <= c <= '\r' || c == ' ' || c == '\U{A0}' || c == '\U{1680}' || '\U{2000}' <= c <= '\U{200A}'
    || c == '\U{2028}' || c == '\U{2029}' || c == '\U{202F}' || c == '\U{205F}' || c == '\U{3000}' || c == '\U{FEFF}'
  }

  function TrimStart(s: string): (t: string)
    ensures forall i :: 0 <= i < |t| ==> t[i] in s
    ensures t == [] || !IsSpace(t[0])
  {
    if s != [] && IsSpace(s[0]) then TrimStart(s[1..]) else s
  }

  function TrimEnd(s: string): (t: string)
    ensures forall i :: 0 <= i < |t| ==> t[i] in s
    ensures t == [] || !IsSpace(t[|t| - 1])
    ensures t <= s
  {
    if s != [] && IsSpace(s[|s| - 1]) then TrimEnd(s[..|s| - 1]) else s
  }

  function Trim(s: string): (t: string)
    ensures forall i :: 0 <= i < |t| ==> t[i] in s
    ensures t == [] || (!IsSpace(t[0]) && !IsSpace(t[|t| - 1]))
  {
    TrimEnd(TrimStart(s))
  }

  /** Trimming takes off exactly the space characters at the two ends. */
  lemma TrimExactly(before: string, s: string, after: string)
    requires s == [] || (!IsSpace(s[0]) && !IsSpace(s[|s| - 1]))
    requires (forall c :: c in before ==> IsSpace(c)) && (forall c :: c in after ==> IsSpace(c))
    ensures Trim(before + s + after) == s
  {
    hide IsSpace;
    if s == [] {
      assert before + s + after == before + after;
      SpacesStart(before, after);
      SpacesStart(after, []);
      assert after + [] == after;
      assert TrimStart(before + after) == [];
    } else {
      assert before + s + after == before + (s + after);
      SpacesStart(before, s + after);
      assert TrimStart(s + after) == s + after;
      SpacesEnd(s, after);
    }
  }

  lemma {:induction false} SpacesStart(before: string, s: string)
    requires forall c :: c in before ==> IsSpace(c)
    ensures TrimStart(before + s) == TrimStart(s)
  {
    hide IsSpace;
    if before == [] {
      assert before + s == s;
    } else {
      SpacesStart(before[1..], s);
      assert (before + s)[1..] == before[1..] + s;
      assert before[0] in before;
    }
  }

  lemma {:induction false} SpacesEnd(s: string, after: string)
    requires forall c :: c in after ==> IsSpace(c)
    ensures TrimEnd(s + after) == TrimEnd(s)
  {
    hide IsSpace;
    if after == [] {
      assert s + after == s;
    } else {
      var k := |after| - 1;
      SpacesEnd(s, after[..k]);
      assert (s + after)[..|s| + k] == s + after[..k];
      assert after[k] in after;
    }
  }

  /** Text without space characters at its ends is left alone. */
  lemma TrimKeeps(s: string)
    requires s == [] || (!IsSpace(s[0]) && !IsSpace(s[|s| - 1]))
    ensures Trim(s) == s
  {
  }
}

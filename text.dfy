/** The string primitives the views rely on: String.prototype.trim, toLowerCase and
    includes. Characters are Unicode scalar values. */
module Text {

  /** The characters trim() removes: WhiteSpace and LineTerminator of ECMA-262
      (tab, vertical tab, form feed, byte order mark, the Zs space separators,
      line feed, carriage return, line and paragraph separator). */
  predicate IsWhiteSpace(c: char)
  {
    || c == '\t' || c == '\n' || c == '\U{B}' || c == '\U{C}' || c == '\r' || c == ' '
    || c == '\U{A0}' || c == '\U{1680}' || ('\U{2000}' <= c <= '\U{200A}')
    || c == '\U{2028}' || c == '\U{2029}' || c == '\U{202F}' || c == '\U{205F}'
    || c == '\U{3000}' || c == '\U{FEFF}'
  }

  /** Every character of s is white space (vacuously true of ""). */
  predicate IsBlank(s: string)
  {
    forall i :: 0 <= i < |s| ==> IsWhiteSpace(s[i])
  }

  /** The number of white-space characters s starts with. */
  function LeadingSpace(s: string): (n: nat)
    ensures n <= |s|
    ensures forall i :: 0 <= i < n ==> IsWhiteSpace(s[i])
    ensures n == |s| || !IsWhiteSpace(s[n])
  {
    if s != [] && IsWhiteSpace(s[0]) then 1 + LeadingSpace(s[1..]) else 0
  }

  /** Where the white space s ends with begins. */
  function TrailingSpace(s: string): (n: nat)
    ensures n <= |s|
    ensures forall i :: n <= i < |s| ==> IsWhiteSpace(s[i])
    ensures n == 0 || !IsWhiteSpace(s[n - 1])
  {
    if s != [] && IsWhiteSpace(s[|s| - 1]) then TrailingSpace(s[..|s| - 1]) else |s|
  }

  /** String.prototype.trim: s between its leading and its trailing white space. */
  function Trim(s: string): string
  {
    var a := LeadingSpace(s);
    var e := TrailingSpace(s);
    if e <= a then [] else s[a..e]
  }

  /** Trimming only removes white space from the two ends: the result is a slice
      of s, and it neither starts nor ends with white space. */
  lemma TrimIsInnerSlice(s: string)
    ensures exists a, b :: 0 <= a <= b <= |s| && Trim(s) == s[a..b]
    ensures Trim(s) == [] || (!IsWhiteSpace(Trim(s)[0]) && !IsWhiteSpace(Trim(s)[|Trim(s)| - 1]))
  {
    var a := LeadingSpace(s);
    var e := TrailingSpace(s);
    if e <= a {
      assert Trim(s) == s[0..0];
    } else {
      var r := s[a..e];
      assert r[0] == s[a] && r[|r| - 1] == s[e - 1];
    }
  }

  /** When the trailing white space reaches back over the leading white space,
      the leading white space is the whole string. */
  lemma SpacesMeet(s: string)
    ensures TrailingSpace(s) <= LeadingSpace(s) ==> LeadingSpace(s) == |s|
  {
    var a := LeadingSpace(s);
    if a < |s| {
      assert !IsWhiteSpace(s[a]);
    }
  }

  /** trim() yields "" exactly when the string is all white space: this is what
      the views' `if (!x.trim())` tests decide. */
  lemma TrimEmptyIffBlank(s: string)
    ensures Trim(s) == [] <==> IsBlank(s)
  {
    var a := LeadingSpace(s);
    var e := TrailingSpace(s);
    SpacesMeet(s);
    if e <= a {
      assert a == |s|;
    } else {
      assert s[a..e][0] == s[a];
    }
  }

  /** Trimming a trimmed string changes nothing. */
  lemma TrimIdempotent(s: string)
    ensures Trim(Trim(s)) == Trim(s)
  {
    var r := Trim(s);
    TrimIsInnerSlice(s);
    if r != [] {
      assert LeadingSpace(r) == 0;
      assert TrailingSpace(r) == |r|;
      assert r[0..|r|] == r;
    }
  }

  /** ASCII case folding of one character; other characters are left as they are. */
  function LowerChar(c: char): char
  {
    if 'A' <= c <= 'Z' then (c as int + 32) as char else c
  }

  /** String.prototype.toLowerCase, restricted to ASCII letters. */
  function ToLower(s: string): (r: string)
    ensures |r| == |s|
  {
    seq(|s|, i requires 0 <= i < |s| => LowerChar(s[i]))
  }

  /** t occurs in s starting at position i. */
  predicate OccursAt(s: string, t: string, i: int)
  {
    0 <= i && i + |t| <= |s| && s[i..i + |t|] == t
  }

  /** String.prototype.includes: t occurs somewhere in s. */
  predicate Contains(s: string, t: string)
  {
    exists i :: 0 <= i <= |s| - |t| && OccursAt(s, t, i)
  }
}

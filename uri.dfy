/** Percent-encoding of URI components, as the ECMAScript functions encodeURIComponent
    and decodeURIComponent do it: a character outside the unreserved set is written as
    the "%XY" escapes (section 2.1 of RFC 3986) of the octets of its UTF-8 encoding
    (RFC 3629), and decoding turns every escape back, failing (a URIError) on a
    malformed escape or an invalid UTF-8 sequence. */
module Uri {
  import opened Wrappers

  /** The value of a hexadecimal digit; either case is accepted. */
  function HexValue(c: char): Option<nat>
  {
    if '0' <= c <= '9' then Some(c as int - '0' as int)
    else if 'a' <= c <= 'f' then Some(c as int - 'a' as int + 10)
    else if 'A' <= c <= 'F' then Some(c as int - 'A' as int + 10)
    else None
  }

  /** The upper-case hexadecimal digit for v, as encodeURIComponent writes it. */
  function HexDigit(v: nat): (c: char)
    requires v < 16
    ensures HexValue(c) == Some(v)
  {
    if v < 10 then ('0' as int + v) as char else ('A' as int + v - 10) as char
  }

  /** The octet of the escape "%XY" at position i of s, if there is one. */
  function OctetAt(s: string, i: nat): (r: Option<byte>)
    ensures r.Some? ==> i + 3 <= |s| && s[i] == '%'
  {
    if i + 3 <= |s| && s[i] == '%' then
      match (HexValue(s[i + 1]), HexValue(s[i + 2]))
      case (Some(hi), Some(lo)) => Some(16 * hi + lo)
      case _ => None
    else None
  }

  /** The octets of m escapes written back to back from position i of s. */
  function OctetsAt(s: string, i: nat, m: nat): (r: Option<seq<byte>>)
    ensures r.Some? ==> |r.value| == m && (m > 0 ==> i + 3 * m <= |s|)
    decreases m
  {
    if m == 0 then Some([])
    else match OctetAt(s, i)
      case None => None
      case Some(b) =>
        match OctetsAt(s, i + 3, m - 1)
        case None => None
        case Some(rest) => Some([b] + rest)
  }

  /** How many octets the UTF-8 sequence led by b has (the number of leading one
      bits, 1 for ASCII); 0 when b cannot lead a sequence. */
  function SequenceLength(b: byte): nat
  {
    if b < 0x80 then 1
    else if b < 0xC0 then 0
    else if b < 0xE0 then 2
    else if b < 0xF0 then 3
    else if b < 0xF8 then 4
    else 0
  }

  predicate IsContinuation(b: byte)
  {
    0x80 <= b < 0xC0
  }

  /** The code point a multi-octet UTF-8 sequence encodes, when the sequence is
      well formed: continuation octets, shortest form, no surrogate, at most U+10FFFF. */
  function DecodeSequence(o: seq<byte>): Option<char>
  {
    var o: seq<int> := o;  // octet arithmetic below leaves the byte range
    if |o| == 2 && 0xC0 <= o[0] < 0xE0 && IsContinuation(o[1]) then
      var v := (o[0] - 0xC0) * 64 + (o[1] - 0x80);
      if 0x80 <= v then Some(v as char) else None
    else if |o| == 3 && 0xE0 <= o[0] < 0xF0 && IsContinuation(o[1]) && IsContinuation(o[2]) then
      var v := (o[0] - 0xE0) * 4096 + (o[1] - 0x80) * 64 + (o[2] - 0x80);
      if 0x800 <= v && !(0xD800 <= v <= 0xDFFF) then Some(v as char) else None
    else if |o| == 4 && 0xF0 <= o[0] < 0xF8 && IsContinuation(o[1]) && IsContinuation(o[2])
                      && IsContinuation(o[3]) then
      var v := (o[0] - 0xF0) * 262144 + (o[1] - 0x80) * 4096 + (o[2] - 0x80) * 64 + (o[3] - 0x80);
      if 0x10000 <= v <= 0x10FFFF then Some(v as char) else None
    else None
  }

  /** Decodes the head of s: a plain character, or the escapes of one UTF-8
      sequence; gives the character and how many characters of s it spans. */
  function DecodeHead(s: string): (r: Option<(char, nat)>)
    requires s != []
    ensures r.Some? ==> 1 <= r.value.1 <= |s|
  {
    if s[0] != '%' then Some((s[0], 1))
    else match OctetAt(s, 0)
      case None => None
      case Some(b) =>
        var n := SequenceLength(b);
        if n == 0 then None
        else if n == 1 then Some((b as char, 3))
        else match OctetsAt(s, 3, n - 1)
          case None => None
          case Some(cont) =>
            match DecodeSequence([b] + cont)
            case None => None
            case Some(c) => Some((c, 3 * n))
  }

  /** decodeURIComponent: None stands for the URIError it throws. */
  function Decode(s: string): Option<string>
    decreases |s|
  {
    if s == [] then Some([])
    else match DecodeHead(s)
      case None => None
      case Some((c, k)) =>
        match Decode(s[k..])
        case None => None
        case Some(rest) => Some([c] + rest)
  }

  /** The characters encodeURIComponent leaves as they are. */
  predicate IsUnreserved(c: char)
  {
    ('A' <= c <= 'Z') || ('a' <= c <= 'z') || ('0' <= c <= '9')
    || c == '-' || c == '_' || c == '.' || c == '!' || c == '~' || c == '*'
    || c == '\'' || c == '(' || c == ')'
  }

  /** The UTF-8 encoding of one code point (RFC 3629). */
  function Utf8(c: char): (o: seq<byte>)
    ensures 1 <= |o| <= 4 && SequenceLength(o[0]) == |o|
  {
    var v := c as int;
    if v < 0x80 then [v]
    else if v < 0x800 then [0xC0 + v / 64, 0x80 + v % 64]
    else if v < 0x10000 then [0xE0 + v / 4096, 0x80 + (v / 64) % 64, 0x80 + v % 64]
    else [0xF0 + v / 262144, 0x80 + (v / 4096) % 64, 0x80 + (v / 64) % 64, 0x80 + v % 64]
  }

  /** Each octet written as "%XY". */
  function EscapeOctets(o: seq<byte>): (s: string)
    ensures |s| == 3 * |o|
  {
    if o == [] then [] else ['%', HexDigit(o[0] / 16), HexDigit(o[0] % 16)] + EscapeOctets(o[1..])
  }

  function EncodeChar(c: char): string
  {
    if IsUnreserved(c) then [c] else EscapeOctets(Utf8(c))
  }

  /** encodeURIComponent (total here: a Dafny string holds no lone surrogate). */
  function Encode(s: string): string
  {
    if s == [] then [] else EncodeChar(s[0]) + Encode(s[1..])
  }

  // ---- Round trip ----

  lemma {:induction false} OctetsOfEscapes(o: seq<byte>, rest: string, j: nat, m: nat)
    requires j + m <= |o|
    ensures OctetsAt(EscapeOctets(o) + rest, 3 * j, m) == Some(o[j..j + m])
    decreases m
  {
    var s := EscapeOctets(o) + rest;
    if m == 0 {
      assert o[j..j] == [];
    } else {
      EscapeAt(o, j);
      assert s[3 * j..3 * j + 3] == EscapeOctets(o)[3 * j..3 * j + 3];
      assert OctetAt(s, 3 * j) == Some(o[j]);
      OctetsOfEscapes(o, rest, j + 1, m - 1);
      assert 3 * j + 3 == 3 * (j + 1);
      assert [o[j]] + o[j + 1..j + m] == o[j..j + m];
    }
  }

  /** The j-th escape of EscapeOctets(o) is "%XY" for o[j]. */
  lemma {:induction false} EscapeAt(o: seq<byte>, j: nat)
    requires j < |o|
    ensures EscapeOctets(o)[3 * j] == '%'
    ensures HexValue(EscapeOctets(o)[3 * j + 1]) == Some(o[j] / 16)
    ensures HexValue(EscapeOctets(o)[3 * j + 2]) == Some(o[j] % 16)
  {
    if j > 0 {
      EscapeAt(o[1..], j - 1);
      var head := ['%', HexDigit(o[0] / 16), HexDigit(o[0] % 16)];
      assert EscapeOctets(o) == head + EscapeOctets(o[1..]);
      assert 3 * j == 3 + 3 * (j - 1);
    }
  }

  lemma Utf8Decodes(c: char)
    requires |Utf8(c)| > 1
    ensures DecodeSequence(Utf8(c)) == Some(c)
  {
    var v := c as int;
    if v < 0x800 {
    } else if v < 0x10000 {
      assert v == (v / 4096) * 4096 + ((v / 64) % 64) * 64 + v % 64 by { DivMod64(v); }
    } else {
      assert v == (v / 262144) * 262144 + ((v / 4096) % 64) * 4096 + ((v / 64) % 64) * 64 + v % 64 by {
        DivMod64(v);
        DivMod64(v / 64);
      }
    }
  }

  lemma DivMod64(v: nat)
    ensures (v / 64) / 64 == v / 4096 && (v / 4096) / 64 == v / 262144
    ensures v == (v / 4096) * 4096 + ((v / 64) % 64) * 64 + v % 64
  {
  }

  /** Decoding the encoding of c, whatever follows it, gives back c and consumes
      exactly the encoding. */
  lemma DecodeHeadOfEncoded(c: char, rest: string)
    ensures DecodeHead(EncodeChar(c) + rest) == Some((c, |EncodeChar(c)|))
  {
    var s := EncodeChar(c) + rest;
    if !IsUnreserved(c) {
      var o := Utf8(c);
      EscapeAt(o, 0);
      assert s[..3] == EscapeOctets(o)[..3];
      assert OctetAt(s, 0) == Some(o[0]);
      if |o| > 1 {
        OctetsOfEscapes(o, rest, 1, |o| - 1);
        assert [o[0]] + o[1..|o|] == o;
        Utf8Decodes(c);
      }
    }
  }

  /** decodeURIComponent undoes encodeURIComponent. */
  lemma {:induction false} DecodeEncode(s: string)
    ensures Decode(Encode(s)) == Some(s)
  {
    if s != [] {
      var e := EncodeChar(s[0]);
      DecodeHeadOfEncoded(s[0], Encode(s[1..]));
      assert (e + Encode(s[1..]))[|e|..] == Encode(s[1..]);
      DecodeEncode(s[1..]);
      assert [s[0]] + s[1..] == s;
    }
  }

  /** The encoding never contains '&' (it is escaped as %26) and is empty only
      for the empty string. */
  lemma {:induction false} EncodeHasNoAmpersand(s: string)
    ensures forall i :: 0 <= i < |Encode(s)| ==> Encode(s)[i] != '&'
    ensures |Encode(s)| >= |s|
  {
    if s != [] {
      EncodeHasNoAmpersand(s[1..]);
      var e := EncodeChar(s[0]);
      if !IsUnreserved(s[0]) {
        EscapeHasNoAmpersand(Utf8(s[0]));
      }
      assert Encode(s) == e + Encode(s[1..]);
      forall i | 0 <= i < |Encode(s)| ensures Encode(s)[i] != '&' {
        if i >= |e| {
          assert Encode(s)[i] == Encode(s[1..])[i - |e|];
        }
      }
    }
  }

  lemma {:induction false} EscapeHasNoAmpersand(o: seq<byte>)
    ensures forall i :: 0 <= i < |EscapeOctets(o)| ==> EscapeOctets(o)[i] != '&'
  {
    if o != [] {
      EscapeHasNoAmpersand(o[1..]);
      var head := ['%', HexDigit(o[0] / 16), HexDigit(o[0] % 16)];
      assert EscapeOctets(o) == head + EscapeOctets(o[1..]);
      forall i | 0 <= i < |EscapeOctets(o)| ensures EscapeOctets(o)[i] != '&' {
        if i >= 3 {
          assert EscapeOctets(o)[i] == EscapeOctets(o[1..])[i - 3];
        } else {
          assert HexValue(head[i]).Some? || head[i] == '%';
        }
      }
    }
  }
}

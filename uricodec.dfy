/** `decodeURIComponent` (section 19.2.6.2 of ECMA-262, through its Decode
    operation with an empty reserved set), which undoes the percent-encoding
    of section 2.1 of RFC 3986 over UTF-8. `encodeURIComponent` is modelled
    beside it as the reference that Decode inverts. */
module UriCodec {
  import opened JsString

  /** The completion of Decode: a string, or a thrown URIError. */
  datatype Decoded = Decoded(value: string) | UriError

  /** The value of a hexadecimal digit (either case), or -1. */
  function HexValue(c: char): (v: int)
    ensures -1 <= v < 16
  {
    if '0' <= c <= '9' then c as int - '0' as int
    else if 'a' <= c <= 'f' then c as int - 'a' as int + 10
    else if 'A' <= c <= 'F' then c as int - 'A' as int + 10
    else -1
  }

  /** The octet written by the two hexadecimal digits at `s[i]` and
      `s[i + 1]`, or -1 when either is not a hexadecimal digit. */
  function HexOctet(s: string, i: nat): (b: int)
    requires i + 2 <= |s|
    ensures -1 <= b < 256
  {
    var hi, lo := HexValue(s[i]), HexValue(s[i + 1]);
    if hi < 0 || lo < 0 then -1 else hi * 16 + lo
  }

  /** The number of leading 1 bits of an octet. */
  function LeadingOnes(b: int): nat
    requires 0 <= b < 256
  {
    if b < 0x80 then 0
    else if b < 0xC0 then 1
    else if b < 0xE0 then 2
    else if b < 0xF0 then 3
    else if b < 0xF8 then 4
    else if b < 0xFC then 5
    else if b < 0xFE then 6
    else if b < 0xFF then 7
    else 8
  }

  /** The `m` escapes "%XY" that follow a leading octet, starting at `s[k]`;
      None when one of them is not a percent sign and two hexadecimal digits. */
  function Continuations(s: string, k: nat, m: nat): (r: Option<seq<int>>)
    requires k + 3 * m <= |s|
    ensures r.Some? ==> |r.value| == m && forall i :: 0 <= i < m ==> 0 <= r.value[i] < 256
    decreases m
  {
    if m == 0 then Some([])
    else if s[k] != '%' || HexOctet(s, k + 1) < 0 then None
    else match Continuations(s, k + 3, m - 1)
      case None => None
      case Some(rest) => Some([HexOctet(s, k + 1)] + rest)
  }

  predicate IsContinuation(b: int) {
    0x80 <= b < 0xC0
  }

  /** The code point of a UTF-8 sequence of 2 to 4 octets, and whether the
      sequence is its valid encoding: continuation octets of the form
      10xxxxxx, no overlong form, no surrogate, nothing above U+10FFFF. */
  function Utf8Decode(o: seq<int>): (r: Option<char>)
    requires forall i :: 0 <= i < |o| ==> 0 <= o[i] < 256
    requires 2 <= |o| <= 4 && LeadingOnes(o[0]) == |o|
  {
    if exists i :: 1 <= i < |o| && !IsContinuation(o[i]) then None
    else
      var cp :=
        if |o| == 2 then (o[0] - 0xC0) * 0x40 + (o[1] - 0x80)
        else if |o| == 3 then (o[0] - 0xE0) * 0x1000 + (o[1] - 0x80) * 0x40 + (o[2] - 0x80)
        else (o[0] - 0xF0) * 0x40000 + (o[1] - 0x80) * 0x1000 + (o[2] - 0x80) * 0x40 + (o[3] - 0x80);
      var least := if |o| == 2 then 0x80 else if |o| == 3 then 0x800 else 0x10000;
      if cp < least || cp > 0x10FFFF || (0xD800 <= cp <= 0xDFFF) then None
      else Some(cp as char)
  }

  /** `c` in front of a successful decoding; errors pass through. */
  function Prepend(c: char, d: Decoded): Decoded {
    match d
    case UriError => UriError
    case Decoded(t) => Decoded([c] + t)
  }

  /** decodeURIComponent(s): every escape "%XY" of an octet below 0x80 becomes
      that code point, every escaped UTF-8 sequence of 2 to 4 octets becomes
      the code point it encodes, any other code point is copied, and an
      incomplete or malformed escape, or an invalid UTF-8 sequence, throws. */
  function Decode(s: string): Decoded
    decreases |s|
  {
    if s == [] then Decoded([])
    else if s[0] != '%' then Prepend(s[0], Decode(s[1..]))
    else if 2 >= |s| then UriError
    else
      var b := HexOctet(s, 1);
      if b < 0 then UriError
      else
        var n := LeadingOnes(b);
        if n == 0 then Prepend(b as char, Decode(s[3..]))
        else if n == 1 || n > 4 then UriError
        else if 2 + 3 * (n - 1) >= |s| then UriError
        else match Continuations(s, 3, n - 1)
          case None => UriError
          case Some(more) =>
            match Utf8Decode([b] + more)
            case None => UriError
            case Some(c) => Prepend(c, Decode(s[3 * n..]))
  }

  /** A string with no percent sign decodes to itself. */
  lemma {:induction false} DecodeWithoutPercent(s: string)
    requires '%' !in s
    ensures Decode(s) == Decoded(s)
  {
    if s != [] {
      assert '%' !in s[1..];
      DecodeWithoutPercent(s[1..]);
      assert [s[0]] + s[1..] == s;
    }
  }

  /** A percent sign in one of the last two positions makes Decode throw. */
  lemma {:induction false} DecodeTruncatedEscape(p: string, t: string)
    requires |t| <= 1
    ensures Decode(p + "%" + t) == UriError
    decreases |p|
  {
    var s := p + "%" + t;
    if p == [] {
      assert s == "%" + t;
    } else if p[0] != '%' {
      assert s[1..] == p[1..] + "%" + t;
      DecodeTruncatedEscape(p[1..], t);
    } else {
      DecodeTruncatedEscapeAfterPercent(p, t);
    }
  }

  /** The case of DecodeTruncatedEscape in which `p` itself starts an escape. */
  lemma {:induction false} DecodeTruncatedEscapeAfterPercent(p: string, t: string)
    requires |t| <= 1 && p != [] && p[0] == '%'
    ensures Decode(p + "%" + t) == UriError
    decreases |p|, 0
  {
    var s := p + "%" + t;
    if 2 < |s| {
      var b := HexOctet(s, 1);
      if b >= 0 {
        var n := LeadingOnes(b);
        if n == 0 {
          assert |p| >= 3;
          assert s[3..] == p[3..] + "%" + t;
          DecodeTruncatedEscape(p[3..], t);
        } else if n != 1 && n <= 4 && 2 + 3 * (n - 1) < |s| {
          match Continuations(s, 3, n - 1)
          case None =>
          case Some(more) =>
            match Utf8Decode([b] + more)
            case None =>
            case Some(c) =>
              assert |p| >= 3 * n by {
                NoPercentInsideEscapes(p, t, n, b, more);
              }
              assert s[3 * n..] == p[3 * n..] + "%" + t;
              DecodeTruncatedEscape(p[3 * n..], t);
        }
      }
    }
  }

  /** When the escapes of a UTF-8 sequence of `n` octets at the start of
      `p + "%" + t` are well formed, they lie entirely inside `p`. */
  lemma NoPercentInsideEscapes(p: string, t: string, n: nat, b: int, more: seq<int>)
    requires |t| <= 1 && 2 <= n <= 4 && 3 * n <= |p + "%" + t|
    requires p != [] && p[0] == '%'
    requires HexOctet(p + "%" + t, 1) == b >= 0
    requires Continuations(p + "%" + t, 3, n - 1) == Some(more)
    ensures |p| >= 3 * n
  {
    var s := p + "%" + t;
    assert HexValue('%') == -1;
    if |p| < 3 * n {
      var j := |p|;
      assert s[j] == '%';
      ContinuationsHexDigits(s, 3, n - 1, more, j);
    }
  }

  /** The hexadecimal digits of well-formed continuation escapes. */
  lemma {:induction false} ContinuationsHexDigits(s: string, k: nat, m: nat, more: seq<int>, j: nat)
    requires k + 3 * m <= |s|
    requires Continuations(s, k, m) == Some(more)
    requires k <= j < k + 3 * m && (j - k) % 3 != 0
    ensures HexValue(s[j]) >= 0
    decreases m
  {
    if j >= k + 3 {
      var rest :| Continuations(s, k + 3, m - 1) == Some(rest);
      ContinuationsHexDigits(s, k + 3, m - 1, rest, j);
    }
  }

  // ---- encodeURIComponent, the reference that Decode inverts ----

  /** The code points encodeURIComponent leaves as they are: letters, digits
      and the marks - _ . ! ~ * ' ( ). */
  predicate IsUnescaped(c: char) {
    ('a' <= c <= 'z') || ('A' <= c <= 'Z') || ('0' <= c <= '9')
    || c == '-' || c == '_' || c == '.' || c == '!' || c == '~' || c == '*' || c == '\'' || c == '(' || c == ')'
  }

  /** The upper-case hexadecimal digit of `d`. */
  function HexDigit(d: int): (c: char)
    requires 0 <= d < 16
    ensures HexValue(c) == d
  {
    if d < 10 then ('0' as int + d) as char else ('A' as int + d - 10) as char
  }

  /** The escape "%XY" of an octet. */
  function EscapeOctet(b: int): (e: string)
    requires 0 <= b < 256
    ensures |e| == 3 && e[0] == '%' && HexOctet(e, 1) == b
  {
    ['%', HexDigit(b / 16), HexDigit(b % 16)]
  }

  /** The UTF-8 octets of the code point of `c`. */
  function Utf8Encode(c: char): (o: seq<int>)
    ensures 1 <= |o| <= 4
    ensures forall i :: 0 <= i < |o| ==> 0 <= o[i] < 256
  {
    var cp := c as int;
    if cp < 0x80 then [cp]
    else if cp < 0x800 then [0xC0 + cp / 0x40, 0x80 + cp % 0x40]
    else if cp < 0x10000 then [0xE0 + cp / 0x1000, 0x80 + (cp / 0x40) % 0x40, 0x80 + cp % 0x40]
    else [0xF0 + cp / 0x40000, 0x80 + (cp / 0x1000) % 0x40, 0x80 + (cp / 0x40) % 0x40, 0x80 + cp % 0x40]
  }

  function EscapeOctets(o: seq<int>): (e: string)
    requires forall i :: 0 <= i < |o| ==> 0 <= o[i] < 256
    ensures |e| == 3 * |o|
  {
    if o == [] then [] else EscapeOctet(o[0]) + EscapeOctets(o[1..])
  }

  function EncodeChar(c: char): string {
    if IsUnescaped(c) then [c] else EscapeOctets(Utf8Encode(c))
  }

  /** encodeURIComponent(s). Every Dafny string is well formed (no lone
      surrogates), so the URIError it can throw does not arise. */
  function Encode(s: string): string {
    if s == [] then [] else EncodeChar(s[0]) + Encode(s[1..])
  }

  /** The octets of a UTF-8 encoding: the leading octet announces the
      length, and decoding gives the code point back. */
  lemma Utf8RoundTrip(c: char)
    ensures var o := Utf8Encode(c);
      && LeadingOnes(o[0]) == (if |o| == 1 then 0 else |o|)
      && (|o| >= 2 ==> Utf8Decode(o) == Some(c))
  {
    var cp := c as int;
    var o := Utf8Encode(c);
    if 0x80 <= cp < 0x800 {
      assert (cp / 0x40) * 0x40 + cp % 0x40 == cp;
    } else if 0x800 <= cp < 0x10000 {
      Split3(cp);
    } else if cp >= 0x10000 {
      Split4(cp);
    }
  }

  lemma Split3(cp: int)
    requires 0x800 <= cp < 0x10000
    ensures (cp / 0x1000) * 0x1000 + ((cp / 0x40) % 0x40) * 0x40 + cp % 0x40 == cp
    ensures 0xE0 <= 0xE0 + cp / 0x1000 < 0xF0
  {
    var q := cp / 0x40;
    assert cp == q * 0x40 + cp % 0x40;
    assert q == (q / 0x40) * 0x40 + q % 0x40;
    assert cp / 0x1000 == q / 0x40;
  }

  lemma Split4(cp: int)
    requires 0x10000 <= cp <= 0x10FFFF
    ensures (cp / 0x40000) * 0x40000 + ((cp / 0x1000) % 0x40) * 0x1000
          + ((cp / 0x40) % 0x40) * 0x40 + cp % 0x40 == cp
    ensures 0xF0 <= 0xF0 + cp / 0x40000 < 0xF8
  {
    var q := cp / 0x40;
    var r := q / 0x40;
    assert cp == q * 0x40 + cp % 0x40;
    assert q == r * 0x40 + q % 0x40;
    assert r == (r / 0x40) * 0x40 + r % 0x40;
    assert cp / 0x1000 == r;
    assert cp / 0x40000 == r / 0x40;
  }

  /** The escaped form of a non-empty octet sequence, followed by anything,
      starts with the escape of its first octet. */
  lemma EscapedLead(o: seq<int>, t: string)
    requires o != [] && forall i :: 0 <= i < |o| ==> 0 <= o[i] < 256
    ensures |EscapeOctets(o) + t| >= 3 && (EscapeOctets(o) + t)[0] == '%'
    ensures HexOctet(EscapeOctets(o) + t, 1) == o[0]
    ensures (EscapeOctets(o) + t)[3..] == EscapeOctets(o[1..]) + t
  {
    var e := EscapeOctet(o[0]);
    assert EscapeOctets(o) == e + EscapeOctets(o[1..]);
    EscapeInFront(e, EscapeOctets(o[1..]), t);
  }

  /** What follows a three-code-point escape in front of two strings. */
  lemma EscapeInFront(e: string, m: string, t: string)
    requires |e| == 3
    ensures var s := e + m + t; s[0] == e[0] && s[1] == e[1] && s[2] == e[2] && s[3..] == m + t
  {
  }

  /** The continuation escapes of an escaped octet sequence read back as
      its octets. */
  lemma {:induction false} ContinuationsOfEscapes(o: seq<int>, t: string)
    requires forall i :: 0 <= i < |o| ==> 0 <= o[i] < 256
    ensures Continuations(EscapeOctets(o) + t, 0, |o|) == Some(o)
  {
    if o != [] {
      var s := EscapeOctets(o) + t;
      EscapedLead(o, t);
      ContinuationsOfEscapes(o[1..], t);
      ContinuationsShift(s[..3], s[3..], |o| - 1);
      assert s[..3] + s[3..] == s;
      assert [o[0]] + o[1..] == o;
    }
  }

  /** Continuations read at an offset ignore what comes before. */
  lemma {:induction false} ContinuationsShift(p: string, s: string, m: nat)
    requires 3 * m <= |s|
    ensures Continuations(p + s, |p|, m) == Continuations(s, 0, m)
    decreases m
  {
    if m > 0 {
      assert (p + s)[|p|] == s[0];
      assert (p + s)[|p| + 1] == s[1] && (p + s)[|p| + 2] == s[2];
      ContinuationsShift(p + s[..3], s[3..], m - 1);
      assert p + s[..3] + s[3..] == p + s;
      ContinuationsShift(s[..3], s[3..], m - 1);
      assert s[..3] + s[3..] == s;
    }
  }

  /** Decoding an encoded code point followed by anything decodes that code
      point and then the rest. */
  lemma DecodeEncodedChar(c: char, t: string)
    ensures Decode(EncodeChar(c) + t) == Prepend(c, Decode(t))
  {
    if IsUnescaped(c) {
      var s := EncodeChar(c) + t;
      assert s[0] == c && s[1..] == t;
    } else if c as int < 0x80 {
      DecodeEscapedAscii(c, t);
    } else {
      DecodeEscapedSequence(c, t);
    }
  }

  /** The case of an escaped code point below 0x80: one escape. */
  lemma DecodeEscapedAscii(c: char, t: string)
    requires c as int < 0x80
    ensures Decode(EscapeOctets(Utf8Encode(c)) + t) == Prepend(c, Decode(t))
  {
    var o := Utf8Encode(c);
    EscapedLead(o, t);
    assert o == [c as int];
    assert EscapeOctets(o[1..]) + t == t;
  }

  /** The case of a code point of 0x80 or more: an escaped UTF-8 sequence of
      two to four octets. */
  lemma DecodeEscapedSequence(c: char, t: string)
    requires c as int >= 0x80
    ensures Decode(EscapeOctets(Utf8Encode(c)) + t) == Prepend(c, Decode(t))
  {
    var o := Utf8Encode(c);
    Utf8RoundTrip(c);
    EscapedLead(o, t);
    EscapedTail(o, t);
    assert [o[0]] + o[1..] == o;
  }

  /** After the escape of its first octet, the escaped form of an octet
      sequence reads back as the remaining octets, and then comes `t`. */
  lemma EscapedTail(o: seq<int>, t: string)
    requires o != [] && forall i :: 0 <= i < |o| ==> 0 <= o[i] < 256
    ensures Continuations(EscapeOctets(o) + t, 3, |o| - 1) == Some(o[1..])
    ensures (EscapeOctets(o) + t)[3 * |o|..] == t
  {
    var s := EscapeOctets(o) + t;
    var m := EscapeOctets(o[1..]);
    EscapedLead(o, t);
    ContinuationsOfEscapes(o[1..], t);
    ContinuationsShift(s[..3], s[3..], |o| - 1);
    assert s[..3] + s[3..] == s;
    assert s[3..][3 * (|o| - 1)..] == t;
  }

  /** decodeURIComponent(encodeURIComponent(s)) == s. */
  lemma {:induction false} DecodeEncode(s: string)
    ensures Decode(Encode(s)) == Decoded(s)
  {
    if s != [] {
      DecodeEncode(s[1..]);
      DecodeEncodedChar(s[0], Encode(s[1..]));
      assert [s[0]] + s[1..] == s;
    }
  }

  /** A name with no escape decodes to itself. */
  lemma PlainNameDecodes()
    ensures Decode("data.csv") == Decoded("data.csv")
  {
    DecodeWithoutPercent("data.csv");
  }

  /** An escaped solidus decodes to "/": a decoded path segment can hold a
      separator. */
  lemma EscapedSlashDecodes()
    ensures Decode("a%2Fb") == Decoded("a/b")
  {
    var s := "a%2Fb";
    assert s[1..] == "%2Fb";
    assert HexOctet("%2Fb", 1) == 0x2F;
    assert "%2Fb"[3..] == "b";
    DecodeWithoutPercent("b");
  }

  /** "%E9" (a lone Latin-1 octet, not UTF-8) makes Decode throw. */
  lemma LoneLeadingOctetThrows()
    ensures Decode("%E9") == UriError
  {
    assert HexOctet("%E9", 1) == 0xE9;
  }
}

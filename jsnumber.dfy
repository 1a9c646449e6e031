/** The global `parseInt` of ECMA-262 (section 19.2.5), on the values the bot
    gives it: a string, or `undefined` for an unset environment variable or
    an absent header. */
module JsNumber {
  import opened JsString

  /** The Number values `parseInt` can return. Its `-0` (from "-0") is
      identified with `+0`: the only uses of the result here are the
      comparison `>` and the operator `||`, which treat the two alike. */
  datatype Number = NaN | Int(value: int)

  /** ToString of the argument: `undefined` becomes "undefined". */
  function ToStringValue(v: Option<string>): string {
    match v
    case None => "undefined"
    case Some(s) => s
  }

  /** The value of `c` as a digit of radix 36, or 36 when it is not one. */
  function DigitValue(c: char): (d: nat)
    ensures d <= 36
  {
    if '0' <= c <= '9' then c as int - '0' as int
    else if 'a' <= c <= 'z' then c as int - 'a' as int + 10
    else if 'A' <= c <= 'Z' then c as int - 'A' as int + 10
    else 36
  }

  predicate IsDigit(c: char, radix: nat) {
    DigitValue(c) < radix
  }

  /** Length of the longest prefix of `s` made of radix-`radix` digits. */
  function DigitRun(s: string, radix: nat): (n: nat)
    ensures n <= |s|
    ensures forall i :: 0 <= i < n ==> IsDigit(s[i], radix)
    ensures n == |s| || !IsDigit(s[n], radix)
  {
    if s == [] || !IsDigit(s[0], radix) then 0 else 1 + DigitRun(s[1..], radix)
  }

  /** The mathematical value of a string of radix-`radix` digits, most
      significant first (only meaningful when every code point of `z` is
      such a digit). */
  function DigitsValue(z: string, radix: nat): nat {
    if z == [] then 0 else DigitsValue(z[..|z| - 1], radix) * radix + DigitValue(z[|z| - 1])
  }

  /** `parseInt(input, radix)` where `radix` is already ToInt32 of the
      argument (0 for `undefined`): leading white space is trimmed, one sign
      is taken off, then the digits are read. */
  function ParseInt(input: Option<string>, radix: int): Number {
    var s := TrimStart(ToStringValue(input));
    var negative := s != [] && s[0] == '-';
    var unsigned := if s != [] && (s[0] == '+' || s[0] == '-') then s[1..] else s;
    ParseUnsigned(negative, unsigned, radix)
  }

  /** The steps of `parseInt` after the sign: the radix is checked, a "0x"
      or "0X" prefix is taken off when the radix is 16 or unspecified (and
      then selects radix 16), the longest run of digits is read, and NaN is
      returned when that run is empty. */
  function ParseUnsigned(negative: bool, s: string, radix: int): Number {
    if radix != 0 && (radix < 2 || radix > 36) then NaN
    else
      var stripPrefix := radix == 0 || radix == 16;
      var hex := stripPrefix && |s| >= 2 && s[0] == '0' && (s[1] == 'x' || s[1] == 'X');
      var z := if hex then s[2..] else s;
      var r: nat := if hex then 16 else if radix == 0 then 10 else radix;
      var end := DigitRun(z, r);
      if end == 0 then NaN
      else Int((if negative then -1 else 1) * DigitsValue(z[..end], r))
  }

  /** ToBoolean of a Number: NaN and zero are falsy. */
  predicate Truthy(n: Number) {
    n.Int? && n.value != 0
  }

  /** `parseInt(undefined, radix)` is NaN, except for the radices 31 to 36
      in which every letter of "undefined" is a digit. */
  lemma ParseIntUndefined(radix: int)
    ensures ParseInt(None, radix) == NaN <==> !(31 <= radix <= 36)
  {
    var s := "undefined";
    assert LeadingWhiteSpace(s) == 0;
    assert TrimStart(s) == s;
    assert DigitValue('u') == 30;
  }

  /** A string with exactly one white-space run in front of a code point that
      is not white space trims to what follows the run. */
  lemma {:induction false} TrimStartAfterWhiteSpace(ws: string, t: string)
    requires forall i :: 0 <= i < |ws| ==> IsStrWhiteSpace(ws[i])
    requires t == [] || !IsStrWhiteSpace(t[0])
    ensures TrimStart(ws + t) == t
  {
    if ws != [] {
      assert (ws + t)[1..] == ws[1..] + t;
      TrimStartAfterWhiteSpace(ws[1..], t);
    }
  }

  /** The digit run of `digits + rest` is `digits` when `rest` does not
      start with a digit. */
  lemma {:induction false} DigitRunOfDigits(digits: string, rest: string, radix: nat)
    requires forall i :: 0 <= i < |digits| ==> IsDigit(digits[i], radix)
    requires rest == [] || !IsDigit(rest[0], radix)
    ensures DigitRun(digits + rest, radix) == |digits|
  {
    if digits != [] {
      assert (digits + rest)[1..] == digits[1..] + rest;
      DigitRunOfDigits(digits[1..], rest, radix);
    }
  }

  /** The characterisation of `parseInt(s, 10)`: after leading white space
      and one optional sign, the longest run of decimal digits is read and
      whatever follows it is ignored; with no digit there, the result is NaN. */
  lemma ParseIntDecimal(ws: string, sign: string, digits: string, rest: string)
    requires forall i :: 0 <= i < |ws| ==> IsStrWhiteSpace(ws[i])
    requires |sign| <= 1 && (sign != [] ==> sign[0] == '+' || sign[0] == '-')
    requires forall i :: 0 <= i < |digits| ==> IsDigit(digits[i], 10)
    requires rest == [] || !IsDigit(rest[0], 10)
    requires sign == [] && digits == [] && rest != [] ==>
      !IsStrWhiteSpace(rest[0]) && rest[0] != '+' && rest[0] != '-'
    ensures ParseInt(Some(ws + (sign + (digits + rest))), 10) ==
        if digits == [] then NaN
        else Int((if sign != [] && sign[0] == '-' then -1 else 1) * DigitsValue(digits, 10))
  {
    var s1 := digits + rest;
    NumeralStart(sign, digits, rest);
    ParseIntSkipsWhiteSpace(ws, sign + s1, 10);
    ParseIntSign(sign, s1, 10);
    UnsignedDecimal(sign != [] && sign[0] == '-', digits, rest);
  }

  /** A sign, digits and a tail, as ParseIntDecimal admits them, start with
      no white space, and without the sign they start with no sign. */
  lemma NumeralStart(sign: string, digits: string, rest: string)
    requires |sign| <= 1 && (sign != [] ==> sign[0] == '+' || sign[0] == '-')
    requires forall i :: 0 <= i < |digits| ==> IsDigit(digits[i], 10)
    requires sign == [] && digits == [] && rest != [] ==>
      !IsStrWhiteSpace(rest[0]) && rest[0] != '+' && rest[0] != '-'
    ensures var t := sign + (digits + rest); t == [] || !IsStrWhiteSpace(t[0])
    ensures var s := digits + rest;
      sign == [] ==> s == [] || (!IsStrWhiteSpace(s[0]) && s[0] != '+' && s[0] != '-')
  {
    if digits != [] {
      assert (digits + rest)[0] == digits[0];
      assert DigitValue(digits[0]) < 10;
    }
  }

  /** Leading white space does not change what `parseInt` reads. */
  lemma ParseIntSkipsWhiteSpace(ws: string, t: string, radix: int)
    requires forall i :: 0 <= i < |ws| ==> IsStrWhiteSpace(ws[i])
    requires t == [] || !IsStrWhiteSpace(t[0])
    ensures ParseInt(Some(ws + t), radix) == ParseInt(Some(t), radix)
  {
    TrimStartAfterWhiteSpace(ws, t);
    TrimStartAfterWhiteSpace([], t);
  }

  /** One leading sign of a trimmed string selects the sign of the result. */
  lemma ParseIntSign(sign: string, s: string, radix: int)
    requires |sign| <= 1 && (sign != [] ==> sign[0] == '+' || sign[0] == '-')
    requires sign == [] ==> s == [] || (!IsStrWhiteSpace(s[0]) && s[0] != '+' && s[0] != '-')
    ensures ParseInt(Some(sign + s), radix) == ParseUnsigned(sign != [] && sign[0] == '-', s, radix)
  {
    var t := sign + s;
    assert t == [] || !IsStrWhiteSpace(t[0]) by {
      if sign != [] { assert t[0] == sign[0]; } else { assert t == s; }
    }
    TrimStartAfterWhiteSpace([], t);
    if sign != [] {
      assert t[0] == sign[0] && t[1..] == s;
    } else {
      assert t == s;
    }
  }

  /** The digit-reading step of `parseInt(..., 10)`. */
  lemma UnsignedDecimal(negative: bool, digits: string, rest: string)
    requires forall i :: 0 <= i < |digits| ==> IsDigit(digits[i], 10)
    requires rest == [] || !IsDigit(rest[0], 10)
    ensures ParseUnsigned(negative, digits + rest, 10) ==
        if digits == [] then NaN
        else Int((if negative then -1 else 1) * DigitsValue(digits, 10))
  {
    DigitRunOfDigits(digits, rest, 10);
    assert (digits + rest)[..|digits|] == digits;
  }

  /** The decimal numeral of a natural number, most significant digit first
      (Number.prototype.toString for integers). */
  function NatToString(n: nat): (z: string)
    ensures forall i :: 0 <= i < |z| ==> IsDigit(z[i], 10)
    ensures z != []
  {
    if n < 10 then [('0' as int + n) as char]
    else NatToString(n / 10) + [('0' as int + n % 10) as char]
  }

  /** The decimal numeral of an integer, with a leading "-" when negative. */
  function IntToString(n: int): string {
    if n < 0 then "-" + NatToString(-n) else NatToString(n)
  }

  /** Reading a numeral back gives the number. */
  lemma {:induction false} DigitsValueOfNatToString(n: nat)
    ensures DigitsValue(NatToString(n), 10) == n
  {
    if n >= 10 {
      DigitsValueOfNatToString(n / 10);
      var z := NatToString(n);
      assert z[..|z| - 1] == NatToString(n / 10);
    }
  }

  /** `parseInt(String(n), 10)` is `n` for every integer `n`. */
  lemma ParseIntOfIntToString(n: int)
    ensures ParseInt(Some(IntToString(n)), 10) == Int(n)
  {
    var sign: string := if n < 0 then "-" else "";
    var m: nat := if n < 0 then -n else n;
    DigitsValueOfNatToString(m);
    ParseIntDecimal("", sign, NatToString(m), "");
    assert "" + (sign + (NatToString(m) + "")) == IntToString(n);
  }

  /** With no radix (0), a string that does not start with "0x" or "0X" is
      read in radix 10. */
  lemma RadixZeroIsDecimal(negative: bool, s: string)
    requires !(|s| >= 2 && s[0] == '0' && (s[1] == 'x' || s[1] == 'X'))
    ensures ParseUnsigned(negative, s, 0) == ParseUnsigned(negative, s, 10)
  {
  }

  /** `parseInt(String(n))`, with no radix, is `n` for every integer `n`:
      a decimal numeral never carries the hexadecimal prefix. */
  lemma ParseIntOfIntToStringNoRadix(n: int)
    ensures ParseInt(Some(IntToString(n)), 0) == Int(n)
  {
    var sign: string := if n < 0 then "-" else "";
    var m: nat := if n < 0 then -n else n;
    var z := NatToString(m);
    assert z[0] != '+' && z[0] != '-' && !IsStrWhiteSpace(z[0]) by {
      assert DigitValue(z[0]) < 10;
    }
    ParseIntSign(sign, z, 0);
    assert sign + z == IntToString(n);
    UnsignedNumeral(n < 0, m);
  }

  /** The digit-reading step, with no radix, on a decimal numeral. */
  lemma UnsignedNumeral(negative: bool, m: nat)
    ensures ParseUnsigned(negative, NatToString(m), 0) == Int((if negative then -1 else 1) * m)
  {
    var z := NatToString(m);
    assert |z| >= 2 ==> DigitValue(z[1]) < 10;
    RadixZeroIsDecimal(negative, z);
    UnsignedDecimal(negative, z, []);
    assert z + [] == z;
    DigitsValueOfNatToString(m);
  }

  /** With no radix, "0x" or "0X" followed by hexadecimal digits is read in
      radix 16, up to the first code point that is not one. */
  lemma ParseIntHexPrefix(x: char, digits: string, rest: string)
    requires x == 'x' || x == 'X'
    requires digits != [] && forall i :: 0 <= i < |digits| ==> IsDigit(digits[i], 16)
    requires rest == [] || !IsDigit(rest[0], 16)
    ensures ParseInt(Some(['0', x] + (digits + rest)), 0) == Int(DigitsValue(digits, 16))
  {
    var s := ['0', x] + (digits + rest);
    assert s[0] == '0';
    ParseIntSign([], s, 0);
    assert [] + s == s;
    UnsignedHex(x, digits, rest);
  }

  /** The digit-reading step of `parseInt(...)` after a "0x" or "0X" prefix. */
  lemma UnsignedHex(x: char, digits: string, rest: string)
    requires x == 'x' || x == 'X'
    requires digits != [] && forall i :: 0 <= i < |digits| ==> IsDigit(digits[i], 16)
    requires rest == [] || !IsDigit(rest[0], 16)
    ensures ParseUnsigned(false, ['0', x] + (digits + rest), 0) == Int(DigitsValue(digits, 16))
  {
    var s := ['0', x] + (digits + rest);
    assert s[0] == '0' && s[1] == x && s[2..] == digits + rest;
    DigitRunOfDigits(digits, rest, 16);
    assert (digits + rest)[..|digits|] == digits;
  }
}

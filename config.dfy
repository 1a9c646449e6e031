/** The bot's configuration, read once from the process environment. */
module Config {
  import opened JsString
  import opened JsNumber

  /** 50 MiB, the size ceiling used when MAX_FILE_SIZE gives none. */
  const DefaultMaxFileSize: int := 50 * 1024 * 1024

  /** The process environment: variable name to value. */
  type Env = map<string, string>

  datatype Settings = Settings(botToken: Option<string>, blobToken: Option<string>, maxFileSize: int)

  /** `parseInt(MAX_FILE_SIZE, 10) || 52428800`: the parsed number when it
      is truthy, the default otherwise. */
  function MaxFileSize(maxFileSizeVar: Option<string>): (r: int)
    ensures r != 0
    ensures Truthy(ParseInt(maxFileSizeVar, 10)) ==> r == ParseInt(maxFileSizeVar, 10).value
    ensures !Truthy(ParseInt(maxFileSizeVar, 10)) ==> r == DefaultMaxFileSize
  {
    var n := ParseInt(maxFileSizeVar, 10);
    if Truthy(n) then n.value else DefaultMaxFileSize
  }

  /** The settings object built from the environment. */
  function Load(env: Env): (s: Settings)
    ensures s.botToken == Lookup(env, "BOT_TOKEN")
    ensures s.blobToken == Lookup(env, "BLOB_READ_WRITE_TOKEN")
    ensures s.maxFileSize == MaxFileSize(Lookup(env, "MAX_FILE_SIZE"))
  {
    Settings(Lookup(env, "BOT_TOKEN"), Lookup(env, "BLOB_READ_WRITE_TOKEN"),
             MaxFileSize(Lookup(env, "MAX_FILE_SIZE")))
  }

  /** An unset MAX_FILE_SIZE gives the default 52428800. */
  lemma UnsetGivesDefault()
    ensures MaxFileSize(None) == 52428800
  {
    ParseIntUndefined(10);
  }

  /** A value that reads as decimal digits `digits` after white space and an
      optional sign gives that signed number, unless it is zero: zero is
      falsy under `||` and gives the default. What follows the digits is
      ignored; with no digits at all the value is NaN and gives the default. */
  lemma DecimalValue(ws: string, sign: string, digits: string, rest: string)
    requires forall i :: 0 <= i < |ws| ==> IsStrWhiteSpace(ws[i])
    requires |sign| <= 1 && (sign != [] ==> sign[0] == '+' || sign[0] == '-')
    requires forall i :: 0 <= i < |digits| ==> IsDigit(digits[i], 10)
    requires rest == [] || !IsDigit(rest[0], 10)
    requires sign == [] && digits == [] && rest != [] ==>
      !IsStrWhiteSpace(rest[0]) && rest[0] != '+' && rest[0] != '-'
    ensures var v := (if sign != [] && sign[0] == '-' then -1 else 1) * DigitsValue(digits, 10);
      MaxFileSize(Some(ws + (sign + (digits + rest)))) ==
        if digits == [] || v == 0 then DefaultMaxFileSize else v
  {
    ParseIntDecimal(ws, sign, digits, rest);
  }

  /** Setting MAX_FILE_SIZE to the numeral of `n` gives `n`, except that 0
      gives the default; a negative `n` is kept. */
  lemma NumeralValue(n: int)
    ensures MaxFileSize(Some(IntToString(n))) == if n == 0 then DefaultMaxFileSize else n
  {
    ParseIntOfIntToString(n);
  }

  /** "0" gives the default. */
  lemma ZeroGivesDefault()
    ensures MaxFileSize(Some("0")) == 52428800
  {
    NumeralValue(0);
  }

  /** "100MB" gives 100: what follows the digits is ignored. */
  lemma TrailingTextIgnored()
    ensures MaxFileSize(Some("100MB")) == 100
  {
    var digits := "100";
    assert DigitsValue(digits, 10) == 100 by {
      assert digits[..2] == "10" && "10"[..1] == "1";
    }
    DecimalValue("", "", digits, "MB");
    assert "" + ("" + (digits + "MB")) == "100MB";
  }

  /** "-5" gives -5: a negative ceiling is kept, not defaulted. */
  lemma NegativeKept()
    ensures MaxFileSize(Some("-5")) == -5
  {
    DecimalValue("", "-", "5", "");
    assert "" + ("-" + ("5" + "")) == "-5";
  }

  /** "0x10" gives the default: with radix 10 no hexadecimal prefix is taken
      off, so the digits read are just "0". */
  lemma HexPrefixNotRead()
    ensures MaxFileSize(Some("0x10")) == 52428800
  {
    DecimalValue("", "", "0", "x10");
    assert "" + ("" + ("0" + "x10")) == "0x10";
  }

  /** "abc" gives the default: no digits, NaN. */
  lemma NoDigitsGivesDefault()
    ensures MaxFileSize(Some("abc")) == 52428800
  {
    DecimalValue("", "", "", "abc");
    assert "" + ("" + ("" + "abc")) == "abc";
  }
}

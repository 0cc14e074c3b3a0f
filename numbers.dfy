/** Number and unit decoding: the integer parses (`str::parse::<u16|u32|u64>`),
    the duration decoder `calculate_thread_time` and the K/M/G size factors. */
module Numbers {
  import opened Wrappers
  import opened Text

  const U16_LIMIT: nat := 0x1_0000
  const U32_LIMIT: nat := 0x1_0000_0000
  const U64_LIMIT: nat := 0x1_0000_0000_0000_0000

  /** A `u64` sum or product as a release build computes it: modulo 2^64. */
  function Wrap64(n: nat): (r: nat)
    ensures r < U64_LIMIT
    ensures n < U64_LIMIT ==> r == n
  {
    n % U64_LIMIT
  }

  predicate IsDigit(c: char) {
    '0' <= c <= '9'
  }

  predicate AllDigits(s: string) {
    forall i | 0 <= i < |s| :: IsDigit(s[i])
  }

  /** The value of a string of decimal digits, most significant first. */
  function DigitsValue(s: string): nat
    requires AllDigits(s)
    decreases |s|
  {
    if |s| == 0 then 0 else DigitsValue(s[..|s| - 1]) * 10 + (s[|s| - 1] as int - '0' as int)
  }

  /** `str::parse` for the unsigned integer type whose values lie below
      `limit`: an optional `+`, then at least one decimal digit, and a value
      that fits. Anything else is a parse error. */
  function ParseUnsigned(s: string, limit: nat): Option<nat> {
    var digits := if |s| > 0 && s[0] == '+' then s[1..] else s;
    if digits != [] && AllDigits(digits) && DigitsValue(digits) < limit
    then Some(DigitsValue(digits))
    else None
  }

  /** The decimal rendering of a number, without sign or leading zeros. */
  function DecimalString(n: nat): (s: string)
    ensures |s| >= 1 && AllDigits(s)
    decreases n
  {
    if n < 10 then [('0' as int + n) as char]
    else DecimalString(n / 10) + [('0' as int + n % 10) as char]
  }

  lemma {:induction false} DecimalStringValue(n: nat)
    ensures DigitsValue(DecimalString(n)) == n
    decreases n
  {
    if n >= 10 {
      DecimalStringValue(n / 10);
      var s := DecimalString(n);
      assert s[..|s| - 1] == DecimalString(n / 10);
    }
  }

  /** Parsing reads back every value of the type from its decimal rendering. */
  lemma {:induction false} ParseUnsignedRoundTrip(n: nat, limit: nat)
    requires n < limit
    ensures ParseUnsigned(DecimalString(n), limit) == Some(n)
  {
    DecimalStringValue(n);
  }

  /** A digit is not whitespace. */
  lemma DigitNotWhitespace(c: char)
    requires IsDigit(c)
    ensures !IsWhitespace(c)
  {
    assert c !in WhiteSpace by {
      assert forall w | w in WhiteSpace :: !IsDigit(w);
    }
  }

  /** A rendered number survives trimming and is read back. */
  lemma DecimalReadBack(n: nat, limit: nat)
    requires n < limit
    ensures ParseUnsigned(Trim(DecimalString(n)), limit) == Some(n)
  {
    var s := DecimalString(n);
    forall i | 0 <= i < |s|
      ensures !IsWhitespace(s[i])
    {
      DigitNotWhitespace(s[i]);
    }
    TrimWithoutWhitespace(s);
    ParseUnsignedRoundTrip(n, limit);
  }

  /** A successful parse is a value of the type, written in the text. */
  lemma {:induction false} ParseUnsignedSound(s: string, limit: nat)
    requires ParseUnsigned(s, limit).Some?
    ensures ParseUnsigned(s, limit).value < limit
    ensures s != [] && s != "+"
    ensures forall i | 0 < i < |s| :: IsDigit(s[i])
    ensures IsDigit(s[0]) || s[0] == '+'
  {
  }

  /** The value of the digits after a decimal point, most significant first. */
  function FractionValue(s: string): (r: real)
    requires AllDigits(s)
    ensures 0.0 <= r <= 1.0
    decreases |s|
  {
    if |s| == 0 then 0.0 else ((s[0] as int - '0' as int) as real + FractionValue(s[1..])) / 10.0
  }

  /** The decimal numbers `str::parse::<f32>()` is given here: an optional
      sign, digits, and an optional point followed by more digits, with at
      least one digit in all. The value is exact (no rounding to f32). */
  function ParseDecimal(s: string): Option<real> {
    var negative := |s| > 0 && s[0] == '-';
    var body := if |s| > 0 && (s[0] == '+' || s[0] == '-') then s[1..] else s;
    var point := if '.' in body then IndexOf(body, '.') else |body|;
    var whole := body[..point];
    var fraction := if point < |body| then body[point + 1..] else "";
    if AllDigits(whole) && AllDigits(fraction) && |whole| + |fraction| >= 1 then
      var magnitude := DigitsValue(whole) as real + FractionValue(fraction);
      Some(if negative then -magnitude else magnitude)
    else None
  }

  /** The unit `parse_memory_from_heap_info` reads a size token in: the
      first of K, M, G the token contains, else plain bytes. */
  datatype SizeUnit = Kilobytes | Megabytes | Gigabytes | Bytes

  function SizeUnitOf(token: string): SizeUnit {
    if 'K' in token then Kilobytes
    else if 'M' in token then Megabytes
    else if 'G' in token then Gigabytes
    else Bytes
  }

  /** A figure in the given unit, in bytes: the factors 1024, 1024 * 1024,
      1024 * 1024 * 1024 and 1. */
  function InBytes(n: nat, unit: SizeUnit): nat {
    match unit
    case Kilobytes => n * 1024
    case Megabytes => n * 1048576
    case Gigabytes => n * 1073741824
    case Bytes => n
  }

  /** The unit `calculate_thread_time` reads a duration token in, chosen on
      the raw token (field name included): "ms" first, then any 'm', then
      any 's'; a token with none of them is taken as milliseconds. */
  datatype DurationUnit = Milliseconds | Minutes | Seconds | Unitless

  function DurationUnitOf(token: string): DurationUnit {
    if Contains(token, "ms") then Milliseconds
    else if 'm' in token then Minutes
    else if 's' in token then Seconds
    else Unitless
  }

  /** A figure in the given unit, in milliseconds: the factors 1, 60 * 1000,
      1000 and 1. */
  function ToMilliseconds(v: real, unit: DurationUnit): real {
    match unit
    case Milliseconds => v
    case Minutes => v * 60000.0
    case Seconds => v * 1000.0
    case Unitless => v
  }

  /** `calculate_thread_time`: the token without its field name, "ms", "s"
      and with a decimal comma turned into a point, parsed and converted to
      milliseconds. A parse failure is the `unwrap` panic. */
  function ThreadTime(token: string, column: string): Result<real>
    requires column != []
  {
    match ParseDecimal(DurationNumeral(token, column))
    case Some(v) => Ok(ToMilliseconds(v, DurationUnitOf(token)))
    case None => Err(Panic)
  }

  /** What `calculate_thread_time` hands to the float parser. */
  function DurationNumeral(token: string, column: string): string
    requires column != []
  {
    Replace(Replace(Replace(Replace(token, column, ""), "ms", ""), "s", ""), ",", ".")
  }

  /** The digits of a duration as jcmd prints them: a whole part, a decimal
      point or comma, and a fraction. */
  predicate IsNumeral(whole: string, point: char, fraction: string) {
    |whole| >= 1 && AllDigits(whole) && AllDigits(fraction) && (point == '.' || point == ',')
  }

  function NumeralValue(whole: string, fraction: string): real
    requires AllDigits(whole) && AllDigits(fraction)
  {
    DigitsValue(whole) as real + FractionValue(fraction)
  }

  lemma {:induction false} StripMilliseconds(n: string, unit: string)
    requires 'm' !in n && (unit == "ms" || unit == "s")
    ensures Replace(n + unit, "ms", "") == n + (if unit == "ms" then "" else "s")
  {
    ReplaceSkip(n, unit, "ms", "");
    if unit == "ms" {
      assert Replace(unit, "ms", "") == "" + Replace("", "ms", "");
    } else {
      assert Replace(unit, "ms", "") == "s" + Replace("", "ms", "");
    }
  }

  lemma {:induction false} StripSeconds(n: string, unit: string)
    requires 's' !in n && (unit == "" || unit == "s")
    ensures Replace(n + unit, "s", "") == n
  {
    ReplaceSkip(n, unit, "s", "");
    if unit == "s" {
      assert Replace(unit, "s", "") == "" + Replace("", "s", "");
    }
    assert n + "" == n;
  }

  lemma {:induction false} CommaToPoint(whole: string, point: char, fraction: string)
    requires IsNumeral(whole, point, fraction)
    ensures Replace(whole + [point] + fraction, ",", ".") == whole + "." + fraction
  {
    assert whole + [point] + fraction == whole + ([point] + fraction);
    ReplaceSkip(whole, [point] + fraction, ",", ".");
    ReplaceSkip(fraction, "", ",", ".");
    assert fraction + "" == fraction;
    var t := [point] + fraction;
    assert t[1..] == fraction;
    if point == ',' {
      assert "," <= t;
      assert Replace(t, ",", ".") == "." + Replace(fraction, ",", ".");
    } else {
      assert !("," <= t);
      assert Replace(t, ",", ".") == "." + Replace(fraction, ",", ".");
    }
  }

  lemma {:induction false} NumeralStrip(whole: string, point: char, fraction: string, unit: string)
    requires IsNumeral(whole, point, fraction)
    requires unit == "ms" || unit == "s"
    ensures Replace(Replace(Replace(whole + [point] + fraction + unit, "ms", ""), "s", ""), ",", ".")
         == whole + "." + fraction
  {
    var n := whole + [point] + fraction;
    assert 'm' !in n && 's' !in n;
    StripMilliseconds(n, unit);
    StripSeconds(n, if unit == "ms" then "" else "s");
    CommaToPoint(whole, point, fraction);
  }

  lemma {:induction false} ParseNumeral(whole: string, fraction: string)
    requires IsNumeral(whole, '.', fraction)
    ensures ParseDecimal(whole + "." + fraction) == Some(NumeralValue(whole, fraction))
  {
    var body := whole + "." + fraction;
    assert body[0] == whole[0];
    assert '.' in body && IndexOf(body, '.') == |whole|;
    assert body[..|whole|] == whole && body[|whole| + 1..] == fraction;
  }

  /** The field name comes off a token whose value part holds no '='. */
  lemma {:induction false} StripColumn(column: string, rest: string)
    requires column != [] && '=' in column && '=' !in rest
    ensures Replace(column + rest, column, "") == rest
  {
    var token := column + rest;
    assert column <= token && token[|column|..] == rest;
    NoCharNoSubstring(rest, column, '=');
    ReplaceAbsent(rest, column, "");
  }

  lemma {:induction false} NumeralOfToken(column: string, whole: string, point: char, fraction: string, unit: string)
    requires column != [] && '=' in column
    requires IsNumeral(whole, point, fraction) && (unit == "ms" || unit == "s")
    ensures DurationNumeral(column + (whole + [point] + fraction + unit), column) == whole + "." + fraction
  {
    var rest := whole + [point] + fraction + unit;
    assert '=' !in rest;
    StripColumn(column, rest);
    NumeralStrip(whole, point, fraction, unit);
  }

  lemma {:induction false} DecodeParsed(whole: string, fraction: string, token: string, column: string)
    requires column != []
    requires IsNumeral(whole, '.', fraction)
    requires DurationNumeral(token, column) == whole + "." + fraction
    ensures ThreadTime(token, column) == Ok(ToMilliseconds(NumeralValue(whole, fraction), DurationUnitOf(token)))
  {
    ParseNumeral(whole, fraction);
  }

  lemma {:induction false} DecodeNumeral(token: string, column: string, whole: string, point: char, fraction: string, unit: string)
    requires column != [] && '=' in column
    requires IsNumeral(whole, point, fraction) && (unit == "ms" || unit == "s")
    requires token == column + whole + [point] + fraction + unit
    ensures ThreadTime(token, column) == Ok(ToMilliseconds(NumeralValue(whole, fraction), DurationUnitOf(token)))
  {
    assert token == column + (whole + [point] + fraction + unit);
    NumeralOfToken(column, whole, point, fraction, unit);
    DecodeParsed(whole, fraction, token, column);
  }

  /** The field names a duration token starts with (`cpu=`, `elapsed=`):
      they end the name with '=' and hold no 'm'. */
  predicate DurationField(column: string) {
    column != [] && '=' in column && 'm' !in column
  }

  /** A duration token in milliseconds decodes to its numeral. */
  lemma {:induction false} MillisecondsToken(token: string, column: string, whole: string, point: char, fraction: string)
    requires DurationField(column)
    requires IsNumeral(whole, point, fraction)
    requires token == column + whole + [point] + fraction + "ms"
    ensures ThreadTime(token, column) == Ok(NumeralValue(whole, fraction))
  {
    DecodeNumeral(token, column, whole, point, fraction, "ms");
    ContainsSuffix(column + whole + [point] + fraction, "ms");
  }

  /** A token with an 's' and no 'm' is read in seconds. */
  lemma {:induction false} SecondsUnit(token: string)
    requires 'm' !in token && 's' in token
    ensures DurationUnitOf(token) == Seconds
  {
    NoCharNoSubstring(token, "ms", 'm');
  }

  /** A duration token in seconds decodes to a thousand times its numeral. */
  lemma {:induction false} SecondsToken(token: string, column: string, whole: string, point: char, fraction: string)
    requires DurationField(column)
    requires IsNumeral(whole, point, fraction)
    requires token == column + whole + [point] + fraction + "s"
    ensures ThreadTime(token, column) == Ok(NumeralValue(whole, fraction) * 1000.0)
  {
    DecodeNumeral(token, column, whole, point, fraction, "s");
    assert 'm' !in whole && 'm' !in fraction;
    assert token[|token| - 1] == 's';
    SecondsUnit(token);
  }

  lemma NumeralValues()
    ensures NumeralValue("250", "00") == 250.0
    ensures NumeralValue("12", "50") == 12.5
    ensures NumeralValue("1", "5") == 1.5
  {
    assert "250"[..2] == "25" && "25"[..1] == "2" && "2"[..0] == "";
    assert DigitsValue("250") == 250;
    assert "00"[1..] == "0" && "0"[1..] == "";
    assert FractionValue("00") == 0.0;
    assert "12"[..1] == "1" && "1"[..0] == "";
    assert "50"[1..] == "0";
    assert FractionValue("50") == 0.5;
    assert "5"[1..] == "";
  }

  /** A `cpu=` figure in milliseconds is read as it stands. */
  lemma {:induction false} CpuMillisecondsExample(token: string, column: string)
    requires column == "cpu=" && token == "cpu=250.00ms"
    ensures ThreadTime(token, column) == Ok(250.0)
  {
    assert IsNumeral("250", '.', "00");
    assert token == column + "250" + ['.'] + "00" + "ms";
    MillisecondsToken(token, column, "250", '.', "00");
    NumeralValues();
  }

  /** An `elapsed=` figure in seconds is converted to milliseconds. */
  lemma {:induction false} ElapsedSecondsExample(token: string, column: string)
    requires column == "elapsed=" && token == "elapsed=12.50s"
    ensures ThreadTime(token, column) == Ok(12500.0)
  {
    assert IsNumeral("12", '.', "50");
    assert token == column + "12" + ['.'] + "50" + "s";
    SecondsToken(token, column, "12", '.', "50");
    NumeralValues();
  }

  /** A decimal comma is read as a decimal point. */
  lemma {:induction false} DecimalCommaExample(token: string, column: string)
    requires column == "cpu=" && token == "cpu=1,5ms"
    ensures ThreadTime(token, column) == Ok(1.5)
  {
    assert IsNumeral("1", ',', "5");
    assert token == column + "1" + [','] + "5" + "ms";
    MillisecondsToken(token, column, "1", ',', "5");
    NumeralValues();
  }

  /** Because the unit is chosen on the raw token, the 's' of the field name
      makes every `elapsed=` token without an 'm' count as seconds. */
  lemma {:induction false} ElapsedTokensCountAsSeconds(token: string)
    requires "elapsed=" <= token && 'm' !in token
    ensures DurationUnitOf(token) == Seconds
  {
    assert token[4] == 's';
    SecondsUnit(token);
  }

  /** A text whose only 'm' is its last character does not contain "ms". */
  lemma {:induction false} NoMillisecondsBeforeEnd(s: string)
    requires forall k | 0 <= k < |s| - 1 :: s[k] != 'm'
    ensures !Contains(s, "ms")
    decreases |s|
  {
    if |s| > 0 {
      if |s| >= 2 {
        assert s[0] != 'm';
      }
      NoMillisecondsBeforeEnd(s[1..]);
    }
  }

  /** What the duration decoder is handed for a bare minutes token: the 'm'
      stays. */
  lemma {:induction false} MinutesNumeral(token: string, whole: string)
    requires |whole| >= 1 && AllDigits(whole)
    requires token == "elapsed=" + (whole + "m")
    ensures DurationNumeral(token, "elapsed=") == whole + "m"
  {
    var rest := whole + "m";
    assert '=' !in rest && 's' !in rest && ',' !in rest;
    StripColumn("elapsed=", rest);
    NoCharNoSubstring(rest, "ms", 's');
    ReplaceAbsent(rest, "ms", "");
    NoCharNoSubstring(rest, "s", 's');
    ReplaceAbsent(rest, "s", "");
    NoCharNoSubstring(rest, ",", ',');
    ReplaceAbsent(rest, ",", ".");
  }

  /** A bare minutes token is read in minutes, but its 'm' is never stripped,
      so it is not a number and the decoder panics. */
  lemma {:induction false} MinutesTokenPanics(token: string, whole: string)
    requires |whole| >= 1 && AllDigits(whole)
    requires token == "elapsed=" + (whole + "m")
    ensures DurationUnitOf(token) == Minutes
    ensures ThreadTime(token, "elapsed=") == Err(Panic)
  {
    var rest := whole + "m";
    MinutesNumeral(token, whole);
    assert rest[|rest| - 1] == 'm' && !AllDigits(rest);
    assert ParseDecimal(rest) == None;
    assert forall k | 0 <= k < |token| - 1 :: token[k] != 'm';
    NoMillisecondsBeforeEnd(token);
    assert token[|token| - 1] == 'm';
  }
}

/**
 * The dynamically typed scalars found in request payloads and stub
 * expectations (Go's `interface{}`), and their conversion to text for the
 * regex strategy (`tryConvertValue`).
 */
module Values {
  import opened Wrappers

  newtype int64 = i: int | -0x8000_0000_0000_0000 <= i < 0x8000_0000_0000_0000
  newtype int32 = i: int | -0x8000_0000 <= i < 0x8000_0000

  /**
   * One dynamic value. The constructor is the value's Go type, so datatype
   * equality distinguishes `int` 1 from `int64` 1, as a deep-equality test does.
   * Floating-point numbers are kept as exact reals.
   */
  datatype Value =
    | Str(s: string)
    | Int(i: int64)              // Go `int`, 64 bits wide
    | Int64(i64: int64)
    | Int32(i32: int32)
    | Float32(f32: real)
    | Float64(f64: real)
    | Bool(b: bool)
    | Nil
    | Object(fields: map<string, Value>)
    | List(items: seq<Value>)
  {
    /** The kinds `tryConvertValue` knows how to render. */
    predicate IsScalar() {
      Str? || Int? || Int64? || Int32? || Float32? || Float64? || Bool?
    }
  }

  /** A payload or an expectation: field name to value. */
  type Fields = map<string, Value>

  /** What `regexp.Match(pattern, subject)` reports. */
  datatype RegexOutcome = Matched | NotMatched | RegexError

  /**
   * Library routines the engine calls but whose algorithms are not part of
   * this model: regular-expression search, the fuzzy substring test, float
   * rendering with five decimals (argument: value, bit size) and `fmt.Sprint`.
   */
  datatype Libs = Libs(
    regexMatch: (string, string) -> RegexOutcome,
    fuzzyMatch: (string, string) -> bool,
    formatFloat: (real, nat) -> string,
    sprint: Value -> string)

  const ConversionFailure := "was not possible do infer a string representation for the value"

  predicate IsDigit(c: char) {
    '0' <= c <= '9'
  }

  predicate IsDigits(s: string) {
    forall i :: 0 <= i < |s| ==> IsDigit(s[i])
  }

  function DigitChar(d: nat): (c: char)
    requires d < 10
    ensures IsDigit(c)
  {
    (48 + d) as char
  }

  function DigitValue(c: char): (d: nat)
    requires IsDigit(c)
    ensures d < 10
  {
    c as int - 48
  }

  /** Base-10 digits of `n`, most significant first, without leading zeros. */
  function FormatNat(n: nat): (s: string)
    ensures |s| > 0 && IsDigits(s)
    ensures s[0] == '0' ==> n == 0
    decreases n
  {
    if n < 10 then [DigitChar(n)]
    else FormatNat(n / 10) + [DigitChar(n % 10)]
  }

  /** `strconv.FormatInt(i, 10)`: a leading '-' for negative numbers, then the digits. */
  function FormatInt(i: int): string {
    if i < 0 then "-" + FormatNat(-i) else FormatNat(i)
  }

  function ParseNat(s: string): nat
    requires IsDigits(s)
  {
    if s == [] then 0 else ParseNat(s[..|s| - 1]) * 10 + DigitValue(s[|s| - 1])
  }

  /** Text of the form `strconv.FormatInt` produces: an optional '-' and at least one digit. */
  predicate IsIntText(s: string) {
    if |s| > 0 && s[0] == '-' then |s| > 1 && IsDigits(s[1..]) else |s| > 0 && IsDigits(s)
  }

  function ParseInt(s: string): int
    requires IsIntText(s)
  {
    if s[0] == '-' then -(ParseNat(s[1..]) as int) else ParseNat(s)
  }

  lemma {:induction false} ParseFormatNat(n: nat)
    ensures ParseNat(FormatNat(n)) == n
    decreases n
  {
    var s := FormatNat(n);
    if n >= 10 {
      ParseFormatNat(n / 10);
      assert s[..|s| - 1] == FormatNat(n / 10);
    }
  }

  /** The decimal rendering of an integer loses nothing: it parses back to the same number. */
  lemma FormatIntRoundTrip(i: int)
    ensures IsIntText(FormatInt(i)) && ParseInt(FormatInt(i)) == i
  {
    if i < 0 {
      ParseFormatNat(-i);
      assert FormatInt(i)[1..] == FormatNat(-i);
    } else {
      ParseFormatNat(i);
    }
  }

  /** Distinct integers render to distinct text. */
  lemma FormatIntInjective(a: int, b: int)
    requires FormatInt(a) == FormatInt(b)
    ensures a == b
  {
    FormatIntRoundTrip(a);
    FormatIntRoundTrip(b);
  }

  /**
   * `tryConvertValue`: the text a value is matched as. Succeeds exactly on
   * the scalar kinds; nil, nested objects and lists fail.
   */
  function TryConvertValue(v: Value, libs: Libs): (r: Result<string, string>)
    ensures r.Success? <==> v.IsScalar()
    ensures r.Failure? ==> r.error == ConversionFailure
    ensures v.Str? ==> r == Success(v.s)
    ensures v.Bool? ==> r == Success(if v.b then "true" else "false")
  {
    match v
    case Str(s) => Success(s)
    case Int(i) => Success(FormatInt(i as int))
    case Int64(i) => Success(FormatInt(i as int))
    case Int32(i) => Success(FormatInt(i as int))
    case Float32(f) => Success(libs.formatFloat(f, 32))
    case Float64(f) => Success(libs.formatFloat(f, 64))
    case Bool(b) => Success(if b then "true" else "false")
    case _ => Failure(ConversionFailure)
  }

  /** An integer of any width converts to decimal text that parses back to the same number. */
  lemma ConvertedIntegerParsesBack(v: Value, libs: Libs)
    requires v.Int? || v.Int64? || v.Int32?
    ensures var r := TryConvertValue(v, libs);
      r.Success? && IsIntText(r.value) &&
      ParseInt(r.value) == (if v.Int? then v.i as int else if v.Int64? then v.i64 as int else v.i32 as int)
  {
    match v
    case Int(i) => FormatIntRoundTrip(i as int);
    case Int64(i) => FormatIntRoundTrip(i as int);
    case Int32(i) => FormatIntRoundTrip(i as int);
  }
}

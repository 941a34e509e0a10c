/** The number handling of the visit counter: `parseInt` of the stored
    text, `+ 1`, and `toString()` back to text. */
module JsNumber {
  import opened JsText

  /** The values a visit count takes at run time: an integer; NaN, which
      `parseInt` returns for text without leading digits and which `+ 1`
      keeps; or null, which is what `JSON.stringify` writes for NaN and
      `JSON.parse` reads back. */
  datatype Value = Int(value: int) | NaN | Null

  /** `v + 1`: null is taken as 0, NaN stays NaN. */
  function Increment(v: Value): (r: Value)
    ensures r.Int? <==> !v.NaN?
    ensures v.Int? ==> r.value == v.value + 1
    ensures v.Null? ==> r == Int(1)
    ensures v.NaN? ==> r == NaN
  {
    match v
    case Int(n) => Int(n + 1)
    case NaN => NaN
    case Null => Int(1)
  }

  predicate IsDigit(c: char, radix: nat)
  {
    || '0' <= c <= '9'
    || (radix == 16 && ('a' <= c <= 'f' || 'A' <= c <= 'F'))
  }

  predicate AllDigits(s: string, radix: nat)
  {
    forall i :: 0 <= i < |s| ==> IsDigit(s[i], radix)
  }

  function DigitValue(c: char): (d: nat)
    requires IsDigit(c, 16)
    ensures d < 16
    ensures IsDigit(c, 10) ==> d < 10
  {
    if '0' <= c <= '9' then c as int - '0' as int
    else if 'a' <= c <= 'f' then c as int - 'a' as int + 10
    else c as int - 'A' as int + 10
  }

  /** The lower-case digit for `d`, as `toString` and JSON escapes write it. */
  function DigitChar(d: nat): (c: char)
    requires d < 16
    ensures IsDigit(c, 16) && DigitValue(c) == d
    ensures d < 10 ==> IsDigit(c, 10)
  {
    "0123456789abcdef"[d]
  }

  /** The value of a run of digits, most significant first. */
  function DigitsValue(ds: string, radix: nat): nat
    requires radix == 10 || radix == 16
    requires AllDigits(ds, radix)
  {
    if ds == [] then 0
    else DigitsValue(ds[..|ds| - 1], radix) * radix + DigitValue(ds[|ds| - 1])
  }

  /** The decimal digits of `n`, without leading zeros. */
  function Decimal(n: nat): (r: string)
    ensures |r| > 0 && AllDigits(r, 10)
    ensures |r| > 1 ==> r[0] != '0'
  {
    if n < 10 then [DigitChar(n)]
    else
      var r := Decimal(n / 10) + [DigitChar(n % 10)];
      assert r[..|r| - 1] == Decimal(n / 10);
      r
  }

  /** The decimal digits of `n` are worth `n`. */
  lemma {:induction false} DecimalValue(n: nat)
    ensures DigitsValue(Decimal(n), 10) == n
  {
    var r := Decimal(n);
    if n >= 10 {
      DecimalValue(n / 10);
      assert r[..|r| - 1] == Decimal(n / 10);
    }
  }

  /** `String(v)`: what `toString()` and a template literal show. An
      integer shows as its digits, after a minus sign exactly when it is
      negative. */
  function ToString(v: Value): (r: string)
    ensures |r| > 0
    ensures v.Int? ==> (r[0] == '-' <==> v.value < 0)
    ensures v.Int? ==> AllDigits(r[if v.value < 0 then 1 else 0..], 10)
  {
    match v
    case Int(n) =>
      if n < 0 then
        var r := "-" + Decimal(-n);
        assert r[1..] == Decimal(-n);
        r
      else
        assert Decimal(n)[0..] == Decimal(n);
        Decimal(n)
    case NaN => "NaN"
    case Null => "null"
  }

  /** The longest prefix of `s` made of digits of the radix. */
  function LeadingDigits(s: string, radix: nat): (r: string)
    ensures |r| <= |s| && r == s[..|r|]
    ensures AllDigits(r, radix)
    ensures |r| == |s| || !IsDigit(s[|r|], radix)
  {
    if |s| > 0 && IsDigit(s[0], radix) then
      var r := [s[0]] + LeadingDigits(s[1..], radix);
      assert r == s[..|r|];
      r
    else
      []
  }

  /** `parseInt(s)` with no radix argument: leading white space is skipped,
      one sign is taken, a `0x` or `0X` prefix selects base 16, and the
      longest run of digits that follows is read; without any digit the
      result is NaN. */
  function ParseInt(s: string): (r: Value)
    ensures r != Null
    ensures IsBlank(s) ==> r == NaN
  {
    var t := TrimStart(s);
    if |t| > 0 && t[0] == '-' then Negate(ParseMagnitude(t[1..]))
    else if |t| > 0 && t[0] == '+' then ParseMagnitude(t[1..])
    else ParseMagnitude(t)
  }

  /** The unsigned part of `parseInt`: the radix prefix and the digits. */
  function ParseMagnitude(u: string): (r: Value)
    ensures r.Int? ==> r.value >= 0
    ensures r != Null
  {
    var hex := |u| >= 2 && u[0] == '0' && (u[1] == 'x' || u[1] == 'X');
    var radix := if hex then 16 else 10;
    var ds := LeadingDigits(if hex then u[2..] else u, radix);
    if ds == [] then NaN else Int(DigitsValue(ds, radix))
  }

  function Negate(v: Value): Value
  {
    if v.Int? then Int(-v.value) else v
  }

  /** The digits of a number are read whole, as a decimal number. */
  lemma ParseMagnitudeOfDecimal(n: nat)
    ensures ParseMagnitude(Decimal(n)) == Int(n)
  {
    var d := Decimal(n);
    assert LeadingDigits(d, 10) == d;
    DecimalValue(n);
  }

  /** A sign in front of digits is read as the sign of the number. */
  lemma ParseIntOfSigned(d: string)
    requires |d| > 0 && IsDigit(d[0], 10)
    ensures ParseInt(d) == ParseMagnitude(d)
    ensures ParseInt("-" + d) == Negate(ParseMagnitude(d))
  {
    var s := "-" + d;
    TrimStartKeeps(d);
    TrimStartKeeps(s);
    assert s[1..] == d;
  }

  /** What the counter writes with `toString()` is what `parseInt` reads
      back on the next visit: integers and NaN survive the round trip. */
  lemma {:induction false} ParseIntOfToString(v: Value)
    requires v != Null
    ensures ParseInt(ToString(v)) == v
  {
    match v
    case NaN =>
      TrimStartKeeps("NaN");
      assert LeadingDigits("NaN", 10) == [];
    case Int(n) =>
      var m: nat := if n < 0 then -n else n;
      var d := Decimal(m);
      ParseMagnitudeOfDecimal(m);
      ParseIntOfSigned(d);
  }
}

/** `JSON.stringify` and `JSON.parse` for the two shapes the checklist
    stores: the array of selected features and the visitor record. The
    writer produces exactly what `JSON.stringify` produces for them; the
    reader accepts that output (without insignificant white space) and
    fails, as `JSON.parse` throws, on text it cannot read. */
module Json {
  import opened Records
  import opened JsNumber
  import opened JsText
  import opened Scan

  // ---------------------------------------------------------------------
  // Strings

  /** How `JSON.stringify` writes one character inside a string literal:
      quote and backslash are escaped, the five control characters with a
      short escape use it, the other control characters become `\u00xx`. */
  function EscapeChar(c: char): string
  {
    if c == '"' then "\\\""
    else if c == '\\' then "\\\\"
    else if c == '\U{8}' then "\\b"
    else if c == '\t' then "\\t"
    else if c == '\n' then "\\n"
    else if c == '\U{C}' then "\\f"
    else if c == '\r' then "\\r"
    else if c < ' ' then "\\u00" + [DigitChar(c as int / 16), DigitChar(c as int % 16)]
    else [c]
  }

  function Escape(s: string): string
  {
    if s == [] then [] else EscapeChar(s[0]) + Escape(s[1..])
  }

  /** `JSON.stringify(s)` for a string. */
  function Quote(s: string): string
  {
    "\"" + Escape(s) + "\""
  }

  function HexValue(h: string): (v: nat)
    requires |h| == 4 && AllDigits(h, 16)
  {
    DigitValue(h[0]) * 4096 + DigitValue(h[1]) * 256 + DigitValue(h[2]) * 16 + DigitValue(h[3])
  }

  /** Reads the escape that follows a backslash: the character it stands for
      and how many characters it takes. A `\u` escape of a surrogate code
      unit is refused. */
  function Unescape(t: string): (r: Option<(char, nat)>)
    ensures r.Some? ==> 0 < r.value.1 <= |t|
  {
    if t == [] then None
    else if t[0] == '"' then Some(('"', 1))
    else if t[0] == '\\' then Some(('\\', 1))
    else if t[0] == '/' then Some(('/', 1))
    else if t[0] == 'b' then Some(('\U{8}', 1))
    else if t[0] == 't' then Some(('\t', 1))
    else if t[0] == 'n' then Some(('\n', 1))
    else if t[0] == 'f' then Some(('\U{C}', 1))
    else if t[0] == 'r' then Some(('\r', 1))
    else if t[0] == 'u' && |t| >= 5 && AllDigits(t[1..5], 16) then
      var v := HexValue(t[1..5]);
      if 0xD800 <= v < 0xE000 then None else Some((v as char, 5))
    else None
  }

  function Prepend(c: char, r: Option<(string, string)>): Option<(string, string)>
  {
    match r
    case None => None
    case Some((v, rest)) => Some(([c] + v, rest))
  }

  /** Reads the characters of a string literal up to its closing quote;
      gives the string and the text after the quote. */
  function ParseChars(s: string): (r: Option<(string, string)>)
    ensures r.Some? ==> |r.value.1| < |s|
    decreases |s|
  {
    if s == [] then None
    else if s[0] == '"' then Some(([], s[1..]))
    else if s[0] == '\\' then
      match Unescape(s[1..])
      case None => None
      case Some((c, n)) => Prepend(c, ParseChars(s[1 + n..]))
    else if s[0] < ' ' then None
    else Prepend(s[0], ParseChars(s[1..]))
  }

  /** Reads a string literal at the front of `s`. */
  function ParseString(s: string): (r: Option<(string, string)>)
    ensures r.Some? ==> |r.value.1| < |s|
  {
    if |s| > 0 && s[0] == '"' then ParseChars(s[1..]) else None
  }

  /** Reading one escaped character gives that character. */
  lemma ParseEscapedChar(c: char, t: string)
    ensures ParseChars(EscapeChar(c) + t) == Prepend(c, ParseChars(t))
  {
    if c == '"' || c == '\\' || c == '\U{8}' || c == '\t' || c == '\n' || c == '\U{C}' || c == '\r' {
      ParseShortEscape(c, t);
    } else if c < ' ' {
      ParseUnicodeEscape(c, t);
    } else {
      assert (EscapeChar(c) + t)[1..] == t;
    }
  }

  lemma ParseShortEscape(c: char, t: string)
    requires c == '"' || c == '\\' || c == '\U{8}' || c == '\t' || c == '\n' || c == '\U{C}' || c == '\r'
    ensures ParseChars(EscapeChar(c) + t) == Prepend(c, ParseChars(t))
  {
    if c == '"' {
      TwoCharEscape(c, "\\\"", t);
    } else if c == '\\' {
      TwoCharEscape(c, "\\\\", t);
    } else if c == '\U{8}' {
      TwoCharEscape(c, "\\b", t);
    } else if c == '\t' {
      TwoCharEscape(c, "\\t", t);
    } else if c == '\n' {
      TwoCharEscape(c, "\\n", t);
    } else if c == '\U{C}' {
      TwoCharEscape(c, "\\f", t);
    } else {
      TwoCharEscape(c, "\\r", t);
    }
  }

  /** A backslash and one letter, read as the character `c` they stand for. */
  lemma TwoCharEscape(c: char, e: string, t: string)
    requires |e| == 2 && e[0] == '\\' && Unescape([e[1]] + t) == Some((c, 1))
    ensures ParseChars(e + t) == Prepend(c, ParseChars(t))
  {
    var s := e + t;
    assert s[1..] == [e[1]] + t;
    assert s[2..] == t;
  }

  /** Four hex digits `00hl` are worth the byte `h * 16 + l`. */
  lemma HexOfByte(h: nat, l: nat)
    requires h < 16 && l < 16
    ensures HexValue("00" + [DigitChar(h), DigitChar(l)]) == h * 16 + l
  {
  }

  lemma ParseUnicodeEscape(c: char, t: string)
    requires c < ' '
    requires !(c == '\U{8}' || c == '\t' || c == '\n' || c == '\U{C}' || c == '\r')
    ensures ParseChars(EscapeChar(c) + t) == Prepend(c, ParseChars(t))
  {
    var e := EscapeChar(c);
    var s := e + t;
    var h := s[2..6];
    assert h == "00" + [DigitChar(c as int / 16), DigitChar(c as int % 16)];
    HexOfByte(c as int / 16, c as int % 16);
    assert HexValue(h) == c as int;
    assert s[1..][1..5] == h;
    assert s[6..] == t;
  }

  /** Reading an escaped string up to the closing quote gives the string
      back and leaves the text after the quote. */
  lemma {:induction false} ParseCharsOfEscape(x: string, rest: string)
    ensures ParseChars(Escape(x) + "\"" + rest) == Some((x, rest))
  {
    if x == [] {
      assert Escape(x) + "\"" + rest == "\"" + rest;
    } else {
      ParseCharsOfEscape(x[1..], rest);
      assert Escape(x) + "\"" + rest == EscapeChar(x[0]) + (Escape(x[1..]) + "\"" + rest);
      ParseEscapedChar(x[0], Escape(x[1..]) + "\"" + rest);
      assert [x[0]] + x[1..] == x;
    }
  }

  /** `JSON.parse` undoes `JSON.stringify` on a string literal. */
  lemma ParseStringOfQuote(x: string, rest: string)
    ensures ParseString(Quote(x) + rest) == Some((x, rest))
  {
    ParseCharsOfEscape(x, rest);
    assert (Quote(x) + rest)[1..] == Escape(x) + "\"" + rest;
  }

  // ---------------------------------------------------------------------
  // Numbers

  /** `JSON.stringify` of a count: an integer in decimal, NaN as `null`;
      no integer is written as `null`. */
  function NumberText(v: Value): (r: string)
    ensures r == "null" <==> !v.Int?
  {
    if v.Int? then ToString(v) else "null"
  }

  /** Reads a number or `null` at the front of `s`: an optional minus and
      digits without a superfluous leading zero. */
  function ParseNumber(s: string): (r: Option<(Value, string)>)
    ensures r.Some? ==> |r.value.1| < |s|
    ensures r.Some? ==> !r.value.0.NaN?
  {
    if "null" <= s then Some((Null, s[4..]))
    else if |s| > 0 && s[0] == '-' then ParseUnsigned(s[1..], true)
    else ParseUnsigned(s, false)
  }

  /** The digits of a number, negated when a minus preceded them. */
  function ParseUnsigned(u: string, negative: bool): (r: Option<(Value, string)>)
    ensures r.Some? ==> |r.value.1| < |u|
    ensures r.Some? ==> r.value.0.Int? && (r.value.0.value < 0 ==> negative)
  {
    var ds := LeadingDigits(u, 10);
    if ds == [] || (|ds| > 1 && ds[0] == '0') then None
    else
      var magnitude: int := DigitsValue(ds, 10);
      Some((Int(if negative then -magnitude else magnitude), u[|ds|..]))
  }

  /** The digit run at the front of `d + rest` is `d` when `rest` does not
      continue it. */
  lemma LeadingDigitsOf(d: string, rest: string)
    requires AllDigits(d, 10)
    requires rest == [] || !IsDigit(rest[0], 10)
    ensures LeadingDigits(d + rest, 10) == d
  {
    if d == [] {
      assert d + rest == rest;
    } else {
      assert (d + rest)[1..] == d[1..] + rest;
      LeadingDigitsOf(d[1..], rest);
    }
  }

  /** Written digits read back as the number they write. */
  lemma ParseUnsignedOfDecimal(m: nat, rest: string, negative: bool)
    requires |rest| > 0 && !IsDigit(rest[0], 10)
    ensures ParseUnsigned(Decimal(m) + rest, negative) == Some((Int(if negative then -(m as int) else m), rest))
  {
    var d := Decimal(m);
    LeadingDigitsOf(d, rest);
    DecimalValue(m);
    assert (d + rest)[|d|..] == rest;
  }

  /** A written non-negative integer reads back as itself. */
  lemma ParseNumberOfDecimal(m: nat, rest: string)
    requires |rest| > 0 && !IsDigit(rest[0], 10)
    ensures ParseNumber(Decimal(m) + rest) == Some((Int(m), rest))
  {
    var s := Decimal(m) + rest;
    assert IsDigit(s[0], 10);
    ParseUnsignedOfDecimal(m, rest, false);
  }

  /** A written count reads back as itself; NaN reads back as null. */
  lemma ParseNumberOfText(v: Value, rest: string)
    requires |rest| > 0 && !IsDigit(rest[0], 10)
    ensures ParseNumber(NumberText(v) + rest) == Some((if v.Int? then v else Null, rest))
  {
    if v.Int? {
      ParseIntegerText(v.value, rest);
    } else {
      ParseNullText(v, rest);
    }
  }

  lemma ParseIntegerText(n: int, rest: string)
    requires |rest| > 0 && !IsDigit(rest[0], 10)
    ensures ParseNumber(NumberText(Int(n)) + rest) == Some((Int(n), rest))
  {
    if n < 0 {
      ParseNegativeText(n, rest);
    } else {
      ParseNumberOfDecimal(n, rest);
    }
  }

  /** A written negative integer reads back as itself. */
  lemma ParseNegativeText(n: int, rest: string)
    requires n < 0
    requires |rest| > 0 && !IsDigit(rest[0], 10)
    ensures ParseNumber(NumberText(Int(n)) + rest) == Some((Int(n), rest))
  {
    NegativeTextShape(n, rest);
    ParseMinusDecimal(NumberText(Int(n)) + rest, -n, rest);
  }

  lemma ParseMinusDecimal(s: string, m: nat, rest: string)
    requires |s| > 0 && s[0] == '-' && s[1..] == Decimal(m) + rest
    requires |rest| > 0 && !IsDigit(rest[0], 10)
    ensures ParseNumber(s) == Some((Int(-(m as int)), rest))
  {
    ParseUnsignedOfDecimal(m, rest, true);
  }

  /** A negative count is written as a minus and its magnitude's digits. */
  lemma NegativeTextShape(n: int, rest: string)
    requires n < 0
    ensures var s := NumberText(Int(n)) + rest;
      |s| > 0 && s[0] == '-' && s[1..] == Decimal(-n) + rest
  {
    var d := Decimal(-n);
    assert NumberText(Int(n)) == "-" + d;
    Assoc("-", d, rest);
  }

  lemma ParseNullText(v: Value, rest: string)
    requires !v.Int?
    ensures ParseNumber(NumberText(v) + rest) == Some((Null, rest))
  {
    var s := "null" + rest;
    assert NumberText(v) == "null";
    assert "null" <= s && s[4..] == rest;
  }

  // ---------------------------------------------------------------------
  // The array of selected features

  function FeatureText(sf: SelectedFeature): string
  {
    "{\"category\":" + Quote(sf.category) + ",\"feature\":" + Quote(sf.feature) + "}"
  }

  /** The elements after the first, each preceded by a comma. */
  function MoreFeaturesText(l: seq<SelectedFeature>): string
  {
    if l == [] then "" else "," + FeatureText(l[0]) + MoreFeaturesText(l[1..])
  }

  /** `JSON.stringify(selectedFeatures)`: a bracketed text, `[]` exactly
      for the empty list. */
  function FeaturesText(l: seq<SelectedFeature>): (r: string)
    ensures |r| >= 2 && r[0] == '[' && r[|r| - 1] == ']'
    ensures r == "[]" <==> l == []
  {
    if l == [] then "[]" else "[" + FeatureText(l[0]) + MoreFeaturesText(l[1..]) + "]"
  }

  function ParseFeature(s: string): (r: Option<(SelectedFeature, string)>)
    ensures r.Some? ==> |r.value.1| < |s|
  {
    match Expect("{\"category\":", s)
    case None => None
    case Some(s1) =>
      match ParseString(s1)
      case None => None
      case Some((category, s2)) =>
        match Expect(",\"feature\":", s2)
        case None => None
        case Some(s3) =>
          match ParseString(s3)
          case None => None
          case Some((feature, s4)) =>
            match Expect("}", s4)
            case None => None
            case Some(s5) => Some((SelectedFeature(category, feature), s5))
  }

  /** Reads `,element` repeatedly up to the closing bracket, which must end the text. */
  function ParseMoreFeatures(s: string): Option<seq<SelectedFeature>>
    decreases |s|
  {
    if s == "]" then Some([])
    else if |s| > 0 && s[0] == ',' then
      match ParseFeature(s[1..])
      case None => None
      case Some((sf, rest)) =>
        match ParseMoreFeatures(rest)
        case None => None
        case Some(more) => Some([sf] + more)
    else None
  }

  /** `JSON.parse` of the stored feature array; None where it would throw
      or yield something other than an array of such objects. */
  function ParseFeatures(s: string): (r: Option<seq<SelectedFeature>>)
    ensures r.Some? ==> "[" <= s
    ensures r == Some([]) <==> s == "[]"
  {
    match Expect("[", s)
    case None => None
    case Some(s1) =>
      if s1 == "]" then Some([])
      else
        match ParseFeature(s1)
        case None => None
        case Some((sf, rest)) =>
          match ParseMoreFeatures(rest)
          case None => None
          case Some(more) => Some([sf] + more)
  }

  lemma ParseFeatureOfText(sf: SelectedFeature, rest: string)
    ensures ParseFeature(FeatureText(sf) + rest) == Some((sf, rest))
  {
    var qc, qf := Quote(sf.category), Quote(sf.feature);
    var a, b := "{\"category\":", ",\"feature\":";
    var s4 := "}" + rest;
    var s3 := qf + s4;
    var s2 := b + s3;
    var s1 := qc + s2;
    Assoc(a + qc + b + qf, "}", rest);
    Assoc(a + qc + b, qf, s4);
    Assoc(a + qc, b, s3);
    Assoc(a, qc, s2);
    ExpectLiteral("{\"category\":", s1);
    ParseStringOfQuote(sf.category, s2);
    ExpectLiteral(",\"feature\":", s3);
    ParseStringOfQuote(sf.feature, s4);
    ExpectLiteral("}", rest);
  }

  lemma {:induction false} ParseMoreFeaturesOfText(l: seq<SelectedFeature>)
    ensures ParseMoreFeatures(MoreFeaturesText(l) + "]") == Some(l)
  {
    if l != [] {
      var f, more := FeatureText(l[0]), MoreFeaturesText(l[1..]);
      var tail := more + "]";
      Assoc("," + f, more, "]");
      Assoc(",", f, tail);
      ParseMoreFeatureStep(l[0], tail);
      ParseMoreFeaturesOfText(l[1..]);
      assert [l[0]] + l[1..] == l;
    }
  }

  /** One written `,element` is read as that element, ahead of the rest. */
  lemma ParseMoreFeatureStep(sf: SelectedFeature, rest: string)
    ensures ParseMoreFeatures("," + (FeatureText(sf) + rest)) ==
      match ParseMoreFeatures(rest)
      case None => None
      case Some(more) => Some([sf] + more)
  {
    var s := "," + (FeatureText(sf) + rest);
    assert s[0] == ',' && s[1..] == FeatureText(sf) + rest;
    ParseFeatureOfText(sf, rest);
  }

  /** Saved and read back, the feature array is the same sequence. */
  lemma ParseFeaturesOfText(l: seq<SelectedFeature>)
    ensures ParseFeatures(FeaturesText(l)) == Some(l)
  {
    if l == [] {
      ExpectLiteral("[", "]");
    } else {
      var f, more := FeatureText(l[0]), MoreFeaturesText(l[1..]);
      var tail := more + "]";
      var s1 := f + tail;
      Assoc("[" + f, more, "]");
      Assoc("[", f, tail);
      ExpectLiteral("[", s1);
      assert |s1| > 1;
      ParseFeatureOfText(l[0], tail);
      ParseMoreFeaturesOfText(l[1..]);
      assert [l[0]] + l[1..] == l;
    }
  }

  // ---------------------------------------------------------------------
  // The visitor record

  /** `JSON.stringify(visitorData)`: an object, keys in the order the
      record literal has them. */
  function VisitorText(d: VisitorData): (r: string)
    ensures "{\"count\":" <= r && r[|r| - 1] == '}'
  {
    "{\"count\":" + NumberText(d.count) + ",\"location\":" + Quote(d.location)
      + ",\"visitTime\":" + Quote(d.visitTime) + "}"
  }

  /** `JSON.parse` of the stored visitor record; None where it would throw
      or yield another shape. Read in three steps, one per field. JSON has
      no NaN, so a record read back never holds one. */
  function ParseVisitor(s: string): (r: Option<VisitorData>)
    ensures r.Some? ==> "{\"count\":" <= s && !r.value.count.NaN?
  {
    match Expect("{\"count\":", s)
    case None => None
    case Some(s1) =>
      match ParseNumber(s1)
      case None => None
      case Some((count, s2)) => ParseVisitorLocation(count, s2)
  }

  function ParseVisitorLocation(count: Value, s: string): (r: Option<VisitorData>)
    ensures r.Some? ==> r.value.count == count
  {
    match Expect(",\"location\":", s)
    case None => None
    case Some(s1) =>
      match ParseString(s1)
      case None => None
      case Some((location, s2)) => ParseVisitorTime(count, location, s2)
  }

  function ParseVisitorTime(count: Value, location: string, s: string): (r: Option<VisitorData>)
    ensures r.Some? ==> r.value.count == count && r.value.location == location
  {
    match Expect(",\"visitTime\":", s)
    case None => None
    case Some(s1) =>
      match ParseString(s1)
      case None => None
      case Some((visitTime, s2)) =>
        if s2 == "}" then Some(VisitorData(count, location, visitTime)) else None
  }

  lemma ParseVisitorTimeOfText(count: Value, location: string, visitTime: string)
    ensures ParseVisitorTime(count, location, ",\"visitTime\":" + Quote(visitTime) + "}")
      == Some(VisitorData(count, location, visitTime))
  {
    var qt := Quote(visitTime);
    assert ",\"visitTime\":" + qt + "}" == ",\"visitTime\":" + (qt + "}");
    ExpectLiteral(",\"visitTime\":", qt + "}");
    ParseStringOfQuote(visitTime, "}");
  }

  lemma ParseVisitorLocationOfText(count: Value, location: string, rest: string)
    ensures ParseVisitorLocation(count, ",\"location\":" + Quote(location) + rest)
      == ParseVisitorTime(count, location, rest)
  {
    var ql := Quote(location);
    assert ",\"location\":" + ql + rest == ",\"location\":" + (ql + rest);
    ExpectLiteral(",\"location\":", ql + rest);
    ParseStringOfQuote(location, rest);
  }

  lemma ParseVisitorCountOfText(count: Value, rest: string)
    requires |rest| > 0 && rest[0] == ','
    ensures ParseVisitor("{\"count\":" + NumberText(count) + rest)
      == ParseVisitorLocation(if count.Int? then count else Null, rest)
  {
    var n := NumberText(count);
    assert "{\"count\":" + n + rest == "{\"count\":" + (n + rest);
    ExpectLiteral("{\"count\":", n + rest);
    ParseNumberOfText(count, rest);
  }

  /** A stored visitor record reads back unchanged, except that a NaN
      count comes back as null. */
  lemma ParseVisitorOfText(d: VisitorData)
    ensures ParseVisitor(VisitorText(d)) ==
      Some(if d.count.Int? then d else d.(count := Null))
  {
    var count := if d.count.Int? then d.count else Null;
    var c, n, l, ql := "{\"count\":", NumberText(d.count), ",\"location\":", Quote(d.location);
    var v, qt := ",\"visitTime\":", Quote(d.visitTime);
    var timePart := v + qt + "}";
    var locationPart := l + ql + timePart;
    Assoc(c + n + l + ql + v, qt, "}");
    Assoc(v, qt, "}");
    Assoc(c + n + l + ql, v, qt + "}");
    Assoc(c + n + l, ql, timePart);
    Assoc(c + n, l, ql + timePart);
    Assoc(l, ql, timePart);
    ParseVisitorCountOfText(d.count, locationPart);
    ParseVisitorLocationOfText(count, d.location, timePart);
    ParseVisitorTimeOfText(count, d.location, d.visitTime);
  }
}

/**
 * The coercion of one raw cell text by its declared kind (FMPImporter.format_value and the four
 * format_* methods, filemaker.py:85-120), and Python's `int()` as the registry uses it for MAXREPEAT.
 */
module Coercion {
  import opened Wrappers
  import opened Chars
  import opened TimeParser

  /** An exact decimal number: mantissa / 10^scale (where the source produces a float). */
  datatype Decimal = Decimal(mantissa: nat, scale: nat)

  function DecimalValue(d: Decimal): (x: real)
    ensures x >= 0.0
  {
    d.mantissa as real / Pow10(d.scale) as real
  }

  /** A calendar date, as `datetime.date(*t[:3])` builds it from a parsed `struct_time`. */
  datatype Date = Date(year: int, month: nat, day: nat)

  /**
   * `time.strptime(value, datefmt)` reduced to the date it yields, `None` where it raises.
   * It is a library call; the model takes it as a parameter and assumes nothing about it.
   */
  type DateParser = (string, string) -> Option<Date>

  /** What format_value can return: None, a number, a date, a time of day or a text. */
  datatype Value = Null | Number(number: Decimal) | DateValue(date: Date) | TimeValue(time: Time) | Text(text: string)

  /** The ValueError a coercion raises. */
  datatype CoercionError =
    | TimeOutOfRange(minute: nat, second: nat)   // from datetime.time in flexitime
    | DateMismatch(value: string, format: string)  // from time.strptime

  // ---------------------------------------------------------------------------
  // NUMBER (filemaker.py:95-103)
  // ---------------------------------------------------------------------------

  /** A character the substitution `[^\.\d]` keeps. */
  predicate IsNumericChar(c: char) {
    IsDigit(c) || c == '.'
  }

  predicate AllNumeric(s: string) {
    forall i :: 0 <= i < |s| ==> IsNumericChar(s[i])
  }

  /** `re.sub(r'[^\.\d]', '', value)`: every character other than a digit or `.` removed. */
  function KeepNumeric(s: string): (r: string)
    ensures AllNumeric(r) && |r| <= |s|
  {
    if s == [] then []
    else (if IsNumericChar(s[0]) then [s[0]] else []) + KeepNumeric(s[1..])
  }

  /** One character is kept when it is a digit or a point, and removed otherwise. */
  lemma KeepNumericChar(c: char)
    ensures KeepNumeric([c]) == if IsNumericChar(c) then [c] else []
  {
    assert [c][1..] == [];
  }

  /** The substitution works character by character: it distributes over concatenation ... */
  lemma {:induction false} KeepNumericAppend(a: string, b: string)
    ensures KeepNumeric(a + b) == KeepNumeric(a) + KeepNumeric(b)
  {
    if a == [] {
      assert a + b == b;
    } else {
      var h := if IsNumericChar(a[0]) then [a[0]] else [];
      assert (a + b)[0] == a[0] && (a + b)[1..] == a[1..] + b;
      KeepNumericAppend(a[1..], b);
      assert KeepNumeric(a + b) == h + (KeepNumeric(a[1..]) + KeepNumeric(b));
      assert KeepNumeric(a) == h + KeepNumeric(a[1..]);
    }
  }

  /** ... keeps every digit and every point ... */
  lemma {:induction false} KeepNumericCounts(s: string)
    ensures DigitCount(KeepNumeric(s)) == DigitCount(s) && DotCount(KeepNumeric(s)) == DotCount(s)
  {
    if s != [] {
      var h := if IsNumericChar(s[0]) then [s[0]] else [];
      KeepNumericCounts(s[1..]);
      CountsAppend(h, KeepNumeric(s[1..]));
      if h != [] {
        assert h[1..] == [];
      }
    }
  }

  /** ... and leaves a text of digits and dots as it is, so applying it twice changes nothing. */
  lemma {:induction false} KeepNumericOfNumeric(s: string)
    requires AllNumeric(s)
    ensures KeepNumeric(s) == s
  {
    if s != [] {
      KeepNumericOfNumeric(s[1..]);
    }
  }

  function DotCount(s: string): nat {
    if s == [] then 0 else (if s[0] == '.' then 1 else 0) + DotCount(s[1..])
  }

  function DigitCount(s: string): nat {
    if s == [] then 0 else (if IsDigit(s[0]) then 1 else 0) + DigitCount(s[1..])
  }

  /** Length of the run of digits at the start of s. */
  function DigitPrefix(s: string): (n: nat)
    ensures n <= |s| && AllDigits(s[..n])
    ensures n < |s| ==> !IsDigit(s[n])
  {
    if s != [] && IsDigit(s[0]) then 1 + DigitPrefix(s[1..]) else 0
  }

  /**
   * `float(t)` for a text of digits and dots: digits, optionally a point and more digits, with at
   * least one digit in all (`1.`, `.5` and `12` are numbers, `.` and `1.2.3` are not).
   */
  function ParseDecimal(t: string): (r: Option<Decimal>)
    requires AllNumeric(t)
    ensures AllDigits(t) && t != [] ==> r == Some(Decimal(DigitsValue(t), 0))
    ensures r.Some? ==> r.value.scale < |t| && AllDigits(t[|t| - r.value.scale..])
    ensures r.Some? && r.value.scale > 0 ==> t[|t| - 1 - r.value.scale] == '.'
  {
    var i := DigitPrefix(t);
    var rest := t[i..];
    if rest == [] then
      (if i == 0 then None else Some(Decimal(DigitsValue(t), 0)))
    else if rest[0] == '.' && AllDigits(rest[1..]) && (i > 0 || |rest| > 1) then
      AllDigitsConcat(t[..i], rest[1..]);
      Some(Decimal(DigitsValue(t[..i] + rest[1..]), |rest| - 1))
    else None
  }

  /**
   * `format_number`: keep digits and dots, then parse; no number at all is `None`, never an error.
   * There is a number exactly when the text holds a digit and at most one point.
   */
  function FormatNumber(value: string): (r: Option<Decimal>)
    ensures r.Some? <==> DigitCount(value) >= 1 && DotCount(value) <= 1
  {
    var kept := KeepNumeric(value);
    KeepNumericCounts(value);
    ParseDecimalSomeIff(kept);
    ParseDecimal(kept)
  }

  lemma {:induction false} CountsAppend(a: string, b: string)
    ensures DotCount(a + b) == DotCount(a) + DotCount(b)
    ensures DigitCount(a + b) == DigitCount(a) + DigitCount(b)
  {
    if a == [] {
      assert a + b == b;
    } else {
      assert (a + b)[1..] == a[1..] + b;
      CountsAppend(a[1..], b);
    }
  }

  lemma {:induction false} CountsOfDigits(s: string)
    requires AllDigits(s)
    ensures DotCount(s) == 0 && DigitCount(s) == |s|
  {
    if s != [] {
      CountsOfDigits(s[1..]);
    }
  }

  /** In a text of digits and dots, anything that is not all digits holds a dot. */
  lemma {:induction false} NotAllDigitsHasDot(s: string)
    requires AllNumeric(s) && !AllDigits(s)
    ensures DotCount(s) >= 1
  {
    if s[0] != '.' {
      NotAllDigitsHasDot(s[1..]);
    }
  }

  /** `float()` accepts a text of digits and dots exactly when it has a digit and at most one dot. */
  lemma ParseDecimalSomeIff(t: string)
    requires AllNumeric(t)
    ensures ParseDecimal(t).Some? <==> DigitCount(t) >= 1 && DotCount(t) <= 1
  {
    var i := DigitPrefix(t);
    var rest := t[i..];
    assert t == t[..i] + rest;
    CountsAppend(t[..i], rest);
    CountsOfDigits(t[..i]);
    if rest != [] {
      assert rest[0] == t[i] && rest[0] == '.';
      PointedCounts(rest);
    }
  }

  /** After a leading point: one point in all iff only digits follow, and then every other character is a digit. */
  lemma PointedCounts(rest: string)
    requires AllNumeric(rest) && rest != [] && rest[0] == '.'
    ensures DotCount(rest) >= 1
    ensures DotCount(rest) == 1 <==> AllDigits(rest[1..])
    ensures AllDigits(rest[1..]) ==> DigitCount(rest) == |rest| - 1
  {
    var tail := rest[1..];
    assert DotCount(rest) == 1 + DotCount(tail);
    assert DigitCount(rest) == DigitCount(tail);
    if AllDigits(tail) {
      CountsOfDigits(tail);
    } else {
      NotAllDigitsHasDot(tail);
    }
  }

  lemma NumericConcat(a: string, b: string)
    requires AllNumeric(a) && AllNumeric(b)
    ensures AllNumeric(a + b)
  {
  }

  lemma ParsePointedDigits(ip: string, fp: string)
    requires AllDigits(ip) && AllDigits(fp) && |ip| + |fp| >= 1
    ensures AllNumeric(ip + "." + fp)
    ensures ParseDecimal(ip + "." + fp) == Some(Decimal(DigitsValue(ip + fp), |fp|))
  {
    var dotted := ['.'] + fp;
    var t := ip + dotted;
    assert ip + "." + fp == t;
    NumericConcat(ip, dotted);
    DigitPrefixOf(ip, dotted);
    var i := DigitPrefix(t);
    var rest := t[i..];
    assert rest == dotted;
    assert t[..i] == ip;
    assert rest[1..] == fp;
  }

  /** The number a text `I.F` denotes: the digits of I and F read as one integer, scaled by |F| ... */
  lemma {:induction false} ParseDecimalPointed(ip: string, fp: string)
    requires AllDigits(ip) && AllDigits(fp) && |ip| + |fp| >= 1
    ensures AllNumeric(ip + "." + fp)
    ensures ParseDecimal(ip + "." + fp) == Some(Decimal(DigitsValue(ip) * Pow10(|fp|) + DigitsValue(fp), |fp|))
  {
    ParsePointedDigits(ip, fp);
    DigitsValueAppend(ip, fp);
  }

  /** ... which is the integer part plus the fraction digits over 10^|F|. */
  lemma {:induction false} DecimalValueSplit(a: nat, b: nat, k: nat)
    ensures DecimalValue(Decimal(a * Pow10(k) + b, k)) == a as real + b as real / Pow10(k) as real
  {
    var p := Pow10(k);
    var x, y, q := a as real, b as real, p as real;
    assert (a * p + b) as real == x * q + y;
    assert (x * q + y) / q == x * q / q + y / q;
  }

  lemma {:induction false} DigitPrefixOf(ds: string, rest: string)
    requires AllDigits(ds) && (rest == [] || !IsDigit(rest[0]))
    ensures DigitPrefix(ds + rest) == |ds|
  {
    if ds == [] {
      assert ds + rest == rest;
    } else {
      assert (ds + rest)[1..] == ds[1..] + rest;
      DigitPrefixOf(ds[1..], rest);
    }
  }

  // ---------------------------------------------------------------------------
  // Round trip and examples for NUMBER
  // ---------------------------------------------------------------------------

  /** Plain decimal notation of d: its digits, with a point before the last `scale` of them. */
  function ShowDecimal(d: Decimal): string {
    if d.scale == 0 then ShowNat(d.mantissa)
    else
      var w := if |ShowNat(d.mantissa)| > d.scale then |ShowNat(d.mantissa)| else d.scale + 1;
      var digits := PadNat(d.mantissa, w);
      digits[..w - d.scale] + "." + digits[w - d.scale..]
  }

  lemma {:induction false} ParseAllDigits(s: string)
    requires AllDigits(s) && s != []
    ensures AllNumeric(s) && ParseDecimal(s) == Some(Decimal(DigitsValue(s), 0))
  {
    DigitPrefixOf(s, []);
    assert s + [] == s;
  }

  /** format_number reads back every decimal written in plain notation. */
  lemma {:induction false} FormatNumberRoundTrip(d: Decimal)
    ensures FormatNumber(ShowDecimal(d)) == Some(d)
  {
    if d.scale == 0 {
      ShowNatValue(d.mantissa);
      ParseAllDigits(ShowNat(d.mantissa));
      KeepNumericOfNumeric(ShowDecimal(d));
    } else {
      ParseShowPointed(d);
      KeepNumericOfNumeric(ShowDecimal(d));
    }
  }

  lemma {:induction false} ParseShowPointed(d: Decimal)
    requires d.scale > 0
    ensures AllNumeric(ShowDecimal(d)) && ParseDecimal(ShowDecimal(d)) == Some(d)
  {
    var m := d.mantissa;
    var w := if |ShowNat(m)| > d.scale then |ShowNat(m)| else d.scale + 1;
    var digits := PadNat(m, w);
    var ip, fp := digits[..w - d.scale], digits[w - d.scale..];
    assert ShowDecimal(d) == ip + "." + fp;
    assert ip + fp == digits;
    ShowNatBound(m);
    Pow10Monotone(|ShowNat(m)|, w);
    PadNatValue(m, w);
    ParsePointedDigits(ip, fp);
  }

  /** `$1,234.56` is the number 1234.56: the currency sign and the thousands separator are dropped. */
  lemma ExampleCurrency()
    ensures FormatNumber("$1,234.56") == Some(Decimal(123456, 2))
    ensures DecimalValue(Decimal(123456, 2)) == 1234.56
  {
    CurrencyKept();
    CurrencyParsed();
    CurrencyValue();
  }

  lemma CurrencyValue()
    ensures DecimalValue(Decimal(123456, 2)) == 1234.56
  {
  }

  lemma CurrencyKept()
    ensures KeepNumeric("$1,234.56") == "1234.56"
  {
    CurrencyKeptInParts("$1," + "234.56");
    assert "$1," + "234.56" == "$1,234.56";
  }

  lemma CurrencyKeptInParts(s: string)
    requires s == "$1," + "234.56"
    ensures KeepNumeric(s) == "1234.56"
  {
    SignAndSeparatorDropped();
    DigitsAndPointKept();
    KeepNumericAppend("$1,", "234.56");
  }

  lemma DigitsAndPointKept()
    ensures KeepNumeric("234.56") == "234.56"
  {
    KeepNumericOfNumeric("234.56");
  }

  lemma SignAndSeparatorDropped()
    ensures KeepNumeric("$1,") == "1"
  {
  }

  lemma CurrencyParsed()
    ensures ParseDecimal("1234.56") == Some(Decimal(123456, 2))
  {
    ParsePointedDigits("1234", "56");
    assert "1234" + "." + "56" == "1234.56";
    assert "1234" + "56" == "123456";
    SixDigits();
  }

  lemma SixDigits()
    ensures DigitsValue("123456") == 123456
  {
    assert DigitsValue("1") == 1;
    assert DigitsValue("12") == 12 by { assert "12"[..1] == "1"; }
    assert DigitsValue("123") == 123 by { assert "123"[..2] == "12"; }
    assert DigitsValue("1234") == 1234 by { assert "1234"[..3] == "123"; }
    assert DigitsValue("12345") == 12345 by { assert "12345"[..4] == "1234"; }
    assert "123456"[..5] == "12345";
  }

  lemma ExampleMinusSignDropped()
    ensures FormatNumber("-5") == Some(Decimal(5, 0))
  {
    MinusKept();
    FiveParsed();
  }

  lemma MinusKept()
    ensures KeepNumeric("-5") == "5"
  {
  }

  lemma FiveParsed()
    ensures ParseDecimal("5") == Some(Decimal(5, 0))
  {
  }

  /** Texts that hold no number give `None`: no digit at all, two points, a point alone. */
  lemma ExampleNoNumber()
    ensures FormatNumber("") == None
    ensures FormatNumber("abc") == None
    ensures FormatNumber("1.2.3") == None
    ensures FormatNumber(".") == None
  {
    LettersOnly();
    PointOnly();
    TwoPointsKept();
    TwoPointsParsed();
  }

  lemma LettersOnly()
    ensures FormatNumber("abc") == None
  {
  }

  lemma PointOnly()
    ensures FormatNumber(".") == None
  {
  }

  lemma TwoPointsKept()
    ensures KeepNumeric("1.2.3") == "1.2.3"
  {
    KeepNumericOfNumeric("1.2.3");
  }

  lemma TwoPointsParsed()
    ensures ParseDecimal("1.2.3") == None
  {
    assert DigitPrefix("1.2.3") == 1;
    assert "1.2.3"[1..] == ".2.3";
    assert ".2.3"[1..] == "2.3";
    assert !IsDigit("2.3"[1]);
  }

  // ---------------------------------------------------------------------------
  // DATE, TIME, text, and the dispatch (filemaker.py:85-93, 105-120)
  // ---------------------------------------------------------------------------

  /** `format_date`: the empty text is `None`; otherwise `strptime` decides, and its failure raises. */
  function FormatDate(value: string, datefmt: string, strptime: DateParser): (r: Result<Value, CoercionError>)
    ensures value == "" ==> r == Ok(Null)
    ensures value != "" ==> (r.Ok? <==> strptime(value, datefmt).Some?)
    ensures value != "" && r.Ok? ==> r.value == DateValue(strptime(value, datefmt).value)
  {
    if value == "" then Ok(Null)
    else match strptime(value, datefmt)
      case Some(d) => Ok(DateValue(d))
      case None => Err(DateMismatch(value, datefmt))
  }

  /**
   * `format_time`: `flexitime(value) or datetime.time()`. No match gives midnight (so does a match
   * that is midnight, which Python 2 treats as false); an out-of-range match raises.
   */
  function FormatTime(value: string): (r: Result<Value, CoercionError>)
    ensures r.Err? <==> Flexitime(value).Err?
    ensures r.Ok? ==> r.value.TimeValue? && ValidTime(r.value.time)
    ensures Flexitime(value).Ok? && Flexitime(value).value.Some? ==> r == Ok(TimeValue(Flexitime(value).value.value))
  {
    match Flexitime(value)
    case Ok(Some(t)) => Ok(TimeValue(t))
    case Ok(None) => Ok(TimeValue(Midnight))
    case Err(OutOfRange(mi, se)) => Err(TimeOutOfRange(mi, se))
  }

  /** `format_text`: the text with whitespace stripped at both ends. */
  function FormatText(value: string): (r: Value)
    ensures r.Text? && IsStripOf(r.text, value)
  {
    StripIsStrip(value);
    Text(Strip(value))
  }

  /** `format_value`: dispatch on the declared kind; any kind not named is treated as text. */
  function FormatValue(kind: string, value: string, datefmt: string, strptime: DateParser): (r: Result<Value, CoercionError>)
    ensures kind == "NUMBER" ==> r.Ok? && (r.value.Number? || r.value.Null?)
    ensures kind == "DATE" ==> r.Err? || r.value.DateValue? || r.value.Null?
    ensures kind == "TIME" ==> r.Err? || (r.value.TimeValue? && ValidTime(r.value.time))
    ensures kind != "NUMBER" && kind != "DATE" && kind != "TIME" ==> r.Ok? && r.value.Text?
    ensures r.Err? ==> kind == "DATE" || kind == "TIME"
  {
    if kind == "NUMBER" then
      (match FormatNumber(value) case Some(d) => Ok(Number(d)) case None => Ok(Null))
    else if kind == "DATE" then FormatDate(value, datefmt, strptime)
    else if kind == "TIME" then FormatTime(value)
    else Ok(FormatText(value))
  }

  /** NUMBER never raises, and yields a number exactly when the text holds a digit and at most one point. */
  lemma FormatValueNumber(value: string, datefmt: string, strptime: DateParser)
    ensures FormatValue("NUMBER", value, datefmt, strptime).Ok?
    ensures FormatValue("NUMBER", value, datefmt, strptime).value != Null <==>
            DigitCount(value) >= 1 && DotCount(value) <= 1
  {
  }

  /** TIME never yields `None`: a text without `digit [.:] digit` anywhere is midnight. */
  lemma FormatValueTime(value: string, datefmt: string, strptime: DateParser)
    ensures var r := FormatValue("TIME", value, datefmt, strptime); r.Err? || r.value.TimeValue?
    ensures !HasTimeShape(value) ==> FormatValue("TIME", value, datefmt, strptime) == Ok(TimeValue(Midnight))
    ensures FormatValue("TIME", "", datefmt, strptime) == Ok(TimeValue(Midnight))
  {
    FlexitimeNoneIff(value);
    FlexitimeNoneIff("");
  }

  /** TIME raises exactly where the matched minutes or seconds are 60 or more. */
  lemma FormatValueTimeError(value: string, datefmt: string, strptime: DateParser)
    ensures FormatValue("TIME", value, datefmt, strptime).Err? <==>
            Search(value, 0).Some? &&
            (DigitsValue(Search(value, 0).value.minutes) >= 60 ||
             (Search(value, 0).value.seconds.Some? && DigitsValue(Search(value, 0).value.seconds.value) >= 60))
  {
  }

  /** Any kind other than NUMBER, DATE and TIME is text, stripped at both ends, and never raises. */
  lemma FormatValueText(kind: string, value: string, datefmt: string, strptime: DateParser)
    requires kind != "NUMBER" && kind != "DATE" && kind != "TIME"
    ensures FormatValue(kind, value, datefmt, strptime) == Ok(Text(Strip(value)))
    ensures IsStripOf(Strip(value), value)
    ensures FormatText(Strip(value)) == FormatText(value)
  {
    StripIsStrip(value);
    StripIdempotent(value);
  }

  // ---------------------------------------------------------------------------
  // Python's int() for the MAXREPEAT attribute (filemaker.py:49)
  // ---------------------------------------------------------------------------

  /**
   * `int(s)`: optional surrounding whitespace, an optional sign, whitespace after the sign, then one
   * or more digits. A blank text raises, and a negative result needs a leading minus sign.
   */
  function ParseInt(s: string): (r: Option<int>)
    ensures AllWhitespace(s) ==> r.None?
    ensures r.Some? ==> Strip(s) != [] && IsDigit(Strip(s)[|Strip(s)| - 1])
    ensures r.Some? && r.value < 0 ==> Strip(s)[0] == '-'
  {
    assert AllWhitespace(s) ==> SkipSpace(s, 0) == |s|;
    ParseSigned(Strip(s))
  }

  /**
   * `int()` on a text without surrounding whitespace. CPython's `PyOS_strtol` takes the sign, and the
   * digit scanner after it skips whitespace again, so `- 3` is -3.
   */
  function ParseSigned(t: string): (r: Option<int>)
    ensures r.Some? ==> t != [] && IsDigit(t[|t| - 1]) && (IsDigit(t[0]) || t[0] == '-' || t[0] == '+')
    ensures r.Some? && r.value < 0 ==> t[0] == '-'
  {
    var negative := t != [] && t[0] == '-';
    var digits := if t != [] && (t[0] == '-' || t[0] == '+') then t[SkipSpace(t, 1)..] else t;
    if digits == [] || !AllDigits(digits) then None
    else Some(if negative then -(DigitsValue(digits) as int) else DigitsValue(digits))
  }

  function ShowInt(n: int): string {
    if n < 0 then "-" + ShowNat(-n) else ShowNat(n)
  }

  lemma {:induction false} ParseIntSigned(sign: string, digits: string)
    requires sign == "" || sign == "-"
    requires AllDigits(digits) && digits != []
    ensures ParseInt(sign + digits) == Some(if sign == "-" then -(DigitsValue(digits) as int) else DigitsValue(digits))
  {
    if sign == "-" {
      ParseIntNegative(digits);
    } else {
      assert sign + digits == digits;
      ParseIntDigits(digits);
    }
  }

  lemma ParseIntDigits(digits: string)
    requires AllDigits(digits) && digits != []
    ensures ParseInt(digits) == Some(DigitsValue(digits) as int)
  {
    StripOfTrimmed(digits);
    assert digits[0] != '-' && digits[0] != '+';
  }

  lemma ParseIntNegative(digits: string)
    requires AllDigits(digits) && digits != []
    ensures ParseInt("-" + digits) == Some(-(DigitsValue(digits) as int))
  {
    var s := "-" + digits;
    assert s[0] == '-' && s[1..] == digits;
    ParseIntSpaceAfterSign(s, 1);
  }

  /** A sign, whitespace up to position n, then digits: the whitespace after the sign is skipped. */
  lemma ParseIntSpaceAfterSign(t: string, n: nat)
    requires 1 <= n < |t| && (t[0] == '-' || t[0] == '+')
    requires forall k :: 1 <= k < n ==> IsWhitespace(t[k])
    requires AllDigits(t[n..])
    ensures ParseInt(t) == Some(if t[0] == '-' then -(DigitsValue(t[n..]) as int) else DigitsValue(t[n..]))
  {
    assert IsDigit(t[n..][0]) && IsDigit(t[n..][|t| - n - 1]);
    SkipSpaceTo(t, 1, n);
    StripOfTrimmed(t);
    ParseIntOfTrimmed(t);
  }

  lemma ParseIntOfTrimmed(s: string)
    requires Strip(s) == s
    ensures ParseInt(s) == ParseSigned(s)
  {
  }

  /** int() reads back every integer in its decimal rendering. */
  lemma {:induction false} ParseIntRoundTrip(n: int)
    ensures ParseInt(ShowInt(n)) == Some(n)
  {
    var k: nat := if n < 0 then -n else n;
    ShowNatValue(k);
    if n < 0 {
      ParseIntSigned("-", ShowNat(k));
    } else {
      assert "" + ShowNat(k) == ShowNat(k);
      ParseIntSigned("", ShowNat(k));
    }
  }

  lemma ExampleParseInt()
    ensures ParseInt(" 3 ") == Some(3)
    ensures ParseInt("- 3") == Some(-3)
    ensures ParseInt("") == None
    ensures ParseInt("x") == None
  {
    PaddedThreeParsed();
    MinusSpaceThree();
    LetterRaises();
  }

  lemma PaddedThreeParsed()
    ensures ParseInt(" 3 ") == Some(3)
  {
    PaddedThree();
    assert ParseSigned("3") == Some(3);
  }

  lemma LetterRaises()
    ensures ParseInt("x") == None
  {
    StripOfTrimmed("x");
  }

  lemma MinusSpaceThree()
    ensures ParseInt("- 3") == Some(-3)
  {
    ParseIntSpaceAfterSign("- 3", 2);
    assert "- 3"[2..] == "3";
  }

  lemma PaddedThree()
    ensures Strip(" 3 ") == "3"
  {
    var s := " 3 ";
    assert SurroundedBy(s, 1, 2) && Tight(s, 1, 2) && s[1..2] == "3";
    StripOfSlice(s, 1, 2);
  }
}

/** Printing amounts with grouped thousands, and normalising the decimal texts other systems send. */
module Currency {
  import opened Wrappers
  import Collections
  import opened DecimalText

  // ----- grouping

  /** Digits in groups of three from the right. */
  function Grouped(digits: string): string {
    if |digits| <= 3 then digits else Grouped(digits[..|digits| - 3]) + "," + digits[|digits| - 3..]
  }

  method Group(digits: string) returns (integer: string)
    ensures integer == Grouped(digits)
  {
    integer := digits;
    var index := |digits| - 3;
    ghost var tail := "";
    assert digits[..|digits|] == digits;
    while index > 0
      invariant -3 <= index <= |digits| - 3
      invariant integer == digits[..index + 3] + tail && Grouped(digits) == Grouped(digits[..index + 3]) + tail
      decreases index
    {
      var open := digits[..index + 3];
      assert open[..|open| - 3] == digits[..index] && open[|open| - 3..] == digits[index..index + 3];
      assert integer[..index] == digits[..index] && integer[index..] == digits[index..index + 3] + tail;
      integer := integer[..index] + "," + integer[index..];
      GroupStep(digits[..index], digits[index..index + 3], tail);
      tail := "," + digits[index..index + 3] + tail;
      index := index - 3;
    }
  }

  lemma {:induction false} GroupStep(left: string, three: string, tail: string)
    ensures left + "," + (three + tail) == left + ("," + three + tail)
    ensures Grouped(left) + "," + three + tail == Grouped(left) + ("," + three + tail)
  {
  }

  /** `formatCurrency` of an amount whose two-place text is the numeral of these digits. */
  method FormatCurrency(negative: bool, digits: nat) returns (text: string)
    ensures text == "Rp " + CurrencyText(negative, digits)
  {
    var raw := Numeral(negative, digits, 2);
    NumeralCut(negative, digits, 2);
    var dot := IndexOf(raw, '.');
    var integer, fraction := raw[..dot], raw[dot + 1..];
    SignOff(negative, Whole(digits, 2));
    var sign := "";
    if "-" <= integer {
      sign, integer := "-", integer[1..];
    }
    integer := Group(integer);
    UnitAhead(sign, integer, fraction);
    text := "Rp " + sign + integer + "." + fraction;
  }

  lemma SignOff(negative: bool, whole: string)
    requires whole != [] && AllDigits(whole)
    ensures "-" <= Sign(negative) + whole <==> negative
    ensures if negative then (Sign(negative) + whole)[1..] == whole else Sign(negative) + whole == whole
  {
    var text := Sign(negative) + whole;
    assert IsDigit(whole[0]);
    assert text[0] == if negative then '-' else whole[0];
    if "-" <= text { assert text[0] == "-"[0]; }
  }

  lemma UnitAhead(sign: string, integer: string, fraction: string)
    ensures "Rp " + sign + integer + "." + fraction == "Rp " + (sign + integer + "." + fraction)
  {
  }

  function Sign(negative: bool): string {
    if negative then "-" else ""
  }

  function Whole(digits: nat, scale: nat): (s: string)
    ensures s != [] && AllDigits(s)
  {
    var padded := Padded(digits, scale);
    padded[..|padded| - scale]
  }

  function Fraction(digits: nat, scale: nat): (s: string)
    ensures |s| == scale && AllDigits(s)
  {
    var padded := Padded(digits, scale);
    padded[|padded| - scale..]
  }

  function CurrencyText(negative: bool, digits: nat): string {
    Sign(negative) + Grouped(Whole(digits, 2)) + "." + Fraction(digits, 2)
  }

  lemma NumeralParts(negative: bool, digits: nat, scale: nat)
    requires scale > 0
    ensures Numeral(negative, digits, scale) == Sign(negative) + Whole(digits, scale) + "." + Fraction(digits, scale)
  {
    UnsignedParts(digits, scale);
    SignedParts(negative, Whole(digits, scale), Fraction(digits, scale));
  }

  lemma UnsignedParts(digits: nat, scale: nat)
    requires scale > 0
    ensures Unsigned(digits, scale) == Whole(digits, scale) + "." + Fraction(digits, scale)
  {
  }

  lemma SignedParts(negative: bool, whole: string, fraction: string)
    ensures Sign(negative) + whole + "." + fraction == if negative then
            "-" + (whole + "." + fraction) else whole + "." + fraction
  {
    if !negative { assert "" + whole == whole; }
  }

  lemma NumeralCut(negative: bool, digits: nat, scale: nat)
    requires scale > 0
    ensures var raw := Numeral(negative, digits, scale);
      var dot := IndexOf(raw, '.');
      && dot < |raw| && raw[..dot] == Sign(negative) + Whole(digits, scale) && raw[dot + 1..] == Fraction(digits, scale)
  {
    NumeralParts(negative, digits, scale);
    var whole := Sign(negative) + Whole(digits, scale);
    CutAt(whole, '.', Fraction(digits, scale));
  }

  lemma {:induction false} CutAt(before: string, c: char, after: string)
    requires c !in before
    ensures IndexOf(before + [c] + after, c) == |before|
    ensures (before + [c] + after)[..|before|] == before && (before + [c] + after)[|before| + 1..] == after
  {
    var s := before + [c] + after;
    assert s[|before|] == c;
    assert forall j :: 0 <= j < |before| ==> s[j] == before[j];
  }

  // ----- the string operations the normalisation uses

  /** `strings.ReplaceAll` of one character. */
  function Replaced(s: string, c: char, put: string): string {
    if s == [] then [] else (if s[0] == c then put else [s[0]]) + Replaced(s[1..], c, put)
  }

  function Count(s: string, c: char): nat {
    if s == [] then 0 else (if s[0] == c then 1 else 0) + Count(s[1..], c)
  }

  function LastIndex(s: string, c: char): (i: int)
    ensures -1 <= i < |s| && (i >= 0 ==> s[i] == c) && (forall j :: i < j < |s| ==> s[j] != c)
  {
    if s == [] then -1
    else if s[|s| - 1] == c then |s| - 1
    else LastIndex(s[..|s| - 1], c)
  }

  function Split(s: string, c: char): (parts: seq<string>)
    ensures |parts| >= 1
    decreases |s|
  {
    var i := IndexOf(s, c);
    if i == |s| then [s] else [s[..i]] + Split(s[i + 1..], c)
  }

  function Concat(parts: seq<string>): string {
    if parts == [] then [] else parts[0] + Concat(parts[1..])
  }

  lemma {:induction false} ReplacedAppend(a: string, b: string, c: char, put: string)
    ensures Replaced(a + b, c, put) == Replaced(a, c, put) + Replaced(b, c, put)
  {
    if a == [] {
      assert a + b == b;
    } else {
      assert (a + b)[1..] == a[1..] + b;
      ReplacedAppend(a[1..], b, c, put);
    }
  }

  lemma {:induction false} ReplacedNone(s: string, c: char, put: string)
    requires c !in s
    ensures Replaced(s, c, put) == s && Count(s, c) == 0
  {
    if s != [] { ReplacedNone(s[1..], c, put); }
  }

  lemma {:induction false} CountAppend(a: string, b: string, c: char)
    ensures Count(a + b, c) == Count(a, c) + Count(b, c)
  {
    if a == [] {
      assert a + b == b;
    } else {
      assert (a + b)[1..] == a[1..] + b;
      CountAppend(a[1..], b, c);
    }
  }

  // ----- NormalizeDecimal

  predicate Allowed(c: char) {
    IsDigit(c) || c == ',' || c == '.' || c == '-' || c == ' '
  }

  function Trimmed(raw: string): string {
    TrimSpace(Replaced(raw, '%', ""))
  }

  /** A first group of one to three digits and then groups of exactly three. */
  predicate LooksGrouped(parts: seq<string>)
    requires parts != []
  {
    var first := if "-" <= parts[0] then parts[0][1..] else parts[0];
    1 <= |first| <= 3 && forall i :: 1 <= i < |parts| ==> |parts[i]| == 3
  }

  /** Which of comma and dot separates the decimals. */
  function Separated(value: string): string {
    var comma, dot, parts := LastIndex(value, ','), LastIndex(value, '.'), Split(value, '.');
    if comma >= 0 && dot < 0 then Replaced(value, ',', ".")
    else if comma >= 0 && dot >= 0 && comma > dot then Replaced(Replaced(value, '.', ""), ',', ".")
    else if comma >= 0 && dot >= 0 then Replaced(value, ',', "")
    else if Count(value, '.') > 1 then
      if LooksGrouped(parts) then Replaced(value, '.', "")
      else Concat(parts[..|parts| - 1]) + "." + parts[|parts| - 1]
    else if dot >= 0 then
      if |parts| == 2 && |parts[0]| <= 3 && |parts[1]| == 3 then parts[0] + parts[1] else value
    else value
  }

  function Normalized(raw: string): Option<string> {
    var value := Trimmed(raw);
    if value == "" || value == "-" then None
    else if exists i :: 0 <= i < |value| && !Allowed(value[i]) then None
    else
      var packed := Replaced(value, ' ', "");
      if Count(packed, '-') > 1 || ('-' in packed && !("-" <= packed)) then None
      else Some(Separated(packed))
  }

  method AllAllowed(value: string) returns (ok: bool)
    ensures ok <==> forall i :: 0 <= i < |value| ==> Allowed(value[i])
  {
    for i := 0 to |value|
      invariant forall j :: 0 <= j < i ==> Allowed(value[j])
    {
      if !Allowed(value[i]) {
        return false;
      }
    }
    return true;
  }

  method Regrouped(parts: seq<string>) returns (grouped: bool)
    requires parts != []
    ensures grouped <==> LooksGrouped(parts)
  {
    var first := if "-" <= parts[0] then parts[0][1..] else parts[0];
    grouped := |first| >= 1 && |first| <= 3;
    for i := 1 to |parts|
      invariant grouped <==> 1 <= |first| <= 3 && forall j :: 1 <= j < i ==> |parts[j]| == 3
    {
      if |parts[i]| != 3 {
        grouped := false;
      }
    }
  }

  method Separate(value: string) returns (r: string)
    ensures r == Separated(value)
  {
    var comma, dot := LastIndex(value, ','), LastIndex(value, '.');
    if comma >= 0 && dot < 0 {
      return Replaced(value, ',', ".");
    } else if comma >= 0 && dot >= 0 && comma > dot {
      return Replaced(Replaced(value, '.', ""), ',', ".");
    } else if comma >= 0 && dot >= 0 {
      return Replaced(value, ',', "");
    } else if Count(value, '.') > 1 {
      var parts := Split(value, '.');
      var grouped := Regrouped(parts);
      return if grouped then Replaced(value, '.', "") else Concat(parts[..|parts| - 1]) + "." + parts[|parts| - 1];
    } else if dot >= 0 {
      var parts := Split(value, '.');
      if |parts| == 2 && |parts[0]| <= 3 && |parts[1]| == 3 {
        return parts[0] + parts[1];
      }
    }
    return value;
  }

  method NormalizeDecimal(raw: string) returns (r: Option<string>)
    ensures r == Normalized(raw)
  {
    var value := Trimmed(raw);
    if value == "" || value == "-" {
      return None;
    }
    var allowed := AllAllowed(value);
    if !allowed {
      return None;
    }
    value := Replaced(value, ' ', "");
    if Count(value, '-') > 1 || ('-' in value && !("-" <= value)) {
      return None;
    }
    value := Separate(value);
    return Some(value);
  }

  // ----- texts the application itself prints

  /** Digits and commas, at least one digit. */
  predicate GroupedDigits(s: string) {
    s != [] && IsDigit(s[|s| - 1]) && forall i :: 0 <= i < |s| ==> IsDigit(s[i]) || s[i] == ','
  }

  lemma {:induction false} GroupedShape(digits: string)
    requires digits != [] && AllDigits(digits)
    ensures GroupedDigits(Grouped(digits)) && IsDigit(Grouped(digits)[0])
    ensures ',' in Grouped(digits) <==> |digits| > 3
  {
    if |digits| > 3 {
      var left := digits[..|digits| - 3];
      GroupedShape(left);
      assert Grouped(digits)[|Grouped(left)|] == ',';
    }
  }

  lemma {:induction false} Ungrouped(digits: string)
    requires AllDigits(digits)
    ensures Replaced(Grouped(digits), ',', "") == digits
  {
    if |digits| <= 3 {
      ReplacedNone(digits, ',', "");
    } else {
      var left, right := digits[..|digits| - 3], digits[|digits| - 3..];
      Ungrouped(left);
      ReplacedAppend(Grouped(left) + ",", right, ',', "");
      ReplacedAppend(Grouped(left), ",", ',', "");
      ReplacedNone(right, ',', "");
      CommaGone(left);
      assert left + right == digits;
    }
  }

  lemma CommaGone(left: string)
    ensures left + Replaced(",", ',', "") == left
  {
    assert ","[1..] == "";
  }

  /** Read from the right, every fourth character is a comma and the others are the digits in their order. */
  ghost predicate InThrees(digits: string, text: string, k: nat)
    requires digits != []
  {
    var n := |digits|;
    && |text| == n + (n - 1) / 3
    && (k < |text| ==> text[|text| - 1 - k] == if k % 4 == 3 then ',' else digits[n - 1 - (k - k / 4)])
  }

  lemma ShortInThrees(digits: string, k: nat)
    requires 0 < |digits| <= 3
    ensures InThrees(digits, digits, k)
  {
  }

  /** So the digits are grouped: at every place counted from the right. */
  lemma {:induction false} GroupedInThrees(digits: string, k: nat)
    requires digits != []
    ensures InThrees(digits, Grouped(digits), k)
  {
    if |digits| <= 3 {
      ShortInThrees(digits, k);
    } else {
      var left, right := digits[..|digits| - 3], digits[|digits| - 3..];
      GroupedInThrees(left, if k < 4 then 0 else k - 4);
      OneMoreGroup(left, Grouped(left), right, k);
      assert digits == left + right;
    }
  }

  /** Three more digits behind a comma move every place four to the left. */
  lemma OneMoreGroup(left: string, grouped: string, right: string, k: nat)
    requires left != [] && |right| == 3 && InThrees(left, grouped, if k < 4 then 0 else k - 4)
    ensures InThrees(left + right, grouped + "," + right, k)
  {
    if k >= 4 {
      FourBack(k);
    }
  }

  lemma FourBack(k: nat)
    requires k >= 4
    ensures (k - 4) % 4 == k % 4 && (k - 4) / 4 == k / 4 - 1
  {
  }

  predicate Plain(text: string) {
    && text != [] && (IsDigit(text[0]) || text[0] == '-') && IsDigit(text[|text| - 1])
    && forall i :: 0 <= i < |text| ==> IsDigit(text[i]) || text[i] == ',' || text[i] == '.' || text[i] == '-'
  }

  lemma {:induction false} PlainIsTrimmed(text: string)
    requires Plain(text)
    ensures Trimmed(text) == text && Replaced(text, ' ', "") == text && forall i :: 0 <= i < |text| ==> Allowed(text[i])
  {
    assert '%' !in text && ' ' !in text;
    ReplacedNone(text, '%', "");
    ReplacedNone(text, ' ', "");
    NothingToTrim(text);
  }

  lemma PlainText(negative: bool, whole: string, fraction: string)
    requires GroupedDigits(whole) && IsDigit(whole[0]) && fraction != [] && AllDigits(fraction)
    ensures Plain(Sign(negative) + whole + "." + fraction)
  {
    var text := Sign(negative) + whole + "." + fraction;
    assert text[|text| - 1] == fraction[|fraction| - 1];
    assert text[0] == if negative then '-' else whole[0];
  }

  lemma {:induction false} PlainPasses(text: string)
    requires Plain(text) && Count(text, '-') <= 1 && ('-' in text ==> "-" <= text)
    ensures Normalized(text) == Some(Separated(text))
  {
    PlainIsTrimmed(text);
  }

  /** A text of sign, grouped digits, a dot and digits passes every check unchanged, up to the separators. */
  lemma CheckedText(negative: bool, whole: string, fraction: string)
    requires GroupedDigits(whole) && IsDigit(whole[0]) && fraction != [] && AllDigits(fraction)
    ensures var text := Sign(negative) + whole + "." + fraction; Normalized(text) == Some(Separated(text))
  {
    var text := Sign(negative) + whole + "." + fraction;
    PlainText(negative, whole, fraction);
    OneSign(negative, whole + "." + fraction);
    UnitLess(Sign(negative), whole, fraction);
    PlainPasses(text);
  }

  lemma UnitLess(sign: string, whole: string, fraction: string)
    ensures sign + (whole + "." + fraction) == sign + whole + "." + fraction
  {
  }

  lemma OneSign(negative: bool, body: string)
    requires body != [] && '-' !in body
    ensures var text := Sign(negative) + body; Count(text, '-') <= 1 && ('-' in text ==> "-" <= text)
  {
    ReplacedNone(body, '-', "");
    if negative {
      assert ("-" + body)[1..] == body;
    } else {
      assert "" + body == body;
    }
  }

  lemma LastDot(before: string, fraction: string)
    requires '.' !in before && AllDigits(fraction)
    ensures var text := before + "." + fraction;
      LastIndex(text, '.') == |before| && LastIndex(text, ',') < |before| &&
          (LastIndex(text, ',') >= 0 <==> ',' in before)
  {
    var text := before + "." + fraction;
    assert text[|before|] == '.';
    assert forall j :: |before| < j < |text| ==> text[j] == fraction[j - |before| - 1];
    if ',' in before {
      var k :| 0 <= k < |before| && before[k] == ',';
      assert text[k] == ',';
    }
  }

  lemma {:induction false} OneDot(before: string, fraction: string)
    requires '.' !in before && AllDigits(fraction)
    ensures Count(before + "." + fraction, '.') == 1
  {
    ReplacedNone(before, '.', "");
    ReplacedNone(fraction, '.', "");
    CountAppend(before + ".", fraction, '.');
    CountAppend(before, ".", '.');
    assert Count(".", '.') == 1 by { assert "."[1..] == ""; }
  }

  lemma {:induction false} TwoParts(before: string, fraction: string)
    requires '.' !in before && AllDigits(fraction)
    ensures Split(before + "." + fraction, '.') == [before, fraction]
  {
    CutAt(before, '.', fraction);
    assert IndexOf(fraction, '.') == |fraction|;
  }

  /** One dot and no comma: only three decimals behind at most three characters are taken for a group. */
  lemma DotSeparated(before: string, fraction: string)
    requires '.' !in before && ',' !in before && AllDigits(fraction)
    ensures Separated(before + "." + fraction) ==
            if |before| <= 3 && |fraction| == 3 then before + fraction else before + "." + fraction
  {
    LastDot(before, fraction);
    OneDot(before, fraction);
    TwoParts(before, fraction);
  }

  /** Normalising a printed currency text without its unit gives back the two-place numeral. */
  lemma CurrencyRoundTrip(negative: bool, digits: nat)
    ensures Normalized(CurrencyText(negative, digits)) == Some(Numeral(negative, digits, 2))
    ensures ParseMoney(Normalized(CurrencyText(negative, digits)).value) == Some(Decimal(Signed(negative, digits), 2))
  {
    GroupedShape(Whole(digits, 2));
    CheckedText(negative, Grouped(Whole(digits, 2)), Fraction(digits, 2));
    NumeralParts(negative, digits, 2);
    NumeralRoundTrip(negative, digits, 2);
    GroupsSeparated(negative, Whole(digits, 2), Fraction(digits, 2));
  }

  /** Commas before the only dot are grouping and go away. */
  lemma {:induction false} CommasSeparated(before: string, fraction: string)
    requires '.' !in before && ',' in before && AllDigits(fraction)
    ensures Separated(before + "." + fraction) == Replaced(before + "." + fraction, ',', "")
  {
    LastDot(before, fraction);
  }

  lemma {:induction false} GroupsSeparated(negative: bool, whole: string, fraction: string)
    requires whole != [] && AllDigits(whole) && AllDigits(fraction) && |fraction| == 2
    ensures Separated(Sign(negative) + Grouped(whole) + "." + fraction) == Sign(negative) + whole + "." + fraction
  {
    var before := Sign(negative) + Grouped(whole);
    NoDotBefore(negative, whole);
    if |whole| > 3 {
      CommasSeparated(before, fraction);
      WithoutCommas(negative, Grouped(whole), fraction);
      Ungrouped(whole);
    } else {
      DotSeparated(before, fraction);
    }
  }

  lemma {:induction false} NoDotBefore(negative: bool, whole: string)
    requires whole != [] && AllDigits(whole)
    ensures '.' !in Sign(negative) + Grouped(whole) && (',' in Sign(negative) + Grouped(whole) <==> |whole| > 3)
  {
    GroupedShape(whole);
  }

  lemma {:induction false} WithoutCommas(negative: bool, whole: string, fraction: string)
    requires AllDigits(fraction)
    ensures Replaced(Sign(negative) + whole + "." + fraction, ',', "") ==
            Sign(negative) + Replaced(whole, ',', "") + "." + fraction
  {
    ReplacedAppend(Sign(negative) + whole + ".", fraction, ',', "");
    ReplacedAppend(Sign(negative) + whole, ".", ',', "");
    ReplacedAppend(Sign(negative), whole, ',', "");
    ReplacedNone(Sign(negative), ',', "");
    ReplacedNone(".", ',', "");
    ReplacedNone(fraction, ',', "");
  }

  predicate Misread(negative: bool, digits: nat, scale: nat) {
    scale == 3 && |Sign(negative) + Whole(digits, scale)| <= 3
  }

  /**
   A plain numeral is kept exactly unless it has three decimals behind at most three characters: then it reads a
   thousandfold.
   */
  lemma NumeralKeptExactly(negative: bool, digits: nat, scale: nat)
    ensures Normalized(Numeral(negative, digits, scale)).Some?
    ensures var r := Normalized(Numeral(negative, digits, scale)).value;
      && (r == Numeral(negative, digits, scale) <==> !Misread(negative, digits, scale))
      && ParseMoney(r) == Some(Decimal(Signed(negative, digits), if Misread(negative, digits, scale) then 0 else scale))
  {
    NumeralRoundTrip(negative, digits, scale);
    NumeralNormalized(negative, digits, scale);
    PaddedReads(negative, digits, scale);
    if scale > 0 {
      NumeralParts(negative, digits, scale);
      assert |Padded(digits, scale)| == |Whole(digits, scale)| + |Fraction(digits, scale)|;
    }
  }

  lemma NumeralNormalized(negative: bool, digits: nat, scale: nat)
    ensures Normalized(Numeral(negative, digits, scale)) ==
            Some(if Misread(negative, digits, scale) then
                Sign(negative) + Padded(digits, scale) else Numeral(negative, digits, scale))
  {
    if scale == 0 {
      IntegerKept(negative, Padded(digits, 0));
      assert Numeral(negative, digits, 0) == Sign(negative) + Padded(digits, 0) by {
        if !negative { assert "" + Padded(digits, 0) == Padded(digits, 0); }
      }
    } else {
      NumeralParts(negative, digits, scale);
      PlainSeparated(negative, Whole(digits, scale), Fraction(digits, scale));
      JoinedParts(negative, digits, scale);
    }
  }

  lemma IntegerKept(negative: bool, whole: string)
    requires whole != [] && AllDigits(whole)
    ensures Normalized(Sign(negative) + whole) == Some(Sign(negative) + whole)
  {
    var text := Sign(negative) + whole;
    assert text[|text| - 1] == whole[|whole| - 1] && text[0] == if negative then '-' else whole[0];
    OneSign(negative, whole);
    PlainPasses(text);
    NoMarks(negative, whole);
    NoneLast(text, ',');
    NoneLast(text, '.');
    ReplacedNone(text, '.', "");
  }

  lemma {:induction false} NoneLast(s: string, c: char)
    requires c !in s
    ensures LastIndex(s, c) == -1
  {
  }

  /** "1.234" reads as 1234: its three decimals are taken for a group. */
  lemma {:induction false} NumeralMisread(text: string, whole: string, fraction: string)
    requires text == "1.234" && whole == "1" && fraction == "234"
    ensures Normalized(text) == Some(whole + fraction) && whole + fraction == "1234"
    ensures ParseMoney(text) == Some(Decimal(Value(whole + fraction), 3))
    ensures ParseMoney(whole + fraction) == Some(Decimal(Value(whole + fraction), 0))
  {
    assert text == whole + "." + fraction && whole + fraction == "1234" && Sign(false) + whole == whole;
    PlainSeparated(false, whole, fraction);
    PointRead(whole, fraction);
    WholeRead(whole + fraction);
  }

  lemma {:induction false} PointRead(whole: string, fraction: string)
    requires whole != [] && AllDigits(whole) && fraction != [] && AllDigits(fraction)
    ensures ParseMoney(whole + "." + fraction) == Some(Decimal(Value(whole + fraction), |fraction|))
  {
    var text := whole + "." + fraction;
    assert text[0] == whole[0] && text[|text| - 1] == fraction[|fraction| - 1];
    NothingToTrim(text);
    ParseFraction(whole, fraction);
    SignAhead(text, Decimal(Value(whole + fraction), |fraction|));
  }

  lemma {:induction false} WholeRead(whole: string)
    requires whole != [] && AllDigits(whole)
    ensures ParseMoney(whole) == Some(Decimal(Value(whole), 0))
  {
    NothingToTrim(whole);
    ParseWhole(whole);
    SignAhead(whole, Decimal(Value(whole), 0));
  }

  lemma PlainSeparated(negative: bool, whole: string, fraction: string)
    requires whole != [] && AllDigits(whole) && fraction != [] && AllDigits(fraction)
    ensures Normalized(Sign(negative) + whole + "." + fraction) ==
            Some(if |Sign(negative) + whole| <= 3 && |fraction| == 3 then Sign(negative) + whole + fraction
                 else Sign(negative) + whole + "." + fraction)
  {
    NoMarks(negative, whole);
    CheckedText(negative, whole, fraction);
    DotSeparated(Sign(negative) + whole, fraction);
  }

  lemma NoMarks(negative: bool, whole: string)
    requires whole != [] && AllDigits(whole)
    ensures '.' !in Sign(negative) + whole && ',' !in Sign(negative) + whole
    ensures GroupedDigits(whole) && IsDigit(whole[0])
  {
  }

  lemma JoinedParts(negative: bool, digits: nat, scale: nat)
    ensures Sign(negative) + Whole(digits, scale) + Fraction(digits, scale) == Sign(negative) + Padded(digits, scale)
  {
    assert Whole(digits, scale) + Fraction(digits, scale) == Padded(digits, scale);
    Collections.Assoc(Sign(negative), Whole(digits, scale), Fraction(digits, scale));
  }

  lemma PaddedReads(negative: bool, digits: nat, scale: nat)
    ensures ParseMoney(Sign(negative) + Padded(digits, scale)) == Some(Decimal(Signed(negative, digits), 0))
  {
    var padded := Padded(digits, scale);
    PaddedValue(digits, scale);
    ParseWhole(padded);
    SignAhead(padded, Decimal(digits, 0));
    NothingToTrim(Sign(negative) + padded);
    if !negative { assert "" + padded == padded; }
  }
}

/** Decimal numerals: printing natural numbers, reading them back, and the text `ParseMoney` accepts. */
module DecimalText {
  import opened Wrappers

  predicate IsDigit(c: char) {
    '0' <= c <= '9'
  }

  function DigitChar(n: nat): char
    requires n < 10
  {
    (48 + n) as char
  }

  predicate AllDigits(s: string) {
    forall i :: 0 <= i < |s| ==> IsDigit(s[i])
  }

  /** `big.Int.String` on a non-negative number. */
  function Digits(n: nat): (s: string)
    ensures |s| >= 1 && AllDigits(s)
  {
    if n < 10 then [DigitChar(n)] else Digits(n / 10) + [DigitChar(n % 10)]
  }

  /** The number a digit string denotes. */
  function Value(s: string): nat
    requires AllDigits(s)
  {
    if s == [] then 0 else Value(s[..|s| - 1]) * 10 + (s[|s| - 1] as int - 48)
  }

  function Pow(b: nat, k: nat): nat {
    if k == 0 then 1 else b * Pow(b, k - 1)
  }

  function Zeros(n: nat): (s: string)
    ensures |s| == n && AllDigits(s)
  {
    seq(n, i => '0')
  }

  lemma {:induction false} DigitsValue(n: nat)
    ensures Value(Digits(n)) == n
  {
    if n >= 10 {
      DigitsValue(n / 10);
      assert Digits(n)[..|Digits(n)| - 1] == Digits(n / 10);
    }
  }

  lemma {:induction false} DigitsLast(n: nat)
    ensures Digits(n)[|Digits(n)| - 1] == '0' <==> n % 10 == 0
  {
  }

  lemma {:induction false} ZerosAhead(n: nat, s: string)
    requires AllDigits(s)
    ensures Value(Zeros(n) + s) == Value(s)
    decreases |s|, n
  {
    var t := Zeros(n) + s;
    if s == [] {
      if n > 0 {
        assert t[..|t| - 1] == Zeros(n - 1) + [];
        ZerosAhead(n - 1, []);
      }
    } else {
      assert t[..|t| - 1] == Zeros(n) + s[..|s| - 1];
      ZerosAhead(n, s[..|s| - 1]);
    }
  }

  /** No digit string for `n` is shorter than the printed one. */
  lemma {:induction false} DigitsShortest(s: string, n: nat)
    requires s != [] && AllDigits(s) && Value(s) == n
    ensures |s| >= |Digits(n)|
  {
    if n >= 10 {
      var init := s[..|s| - 1];
      assert Value(s) == Value(init) * 10 + (s[|s| - 1] as int - 48);
      assert Value(init) == n / 10;
      assert init != [];
      DigitsShortest(init, n / 10);
    }
  }

  lemma {:induction false} DigitsScaled(n: nat, k: nat)
    requires n > 0
    ensures n * Pow(10, k) > 0 && |Digits(n * Pow(10, k))| == |Digits(n)| + k
  {
    if k > 0 {
      DigitsScaled(n, k - 1);
      DigitsTimesTen(n * Pow(10, k - 1));
      TimesPow(n, k);
    }
  }

  lemma {:induction false} DigitsTimesTen(x: nat)
    requires x > 0
    ensures |Digits(10 * x)| == |Digits(x)| + 1
  {
    assert 10 * x / 10 == x;
  }

  lemma TimesPow(n: nat, k: nat)
    requires k > 0
    ensures n * Pow(10, k) == 10 * (n * Pow(10, k - 1))
  {
    var t := Pow(10, k - 1);
    assert n * (10 * t) == 10 * (n * t);
  }

  // ----- reading money

  /** mantissa / 10^scale. */
  datatype Decimal = Decimal(mantissa: int, scale: nat)

  /** `unicode.IsSpace`. */
  predicate IsSpace(c: char) {
    '\U{0009}' <= c <= '\U{000D}' || c == ' ' || c == '\U{0085}' || c == '\U{00A0}' || c == '\U{1680}' ||
    '\U{2000}' <= c <= '\U{200A}' || c == '\U{2028}' || c == '\U{2029}' || c == '\U{202F}' || c == '\U{205F}' ||
        c == '\U{3000}'
  }

  function TrimSpace(s: string): (t: string)
    ensures |t| <= |s|
  {
    if s != [] && IsSpace(s[0]) then TrimSpace(s[1..])
    else if s != [] && IsSpace(s[|s| - 1]) then TrimSpace(s[..|s| - 1])
    else s
  }

  function IndexOf(s: string, c: char): (i: nat)
    ensures i <= |s| && (i < |s| ==> s[i] == c) && forall j :: 0 <= j < i ==> s[j] != c
  {
    if s == [] || s[0] == c then 0 else 1 + IndexOf(s[1..], c)
  }

  /** Unsigned digits with an optional fraction: `[0-9]+(?:\.[0-9]+)?`. */
  function ParseUnsigned(body: string): Option<Decimal> {
    var dot := IndexOf(body, '.');
    var whole := body[..dot];
    if whole == [] || !AllDigits(whole) then None
    else if dot == |body| then Some(Decimal(Value(whole), 0))
    else
      var fraction := body[dot + 1..];
      if fraction == [] || !AllDigits(fraction) then None
      else Some(Decimal(Value(whole + fraction), |fraction|))
  }

  function ParseSigned(text: string): Option<Decimal> {
    if text == [] then None
    else if text[0] == '-' then
      match ParseUnsigned(text[1..])
      case None => None
      case Some(d) => Some(Decimal(-d.mantissa, d.scale))
    else if text[0] == '+' then ParseUnsigned(text[1..])
    else ParseUnsigned(text)
  }

  /** `ParseMoney`: trimmed text matching `^[+-]?[0-9]+(?:\.[0-9]+)?$`, read exactly. */
  function ParseMoney(raw: string): Option<Decimal> {
    ParseSigned(TrimSpace(raw))
  }

  /** `text` is a sign or none, digits, and possibly a point with more digits. */
  ghost predicate IsNumeral(text: string, sign: string, whole: string, point: string, fraction: string) {
    && text == sign + whole + point + fraction
    && (sign == "" || sign == "+" || sign == "-") && whole != [] && AllDigits(whole) && AllDigits(fraction)
    && (if fraction == [] then point == "" else point == ".")
  }

  lemma {:induction false} ParsedUnsigned(body: string) returns (whole: string, point: string, fraction: string)
    requires ParseUnsigned(body).Some?
    ensures IsNumeral(body, "", whole, point, fraction)
    ensures ParseUnsigned(body) == Some(Decimal(Value(whole + fraction), |fraction|))
  {
    var dot := IndexOf(body, '.');
    whole := body[..dot];
    if dot == |body| {
      point, fraction := "", "";
      assert whole + fraction == whole && whole == body;
    } else {
      point, fraction := ".", body[dot + 1..];
      assert body == whole + "." + fraction;
    }
    assert "" + whole + point + fraction == whole + point + fraction;
  }

  /** A text is money exactly when, trimmed, it is such a numeral; its value is that of its digits, signed. */
  lemma {:induction false} MoneyIsNumeral(raw: string)
      returns (sign: string, whole: string, point: string, fraction: string)
    requires ParseMoney(raw).Some?
    ensures IsNumeral(TrimSpace(raw), sign, whole, point, fraction)
    ensures ParseMoney(raw) == Some(Decimal(if sign == "-" then
            -(Value(whole + fraction) as int) else Value(whole + fraction),
                                            |fraction|))
  {
    var text := TrimSpace(raw);
    if text[0] == '-' || text[0] == '+' {
      sign := [text[0]];
      whole, point, fraction := SignedNumeral(text);
    } else {
      sign := "";
      whole, point, fraction := ParsedUnsigned(text);
    }
  }

  lemma SignedNumeral(text: string) returns (whole: string, point: string, fraction: string)
    requires text != [] && (text[0] == '-' || text[0] == '+') && ParseSigned(text).Some?
    ensures IsNumeral(text, [text[0]], whole, point, fraction)
    ensures ParseSigned(text) ==
            Some(Decimal(if text[0] == '-' then -(Value(whole + fraction) as int) else Value(whole + fraction),
                         |fraction|))
  {
    whole, point, fraction := ParsedUnsigned(text[1..]);
    assert text == [text[0]] + text[1..];
    Joined([text[0]], whole, point, fraction);
  }

  lemma Joined(sign: string, whole: string, point: string, fraction: string)
    ensures sign + ("" + whole + point + fraction) == sign + whole + point + fraction
  {
  }

  lemma {:induction false} NumeralIsMoney(raw: string, sign: string, whole: string, point: string, fraction: string)
    requires IsNumeral(TrimSpace(raw), sign, whole, point, fraction)
    ensures ParseMoney(raw).Some?
  {
    var body := whole + point + fraction;
    Joined(sign, whole, point, fraction);
    assert "" + whole + point + fraction == body;
    BodyReads(whole, point, fraction);
    SignReadsAway(sign, body);
  }

  lemma BodyReads(whole: string, point: string, fraction: string)
    requires whole != [] && AllDigits(whole) && AllDigits(fraction) &&
             (if fraction == [] then point == "" else point == ".")
    ensures var body := whole + point + fraction; ParseUnsigned(body).Some? && body[0] == whole[0]
  {
    if fraction == [] {
      assert whole + point + fraction == whole;
      ParseWhole(whole);
    } else {
      ParseFraction(whole, fraction);
    }
  }

  lemma SignReadsAway(sign: string, body: string)
    requires (sign == "" || sign == "+" || sign == "-") && ParseUnsigned(body).Some? && body != [] && IsDigit(body[0])
    ensures ParseSigned(sign + body).Some?
  {
    if sign == "" {
      assert sign + body == body;
    } else {
      assert (sign + body)[1..] == body && (sign + body)[0] == sign[0];
    }
  }

  /** Digits with leading zeros so that one digit stands before a fraction of `scale` digits. */
  function Padded(digits: nat, scale: nat): (s: string)
    ensures |s| > scale && AllDigits(s)
  {
    var raw := Digits(digits);
    if |raw| <= scale then Zeros(scale - |raw| + 1) + raw else raw
  }

  function Pointed(padded: string, scale: nat): string
    requires |padded| > scale
  {
    if scale == 0 then padded else padded[..|padded| - scale] + "." + padded[|padded| - scale..]
  }

  function Unsigned(digits: nat, scale: nat): string {
    Pointed(Padded(digits, scale), scale)
  }

  /** Sign, whole part, and a fraction of exactly `scale` digits. */
  function Numeral(negative: bool, digits: nat, scale: nat): string {
    if negative then "-" + Unsigned(digits, scale) else Unsigned(digits, scale)
  }

  function Signed(negative: bool, digits: nat): int {
    if negative then 0 - digits else digits
  }

  lemma PaddedValue(digits: nat, scale: nat)
    ensures Value(Padded(digits, scale)) == digits
  {
    var raw := Digits(digits);
    DigitsValue(digits);
    if |raw| <= scale { ZerosAhead(scale - |raw| + 1, raw); }
  }

  lemma {:induction false} ParseWhole(whole: string)
    requires whole != [] && AllDigits(whole)
    ensures ParseUnsigned(whole) == Some(Decimal(Value(whole), 0))
  {
    assert IndexOf(whole, '.') == |whole|;
    assert whole[..|whole|] == whole;
  }

  lemma {:induction false} ParseFraction(whole: string, fraction: string)
    requires whole != [] && AllDigits(whole) && fraction != [] && AllDigits(fraction)
    ensures ParseUnsigned(whole + "." + fraction) == Some(Decimal(Value(whole + fraction), |fraction|))
  {
    var body := whole + "." + fraction;
    assert body[|whole|] == '.';
    assert forall j :: 0 <= j < |whole| ==> body[j] == whole[j];
    assert IndexOf(body, '.') == |whole|;
    assert body[..|whole|] == whole && body[|whole| + 1..] == fraction;
  }

  lemma DigitsSplit(padded: string, at: nat)
    requires AllDigits(padded) && at <= |padded|
    ensures AllDigits(padded[..at]) && AllDigits(padded[at..]) && padded[..at] + padded[at..] == padded
  {
  }

  lemma {:induction false} PointReads(padded: string, scale: nat)
    requires AllDigits(padded) && scale < |padded|
    ensures ParseUnsigned(Pointed(padded, scale)) == Some(Decimal(Value(padded), scale))
  {
    if scale == 0 {
      ParseWhole(padded);
    } else {
      DigitsSplit(padded, |padded| - scale);
      ParseFraction(padded[..|padded| - scale], padded[|padded| - scale..]);
    }
  }

  lemma UnsignedRoundTrip(digits: nat, scale: nat)
    ensures ParseUnsigned(Unsigned(digits, scale)) == Some(Decimal(digits, scale))
  {
    PaddedValue(digits, scale);
    PointReads(Padded(digits, scale), scale);
  }

  lemma UnsignedEnds(digits: nat, scale: nat)
    ensures var body := Unsigned(digits, scale);
            body != [] && IsDigit(body[0]) && body[|body| - 1] == Padded(digits, scale)[|Padded(digits, scale)| - 1]
  {
  }

  lemma UnsignedFirst(digits: nat, scale: nat)
    ensures Unsigned(digits, scale) != [] && IsDigit(Unsigned(digits, scale)[0])
  {
    UnsignedEnds(digits, scale);
  }

  lemma {:induction false} NothingToTrim(text: string)
    requires text != [] && (IsDigit(text[0]) || text[0] == '-') && IsDigit(text[|text| - 1])
    ensures TrimSpace(text) == text
  {
    NotSpace(text[0]);
    NotSpace(text[|text| - 1]);
  }

  lemma NotSpace(c: char)
    requires IsDigit(c) || c == '-'
    ensures !IsSpace(c)
  {
  }

  lemma SignAhead(body: string, d: Decimal)
    requires body != [] && IsDigit(body[0]) && ParseUnsigned(body) == Some(d)
    ensures ParseSigned(body) == Some(d) && ParseSigned("-" + body) == Some(Decimal(-d.mantissa, d.scale))
  {
    assert ("-" + body)[1..] == body;
  }

  /** Reading a numeral gives back its digits and scale. */
  lemma NumeralRoundTrip(negative: bool, digits: nat, scale: nat)
    ensures ParseMoney(Numeral(negative, digits, scale)) == Some(Decimal(Signed(negative, digits), scale))
  {
    NumeralEnds(negative, digits, scale);
    NothingToTrim(Numeral(negative, digits, scale));
    SignedRoundTrip(negative, digits, scale);
  }

  lemma SignReads(negative: bool, body: string, digits: nat, scale: nat)
    requires body != [] && IsDigit(body[0]) && ParseUnsigned(body) == Some(Decimal(digits, scale))
    ensures ParseSigned(if negative then "-" + body else body) == Some(Decimal(Signed(negative, digits), scale))
  {
    SignAhead(body, Decimal(digits, scale));
  }

  lemma NumeralSign(negative: bool, digits: nat, scale: nat)
    ensures Numeral(negative, digits, scale) == if negative then
            "-" + Unsigned(digits, scale) else Unsigned(digits, scale)
  {
  }

  lemma SignedRoundTrip(negative: bool, digits: nat, scale: nat)
    ensures ParseSigned(Numeral(negative, digits, scale)) == Some(Decimal(Signed(negative, digits), scale))
  {
    var body := Unsigned(digits, scale);
    UnsignedFirst(digits, scale);
    UnsignedRoundTrip(digits, scale);
    SignReads(negative, body, digits, scale);
    NumeralSign(negative, digits, scale);
  }

  lemma NumeralEnds(negative: bool, digits: nat, scale: nat)
    ensures var text := Numeral(negative, digits, scale);
      text != [] && (IsDigit(text[0]) || text[0] == '-') && IsDigit(text[|text| - 1])
  {
    UnsignedEnds(digits, scale);
  }
}

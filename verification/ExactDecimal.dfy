/**
 `Money.ExactDecimal`: the full decimal text of a rational, when there is one. The text is exact, it exists exactly when
 the value is some m/10^k, and no text that `ParseMoney` reads as the value is shorter.
 */
module ExactDecimal {
  import opened Wrappers
  import opened DecimalText

  /** `big.Rat`: always in lowest terms with a positive denominator. */
  datatype Rational = Rational(num: int, den: int)

  ghost predicate LowestTerms(v: Rational) {
    v.den > 0 && forall d :: d > 1 && v.den % d == 0 ==> v.num % d != 0
  }

  /** `v` is m / 10^k. */
  predicate IsDecimal(v: Rational, m: int, k: nat) {
    m * v.den == v.num * Pow(10, k)
  }

  ghost predicate Terminates(v: Rational) {
    exists m: int, k: nat :: IsDecimal(v, m, k)
  }

  // ----- powers and divisibility

  lemma {:induction false} PowPositive(b: nat, k: nat)
    requires b > 0
    ensures Pow(b, k) > 0
  {
    if k > 0 {
      PowPositive(b, k - 1);
      assert b * Pow(b, k - 1) > 0;
    }
  }

  lemma {:induction false} PowSplit(b: nat, j: nat, k: nat)
    ensures Pow(b, j + k) == Pow(b, j) * Pow(b, k)
  {
    if j > 0 {
      PowSplit(b, j - 1, k);
      assert b * (Pow(b, j - 1) * Pow(b, k)) == b * Pow(b, j - 1) * Pow(b, k);
    }
  }

  lemma {:induction false} PowTen(k: nat)
    ensures Pow(10, k) == Pow(2, k) * Pow(5, k)
  {
    if k > 0 {
      PowTen(k - 1);
      var x, y := Pow(2, k - 1), Pow(5, k - 1);
      assert 10 * (x * y) == (2 * x) * (5 * y);
    }
  }

  lemma MultipleBound(d: int, k: int)
    requires d > 0
    ensures k >= 1 ==> d * k >= d
    ensures k <= -1 ==> d * k <= -d
  {
  }

  lemma MultipleMod(d: int, q: int)
    requires d > 0
    ensures (d * q) % d == 0
  {
    var q', r := (d * q) / d, (d * q) % d;
    assert d * (q - q') == r;
    MultipleBound(d, q - q');
  }

  lemma EvenProduct(x: int, y: int)
    requires y % 2 == 0
    ensures (x * y) % 2 == 0
  {
    assert x * (2 * (y / 2)) == 2 * (x * (y / 2));
  }

  lemma OddForm(a: int, b: int)
    ensures (2 * a + 1) * (2 * b + 1) == 2 * (2 * a * b + a + b) + 1
  {
  }

  lemma OddAgain(n: int)
    ensures (2 * n + 1) % 2 != 0
  {
  }

  lemma OddProduct(x: int, y: int)
    requires x % 2 != 0 && y % 2 != 0
    ensures (x * y) % 2 != 0
  {
    var a, b := x / 2, y / 2;
    OddForm(a, b);
    OddAgain(2 * a * b + a + b);
  }

  lemma FiveForm(a: int, i: int, b: int, j: int)
    ensures (5 * a + i) * (5 * b + j) == 5 * (5 * a * b + a * j + b * i) + i * j
  {
  }

  lemma FiveAgain(n: int, r: int)
    ensures (5 * n + r) % 5 == r % 5
  {
  }

  lemma FiveProduct(x: int, y: int)
    requires x % 5 != 0 && y % 5 != 0
    ensures (x * y) % 5 != 0
  {
    var a, i, b, j := x / 5, x % 5, y / 5, y % 5;
    FiveForm(a, i, b, j);
    FiveAgain(5 * a * b + a * j + b * i, i * j);
    FiveRemainders(i, j);
  }

  lemma FiveRemainders(i: int, j: int)
    requires 1 <= i <= 4 && 1 <= j <= 4
    ensures (i * j) % 5 != 0
  {
    if i == 1 {
      assert i * j == j;
    } else if i == 2 {
      assert i * j == 2 * j;
    } else if i == 3 {
      assert i * j == 3 * j;
    } else {
      assert i * j == 4 * j;
    }
  }

  lemma {:induction false} OddPowers(k: nat)
    ensures Pow(5, k) % 2 != 0 && Pow(2, k) % 5 != 0
  {
    if k > 0 {
      OddPowers(k - 1);
      OddTimesFive(Pow(5, k - 1));
      FiveFreeTwice(Pow(2, k - 1));
    }
  }

  lemma OddTimesFive(x: int)
    requires x % 2 != 0
    ensures (5 * x) % 2 != 0
  {
    assert 5 * x == 2 * (2 * x) + x;
  }

  lemma FiveFreeTwice(x: int)
    requires x % 5 != 0
    ensures (2 * x) % 5 != 0
  {
    var q, r := x / 5, x % 5;
    FiveAgain(2 * q, 2 * r);
    assert 2 * x == 5 * (2 * q) + 2 * r;
  }

  lemma HalveFactor(r: int, m: int, y: int)
    requires r % 2 != 0 && r * m == 2 * y
    ensures m == 2 * (m / 2) && r * (m / 2) == y
  {
    if m % 2 != 0 {
      OddProduct(r, m);
    }
    assert r * (2 * (m / 2)) == 2 * (r * (m / 2));
  }

  lemma FifthFactor(r: int, m: int, y: int)
    requires r % 5 != 0 && r * m == 5 * y
    ensures m == 5 * (m / 5) && r * (m / 5) == y
  {
    if m % 5 != 0 {
      FiveProduct(r, m);
    }
    assert r * (5 * (m / 5)) == 5 * (r * (m / 5));
  }

  lemma PowTenStep(n: int, k: nat)
    requires k > 0
    ensures n * Pow(10, k) == 2 * (5 * (n * Pow(10, k - 1)))
  {
    var t := Pow(10, k - 1);
    assert n * (10 * t) == 2 * (5 * (n * t));
  }

  /** A factor free of 2 and 5 survives any power of ten. */
  lemma {:induction false} TenIsNoHelp(r: int, m: int, n: int, k: nat)
    requires r > 0 && r % 2 != 0 && r % 5 != 0 && r * m == n * Pow(10, k)
    ensures n % r == 0
    decreases k
  {
    if k == 0 {
      MultipleMod(r, m);
    } else {
      var x := n * Pow(10, k - 1);
      PowTenStep(n, k);
      HalveFactor(r, m, 5 * x);
      FifthFactor(r, m / 2, x);
      TenIsNoHelp(r, (m / 2) / 5, n, k - 1);
    }
  }

  lemma TwoOut(m: int, a: nat, c: int)
    requires a > 0
    ensures m * (Pow(2, a) * c) == 2 * (m * (Pow(2, a - 1) * c))
  {
    var p := Pow(2, a - 1);
    assert m * (2 * p * c) == 2 * (m * (p * c));
  }

  lemma FiveOut(m: int, b: nat, c: int)
    requires b > 0
    ensures m * (Pow(5, b) * c) == 5 * (m * (Pow(5, b - 1) * c))
  {
    var p := Pow(5, b - 1);
    assert m * (5 * p * c) == 5 * (m * (p * c));
  }

  lemma Shift(f: int, x: int, t: int)
    ensures f * (x * t) == (f * x) * t
  {
  }

  /** Every factor two of the denominator costs one decimal place. */
  lemma {:induction false} TwosNeedPlaces(a: nat, c: int, m: int, x: int, k: nat)
    requires m * (Pow(2, a) * c) == x * Pow(10, k) && x % 2 != 0
    ensures a <= k
    decreases a
  {
    if a > 0 {
      TwoOut(m, a, c);
      if k > 0 {
        PowTenStep(x, k);
        Shift(5, x, Pow(10, k - 1));
        OddTimesFive(x);
        TwosNeedPlaces(a - 1, c, m, 5 * x, k - 1);
      }
    }
  }

  lemma {:induction false} FivesNeedPlaces(b: nat, c: int, m: int, x: int, k: nat)
    requires m * (Pow(5, b) * c) == x * Pow(10, k) && x % 5 != 0
    ensures b <= k
    decreases b
  {
    if b > 0 {
      FiveOut(m, b, c);
      if k > 0 {
        PowTenStep(x, k);
        Shift(2, x, Pow(10, k - 1));
        FivesNeedPlaces(b - 1, c, m, 2 * x, k - 1);
      }
    }
  }

  // ----- the code

  function Max(a: nat, b: nat): nat {
    if a > b then a else b
  }

  /** The digits printed for a denominator 2^two * 5^five. */
  function DigitsFor(num: int, two: nat, five: nat): nat {
    var scale := Max(two, five);
    var n := if num < 0 then 0 - num else num;
    n * Pow(2, scale - two) * Pow(5, scale - five)
  }

  function TrimRight(s: string, c: char): string {
    if s != [] && s[|s| - 1] == c then TrimRight(s[..|s| - 1], c) else s
  }

  lemma Shrink(rest: nat, factor: nat)
    requires rest > 0 && factor >= 2 && rest % factor == 0
    ensures 0 < rest / factor < rest && rest == factor * (rest / factor)
  {
  }

  method StripFactor(denominator: nat, factor: nat) returns (rest: nat, count: nat)
    requires denominator > 0 && factor >= 2
    ensures rest > 0 && rest % factor != 0 && denominator == Pow(factor, count) * rest
  {
    rest, count := denominator, 0;
    while rest % factor == 0
      invariant rest > 0 && denominator == Pow(factor, count) * rest
      decreases rest
    {
      Shrink(rest, factor);
      Regroup(Pow(factor, count), factor, rest / factor);
      rest := rest / factor;
      count := count + 1;
    }
  }

  lemma Regroup(p: int, f: int, n: int)
    ensures p * (f * n) == (f * p) * n
  {
  }

  /** The last digit of a fraction is never zero, so trimming removes nothing. */
  lemma NothingTrimmed(digits: nat, scale: nat)
    requires scale > 0 && digits % 10 != 0
    ensures TrimRight(TrimRight(Unsigned(digits, scale), '0'), '.') == Unsigned(digits, scale)
  {
    DigitsLast(digits);
    var padded, raw := Padded(digits, scale), Digits(digits);
    assert padded[|padded| - 1] == raw[|raw| - 1];
    UnsignedEnds(digits, scale);
  }

  lemma OnlyZeroPrintsZero(digits: nat, scale: nat)
    requires Unsigned(digits, scale) == "0"
    ensures digits == 0
  {
    UnsignedRoundTrip(digits, scale);
    ParseWhole("0");
    assert Value("0") == 0;
  }

  lemma DigitsForZero(num: int, two: nat, five: nat)
    requires num != 0
    ensures DigitsFor(num, two, five) > 0
  {
    var scale := Max(two, five);
    PowPositive(2, scale - two);
    PowPositive(5, scale - five);
    var n := if num < 0 then 0 - num else num;
    assert n * Pow(2, scale - two) > 0;
  }

  method Print(num: int, two: nat, five: nat) returns (text: string)
    requires two == five == 0 || DigitsFor(num, two, five) % 10 != 0
    ensures text == Numeral(num < 0, DigitsFor(num, two, five), Max(two, five))
  {
    var scale := Max(two, five);
    var digits: nat := if num < 0 then 0 - num else num;
    if scale > two {
      digits := digits * Pow(2, scale - two);
    }
    if scale > five {
      digits := digits * Pow(5, scale - five);
    }
    assert digits == DigitsFor(num, two, five);
    var raw := Layout(digits, scale);
    if num < 0 {
      DigitsForZero(num, two, five);
    }
    if raw == "0" {
      OnlyZeroPrintsZero(digits, scale);
    }
    if num < 0 && raw != "0" {
      return "-" + raw;
    }
    return raw;
  }

  method Layout(digits: nat, scale: nat) returns (raw: string)
    requires scale > 0 ==> digits % 10 != 0
    ensures raw == Unsigned(digits, scale)
  {
    raw := Digits(digits);
    if scale > 0 {
      if |raw| <= scale {
        raw := Zeros(scale - |raw| + 1) + raw;
      }
      assert raw == Padded(digits, scale);
      raw := raw[..|raw| - scale] + "." + raw[|raw| - scale..];
      assert raw == Unsigned(digits, scale);
      NothingTrimmed(digits, scale);
      raw := TrimRight(TrimRight(raw, '0'), '.');
    }
  }

  // ----- the denominator of a decimal

  /** den = 2^two * 5^five * rest with rest free of both primes. */
  ghost predicate Factored(den: int, two: nat, five: nat, rest: int) {
    rest > 0 && rest % 2 != 0 && rest % 5 != 0 && den == Pow(2, two) * (Pow(5, five) * rest)
  }

  lemma OddPart(p: int, rest: int)
    requires (p * rest) % 2 != 0
    ensures rest % 2 != 0
  {
    if rest % 2 == 0 {
      EvenProduct(p, rest);
    }
  }

  lemma LeftoverDivides(v: Rational, two: nat, five: nat, rest: int)
    requires Factored(v.den, two, five, rest)
    ensures v.den % rest == 0
  {
    var a, b := Pow(2, two), Pow(5, five);
    assert a * (b * rest) == rest * (a * b);
    MultipleMod(rest, a * b);
  }

  /** A leftover factor in the denominator rules out every decimal. */
  lemma LeftoverNeverTerminates(v: Rational, two: nat, five: nat, rest: int, m: int, k: nat)
    requires LowestTerms(v) && Factored(v.den, two, five, rest) && rest != 1
    ensures !IsDecimal(v, m, k)
  {
    LeftoverDivides(v, two, five, rest);
    if IsDecimal(v, m, k) {
      var a, b := Pow(2, two), Pow(5, five);
      assert m * (a * (b * rest)) == rest * (m * (a * b));
      TenIsNoHelp(rest, m * (a * b), v.num, k);
      assert false;
    }
  }

  /** Without a leftover, max(two, five) places are needed. */
  lemma PlacesNeeded(v: Rational, two: nat, five: nat, m: int, k: nat)
    requires LowestTerms(v) && Factored(v.den, two, five, 1) && IsDecimal(v, m, k)
    ensures Max(two, five) <= k
  {
    NumeratorFree(v, two, five);
    var a, b := Pow(2, two), Pow(5, five);
    if two > 0 {
      TwosNeedPlaces(two, b * 1, m, v.num, k);
    }
    if five > 0 {
      assert a * (b * 1) == b * a;
      FivesNeedPlaces(five, a, m, v.num, k);
    }
  }

  lemma NumeratorFree(v: Rational, two: nat, five: nat)
    requires LowestTerms(v) && Factored(v.den, two, five, 1)
    ensures two > 0 ==> v.num % 2 != 0
    ensures five > 0 ==> v.num % 5 != 0
  {
    var a, b := Pow(2, two), Pow(5, five);
    if two > 0 {
      assert 2 * Pow(2, two - 1) * (b * 1) == 2 * (Pow(2, two - 1) * b);
      MultipleMod(2, Pow(2, two - 1) * b);
    }
    if five > 0 {
      assert a * (5 * Pow(5, five - 1) * 1) == 5 * (a * Pow(5, five - 1));
      MultipleMod(5, a * Pow(5, five - 1));
    }
  }

  lemma ScaleUp(n: int, a: int, b: int, c: int, d: int)
    ensures (n * c * d) * (a * (b * 1)) == n * ((c * a) * (d * b))
  {
    assert (n * c * d) * (a * b) == n * ((c * a) * (d * b));
  }

  lemma FullScale(two: nat, five: nat, scale: nat)
    requires two <= scale && five <= scale
    ensures (Pow(2, scale - two) * Pow(2, two)) * (Pow(5, scale - five) * Pow(5, five)) == Pow(10, scale)
  {
    PowSplit(2, scale - two, two);
    PowSplit(5, scale - five, five);
    PowTen(scale);
  }

  lemma Negated(x: int, y: int)
    ensures (0 - x) * y == 0 - x * y
  {
  }

  lemma DigitsForExact(v: Rational, two: nat, five: nat)
    requires Factored(v.den, two, five, 1)
    ensures IsDecimal(v, Signed(v.num < 0, DigitsFor(v.num, two, five)), Max(two, five))
  {
    var scale := Max(two, five);
    var n := if v.num < 0 then 0 - v.num else v.num;
    ScaleUp(n, Pow(2, two), Pow(5, five), Pow(2, scale - two), Pow(5, scale - five));
    FullScale(two, five, scale);
    assert DigitsFor(v.num, two, five) * v.den == n * Pow(10, scale);
    Negated(DigitsFor(v.num, two, five), v.den);
    Negated(n, Pow(10, scale));
  }

  lemma OddNotTen(x: int, y: int)
    requires x % 2 != 0 && y % 2 != 0
    ensures (x * 1 * y) % 10 != 0
  {
    OddProduct(x, y);
    NotTen(x * y);
  }

  lemma NotTen(n: int)
    requires n % 2 != 0 || n % 5 != 0
    ensures n % 10 != 0
  {
    var q, r := n / 10, n % 10;
    assert n == 2 * (5 * q) + r && n == 5 * (2 * q) + r;
  }

  lemma FiveFreeNotTen(x: int, y: int)
    requires x % 5 != 0 && y % 5 != 0
    ensures (x * y * 1) % 10 != 0
  {
    FiveProduct(x, y);
    NotTen(x * y);
    assert x * y * 1 == x * y;
  }

  /** A printed fraction never ends in zero. */
  lemma DigitsForLast(v: Rational, two: nat, five: nat)
    requires LowestTerms(v) && Factored(v.den, two, five, 1)
    ensures two == five == 0 || DigitsFor(v.num, two, five) % 10 != 0
  {
    NumeratorFree(v, two, five);
    var n := if v.num < 0 then 0 - v.num else v.num;
    if two >= five && two > 0 {
      OddPowers(two - five);
      OddNotTen(n, Pow(5, two - five));
      DigitsForTwos(v.num, two, five);
    } else if five > two {
      OddPowers(five - two);
      FiveFreeNotTen(n, Pow(2, five - two));
      DigitsForFives(v.num, two, five);
    }
  }

  lemma {:induction false} DigitsForTwos(num: int, two: nat, five: nat)
    requires two >= five
    ensures DigitsFor(num, two, five) == (if num < 0 then 0 - num else num) * 1 * Pow(5, two - five)
  {
  }

  lemma {:induction false} DigitsForFives(num: int, two: nat, five: nat)
    requires five > two
    ensures DigitsFor(num, two, five) == (if num < 0 then 0 - num else num) * Pow(2, five - two) * 1
  {
  }

  ghost predicate LeastPlaces(v: Rational, k: nat) {
    forall m', k' :: IsDecimal(v, m', k') ==> k <= k'
  }

  /** `text` is a money text whose exact value is `v`. */
  ghost predicate Reads(text: string, v: Rational) {
    ParseMoney(text).Some? && IsDecimal(v, ParseMoney(text).value.mantissa, ParseMoney(text).value.scale)
  }

  /** A numeral for `v` with as few decimal places as any. */
  ghost predicate ExactNumeral(v: Rational, d: nat, k: nat) {
    IsDecimal(v, Signed(v.num < 0, d), k) && LeastPlaces(v, k)
  }

  // ----- no accepted text is shorter

  /** Length of the shortest body with `k` decimals whose digits denote `n`. */
  function BodyLength(n: nat, k: nat): nat {
    (if |Digits(n)| > k then |Digits(n)| else k + 1) + if k == 0 then 0 else 1
  }

  lemma UnsignedLength(n: nat, k: nat)
    ensures |Unsigned(n, k)| == BodyLength(n, k)
  {
  }

  lemma BodyNotShorter(body: string)
    requires ParseUnsigned(body).Some?
    ensures var d := ParseUnsigned(body).value; d.mantissa >= 0 && |body| >= BodyLength(d.mantissa, d.scale)
  {
    var dot := IndexOf(body, '.');
    if dot == |body| {
      assert body[..dot] == body;
      DigitsShortest(body, Value(body));
    } else {
      var all := body[..dot] + body[dot + 1..];
      DigitsShortest(all, Value(all));
    }
  }

  lemma TextNotShorter(text: string)
    requires ParseMoney(text).Some?
    ensures var d := ParseMoney(text).value;
            var n := if d.mantissa < 0 then 0 - d.mantissa else d.mantissa;
            |text| >= BodyLength(n, d.scale) + if d.mantissa < 0 then 1 else 0
  {
    SignedNotShorter(TrimSpace(text));
  }

  lemma SignedNotShorter(text: string)
    requires ParseSigned(text).Some?
    ensures var d := ParseSigned(text).value;
            var n := if d.mantissa < 0 then 0 - d.mantissa else d.mantissa;
            |text| >= BodyLength(n, d.scale) + if d.mantissa < 0 then 1 else 0
  {
    BodyNotShorter(if text[0] == '-' || text[0] == '+' then text[1..] else text);
  }

  lemma CancelFactor(x: int, y: int, f: int)
    requires f > 0 && x * f == y * f
    ensures x == y
  {
    assert (x - y) * f == 0;
    if x - y >= 1 {
      MultipleBound(f, x - y);
    } else if x - y <= -1 {
      MultipleBound(f, x - y);
    }
  }

  /** Decimals of one value differ by a power of ten. */
  lemma {:induction false} DecimalsAgree(v: Rational, m: int, k: nat, m': int, k': nat)
    requires v.den > 0 && IsDecimal(v, m, k) && IsDecimal(v, m', k') && k <= k'
    ensures m' == m * Pow(10, k' - k)
  {
    PowSplit(10, k' - k, k);
    SameValue(m, m', v.den, v.num, Pow(10, k), Pow(10, k'), Pow(10, k' - k));
    CancelFactor(m', m * Pow(10, k' - k), v.den);
  }

  lemma SwapFactors(a: int, b: int, c: int)
    ensures (a * b) * c == (a * c) * b
  {
  }

  lemma SameValue(m: int, m': int, den: int, num: int, p: int, p': int, t: int)
    requires m * den == num * p && m' * den == num * p' && p' == t * p
    ensures m' * den == (m * t) * den
  {
    SwapFactors(m, den, t);
    SwapFactors(num, p, t);
    Regroup(num, t, p);
  }

  lemma SignOfDigits(v: Rational, d: nat, k: nat)
    requires v.den > 0 && ExactNumeral(v, d, k)
    ensures v.num < 0 ==> d > 0
    ensures d == 0 ==> k == 0
  {
    PowPositive(10, k);
    if d == 0 {
      CancelFactor(v.num, 0, Pow(10, k));
      assert IsDecimal(v, 0, 0);
    }
  }

  lemma {:induction false} LongerBody(d: nat, k: nat, j: nat)
    requires d > 0
    ensures d * Pow(10, j) > 0 && BodyLength(d * Pow(10, j), k + j) >= BodyLength(d, k)
  {
    DigitsScaled(d, j);
  }

  lemma ExactNumeralShortest(v: Rational, d: nat, k: nat, text: string)
    requires v.den > 0 && ExactNumeral(v, d, k) && Reads(text, v)
    ensures |Numeral(v.num < 0, d, k)| <= |text|
  {
    var m, k' := ParseMoney(text).value.mantissa, ParseMoney(text).value.scale;
    assert k <= k';
    DecimalsAgree(v, Signed(v.num < 0, d), k, m, k');
    SignOfDigits(v, d, k);
    TextNotShorter(text);
    UnsignedLength(d, k);
    ScaledNotShorter(v.num < 0, d, k, m, k');
  }

  /** The same value with more decimals needs no fewer characters. */
  lemma {:induction false} ScaledNotShorter(negative: bool, d: nat, k: nat, m: int, k': nat)
    requires k <= k' && m == Signed(negative, d) * Pow(10, k' - k)
    requires (negative ==> d > 0) && (d == 0 ==> k == 0)
    ensures BodyLength(d, k) + (if negative then 1 else 0) <=
            BodyLength(if m < 0 then 0 - m else m, k') + if m < 0 then 1 else 0
  {
    if d > 0 {
      LongerBody(d, k, k' - k);
      Negated(d, Pow(10, k' - k));
    }
  }

  /**
   The text exists exactly for values that are some m/10^k. It then reads back as the value, with the fewest decimal
   places, and no other accepted text for the value is shorter.
   */
  method ExactDecimal(v: Rational) returns (r: Option<string>)
    requires LowestTerms(v)
    ensures r.Some? <==> Terminates(v)
    ensures r.Some? ==> Reads(r.value, v) && LeastPlaces(v, ParseMoney(r.value).value.scale)
    ensures r.Some? ==> forall text :: Reads(text, v) ==> |r.value| <= |text|
  {
    var odd, two := StripFactor(v.den, 2);
    var rest, five := StripFactor(odd, 5);
    OddPart(Pow(5, five), rest);
    assert Factored(v.den, two, five, rest);
    if rest != 1 {
      forall m, k ensures !IsDecimal(v, m, k) {
        LeftoverNeverTerminates(v, two, five, rest, m, k);
      }
      return None;
    }
    ghost var d, k := ExactNumeralOf(v, two, five);
    var text := Print(v.num, two, five);
    NumeralRoundTrip(v.num < 0, d, k);
    forall other | Reads(other, v) ensures |text| <= |other| {
      ExactNumeralShortest(v, d, k, other);
    }
    assert IsDecimal(v, Signed(v.num < 0, d), k);
    return Some(text);
  }

  lemma ExactNumeralOf(v: Rational, two: nat, five: nat) returns (d: nat, k: nat)
    requires LowestTerms(v) && Factored(v.den, two, five, 1)
    ensures d == DigitsFor(v.num, two, five) && k == Max(two, five) && ExactNumeral(v, d, k)
    ensures two == five == 0 || d % 10 != 0
  {
    d, k := DigitsFor(v.num, two, five), Max(two, five);
    DigitsForLast(v, two, five);
    DigitsForExact(v, two, five);
    forall m', k' | IsDecimal(v, m', k') ensures k <= k' {
      PlacesNeeded(v, two, five, m', k');
    }
  }
}

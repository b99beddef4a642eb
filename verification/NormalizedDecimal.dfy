/**
 What a normalised decimal means to the money parser behind it: every text is read by its digits and its last separator,
 or refused, and the texts that are normalised but then refused are exactly those without a usable decimal mark.
 */
module NormalizedDecimal {
  import opened Wrappers
  import Collections
  import opened DecimalText
  import opened Currency

  // ----- how a packed text reads

  function DigitsOnly(s: string): (d: string)
    ensures AllDigits(d)
  {
    if s == [] then [] else (if IsDigit(s[0]) then [s[0]] else []) + DigitsOnly(s[1..])
  }

  /** The text without percent signs and blanks. */
  function Packed(raw: string): string {
    Replaced(Trimmed(raw), ' ', "")
  }

  predicate IsMark(c: char) {
    c == ',' || c == '.'
  }

  /** The last comma or dot. */
  function Mark(v: string): (m: int)
    ensures -1 <= m < |v| && (m >= 0 ==> IsMark(v[m])) && forall j :: m < j < |v| ==> !IsMark(v[j])
  {
    var comma, dot := LastIndex(v, ','), LastIndex(v, '.');
    if comma > dot then comma else dot
  }

  /** All digits of the text, with its sign. */
  function Sized(v: string, scale: nat): Decimal {
    Decimal(Signed("-" <= v, Value(DigitsOnly(v))), scale)
  }

  /** Dots that are taken for grouping: groups of three behind one to three digits, or three digits behind one dot. */
  predicate AreGroups(front: string, back: string) {
    if '.' in front then LooksGrouped(Split(front + "." + back, '.')) else |front| <= 3 && |back| == 3
  }

  /** The last mark stands once more where it cannot be grouping: among commas, or as a comma itself. */
  predicate Ambiguous(mark: char, front: string) {
    mark in front && (mark == ',' || ',' in front)
  }

  /** The condition on the packed text: digits around one decimal mark, grouping dots, or digits alone. */
  predicate Readable(v: string) {
    var m := Mark(v);
    if m < 0 then DigitsOnly(v) != []
    else
      var front, back := v[..m], v[m + 1..];
      || (v[m] == '.' && ',' !in front && AreGroups(front, back))
      || (back != [] && DigitsOnly(front) != [] && !Ambiguous(v[m], front))
  }

  /** The decimals of a readable text: none, when its dots are grouping. */
  function Places(v: string): nat {
    var m := Mark(v);
    if m < 0 || (v[m] == '.' && ',' !in v[..m] && AreGroups(v[..m], v[m + 1..])) then 0 else |v| - m - 1
  }

  function Reading(v: string): Option<Decimal> {
    if Readable(v) then Some(Sized(v, Places(v))) else None
  }

  // ----- parsing signed bodies

  predicate Marked(u: string) {
    forall i :: 0 <= i < |u| ==> IsDigit(u[i]) || IsMark(u[i])
  }

  function Signs(negative: bool, r: Option<Decimal>): Option<Decimal> {
    match r case None => None case Some(d) => Some(Decimal(if negative then 0 - d.mantissa else d.mantissa, d.scale))
  }

  lemma {:induction false} NoBlanks(text: string)
    requires forall i :: 0 <= i < |text| ==> !IsSpace(text[i])
    ensures TrimSpace(text) == text
  {
  }

  lemma SignedBody(negative: bool, body: string)
    requires Marked(body)
    ensures ParseMoney(Sign(negative) + body) == Signs(negative, ParseUnsigned(body))
  {
    NoBlanks(Sign(negative) + body);
    SignAndBody(negative, body);
  }

  lemma SignAndBody(negative: bool, body: string)
    requires Marked(body)
    ensures ParseSigned(Sign(negative) + body) == Signs(negative, ParseUnsigned(body))
  {
    var text := Sign(negative) + body;
    if negative {
      assert text[1..] == body && text[0] == '-';
    } else {
      assert text == body;
      assert body == [] ==> ParseUnsigned(body).None?;
    }
  }

  lemma {:induction false} BodyWhole(w: string)
    requires AllDigits(w)
    ensures ParseUnsigned(w) == if w == [] then None else Some(Decimal(Value(w), 0))
  {
    if w != [] { ParseWhole(w); }
  }

  lemma {:induction false} BodyPoint(w: string, y: string)
    requires AllDigits(w) && AllDigits(y)
    ensures ParseUnsigned(w + "." + y) == if w == [] || y == [] then None else Some(Decimal(Value(w + y), |y|))
  {
    CutAt(w, '.', y);
    if w != [] && y != [] { ParseFraction(w, y); }
  }

  lemma {:induction false} BodyTwice(w: string, y: string)
    requires '.' in w
    ensures ParseUnsigned(w + "." + y).None?
  {
    var text := w + "." + y;
    var i := IndexOf(text, '.');
    IndexOfFound(w, y);
    assert text[i + 1..][|w| - i - 1] == text[|w|] == '.';
  }

  lemma {:induction false} IndexOfFound(w: string, y: string)
    requires '.' in w
    ensures IndexOf(w + "." + y, '.') < |w|
  {
    var k :| 0 <= k < |w| && w[k] == '.';
    assert (w + "." + y)[k] == '.';
  }

  // ----- digits and replaced marks

  lemma {:induction false} DigitsOnlyAppend(a: string, b: string)
    ensures DigitsOnly(a + b) == DigitsOnly(a) + DigitsOnly(b)
  {
    if a == [] {
      assert a + b == b;
    } else {
      assert (a + b)[1..] == a[1..] + b;
      DigitsOnlyAppend(a[1..], b);
    }
  }

  lemma {:induction false} DigitsStay(s: string)
    requires AllDigits(s)
    ensures DigitsOnly(s) == s
  {
    if s != [] { DigitsStay(s[1..]); }
  }

  /** Dropping the only kind of mark leaves the digits. */
  lemma {:induction false} DroppedMark(s: string, c: char)
    requires !IsDigit(c) && forall i :: 0 <= i < |s| ==> IsDigit(s[i]) || s[i] == c
    ensures Replaced(s, c, "") == DigitsOnly(s)
  {
    if s != [] { DroppedMark(s[1..], c); }
  }

  lemma {:induction false} ReplacedMarks(s: string, c: char, put: string)
    requires Marked(s) && (put == "" || put == ".")
    ensures Marked(Replaced(s, c, put))
    ensures put == "." && c in s ==> '.' in Replaced(s, c, put)
    ensures c != '.' && '.' in s ==> '.' in Replaced(s, c, put)
    ensures put == "" && c != ',' ==> (',' in Replaced(s, c, put) <==> ',' in s)
    ensures put == "" ==> c !in Replaced(s, c, put)
  {
    if s != [] {
      ReplacedMarks(s[1..], c, put);
      HeadMarks(s, c, put, Replaced(s[1..], c, put));
    }
  }

  lemma HeadMarks(s: string, c: char, put: string, rest: string)
    requires s != [] && (put == "" || put == ".")
    ensures forall x: char :: x in (if s[0] == c then put else [s[0]]) + rest <==>
            (s[0] == c && x in put) || (s[0] != c && x == s[0]) || x in rest
    ensures forall x: char :: x in s <==> x == s[0] || x in s[1..]
  {
    var head := if s[0] == c then put else [s[0]];
    assert s == [s[0]] + s[1..];
  }

  // ----- the text around its last mark

  /** Sign, digits and marks, the last mark, digits. */
  function Around(negative: bool, ux: string, c: char, y: string): string {
    Sign(negative) + ux + [c] + y
  }

  lemma AroundMark(negative: bool, ux: string, c: char, y: string)
    requires Marked(ux) && IsMark(c) && AllDigits(y)
    ensures var v, m := Around(negative, ux, c, y), |Sign(negative) + ux|;
      Mark(v) == m && v[m] == c && v[..m] == Sign(negative) + ux && v[m + 1..] == y
  {
    var v, m := Around(negative, ux, c, y), |Sign(negative) + ux|;
    assert v[m] == c;
    assert forall j :: m < j < |v| ==> v[j] == y[j - m - 1];
  }

  lemma {:induction false} AroundDigits(negative: bool, ux: string, c: char, y: string)
    requires Marked(ux) && IsMark(c) && AllDigits(y)
    ensures var v := Around(negative, ux, c, y);
      ("-" <= v <==> negative) && DigitsOnly(v) == DigitsOnly(ux) + y &&
          DigitsOnly(Sign(negative) + ux) == DigitsOnly(ux)
  {
    SignLeads(negative, ux + [c] + y);
    Assoc3(Sign(negative), ux, [c], y);
    DigitsOnlyAppend(Sign(negative) + ux + [c], y);
    DigitsOnlyAppend(Sign(negative) + ux, [c]);
    DigitsOnlyAppend(Sign(negative), ux);
    DigitsStay(y);
    NoDigits(negative, c);
  }

  lemma Assoc3(a: string, b: string, c: string, d: string)
    ensures a + b + c + d == a + (b + c + d)
  {
  }

  lemma NoDigits(negative: bool, c: char)
    requires IsMark(c)
    ensures DigitsOnly([c]) == [] && DigitsOnly(Sign(negative)) == []
  {
    assert [c][1..] == [];
    assert "-"[1..] == [];
  }

  lemma SignLeads(negative: bool, u: string)
    requires Marked(u)
    ensures "-" <= Sign(negative) + u <==> negative
  {
    var v := Sign(negative) + u;
    assert !negative ==> v == u;
    assert "-" <= v <==> |v| >= 1 && v[0] == '-';
  }

  lemma ReadingAround(negative: bool, ux: string, c: char, y: string)
    requires Marked(ux) && IsMark(c) && AllDigits(y)
    ensures var v, x := Around(negative, ux, c, y), Sign(negative) + ux;
      && (',' in x <==> ',' in ux) && ('.' in x <==> '.' in ux)
      && Reading(v) == if c == '.' && ',' !in ux && AreGroups(x, y) then Some(Sized(v, 0))
                       else if y != [] && DigitsOnly(x) != [] && !Ambiguous(c, x) then Some(Sized(v, |y|))
                       else None
  {
    AroundMark(negative, ux, c, y);
  }

  /** The digits before the mark and the mark itself decide how sign, digits and a point read. */
  lemma {:induction false} SeparatorReads(negative: bool, ux: string, c: char, y: string)
    requires Marked(ux) && IsMark(c) && AllDigits(y)
    ensures var v := Around(negative, ux, c, y);
      ParseMoney(Sign(negative) + (DigitsOnly(ux) + "." + y)) ==
      if y == [] || DigitsOnly(Sign(negative) + ux) == [] then None else Some(Sized(v, |y|))
  {
    AroundDigits(negative, ux, c, y);
    PointBody(negative, DigitsOnly(ux), y);
  }

  lemma {:induction false} PointBody(negative: bool, w: string, y: string)
    requires AllDigits(w) && AllDigits(y)
    ensures ParseMoney(Sign(negative) + (w + "." + y)) ==
            if y == [] || w == [] then None else Some(Decimal(Signed(negative, Value(w + y)), |y|))
  {
    MarkedPoint(w, y);
    SignedBody(negative, w + "." + y);
    BodyPoint(w, y);
    if w != [] && y != [] {
      SignsSome(negative, Value(w + y), |y|);
    }
  }

  lemma SignsSome(negative: bool, mantissa: nat, scale: nat)
    ensures Signs(negative, Some(Decimal(mantissa, scale))) == Some(Decimal(Signed(negative, mantissa), scale))
  {
  }

  lemma MarkedPoint(w: string, y: string)
    requires AllDigits(w) && AllDigits(y)
    ensures Marked(w + "." + y)
  {
  }

  lemma {:induction false} WholeBody(negative: bool, w: string)
    requires AllDigits(w)
    ensures ParseMoney(Sign(negative) + w) == if w == [] then None else Some(Decimal(Signed(negative, Value(w)), 0))
  {
    BodyWhole(w);
    SignedBody(negative, w);
  }

  lemma {:induction false} WholeReads(negative: bool, ux: string, c: char, y: string)
    requires Marked(ux) && IsMark(c) && AllDigits(y) && y != []
    ensures ParseMoney(Sign(negative) + (DigitsOnly(ux) + y)) == Some(Sized(Around(negative, ux, c, y), 0))
  {
    AroundDigits(negative, ux, c, y);
    WholeBody(negative, DigitsOnly(ux) + y);
  }

  lemma TwoPointsRefused(negative: bool, w: string, y: string)
    requires Marked(w) && AllDigits(y) && '.' in w
    ensures ParseMoney(Sign(negative) + (w + "." + y)).None?
  {
    BodyTwice(w, y);
    SignedBody(negative, w + "." + y);
  }

  lemma {:induction false} LastMarks(negative: bool, ux: string, c: char, y: string)
    requires Marked(ux) && IsMark(c) && AllDigits(y)
    ensures var v, m, other := Around(negative, ux, c, y), |Sign(negative) + ux|, if c == ',' then '.' else ',';
      && LastIndex(v, c) == m && LastIndex(v, other) < m && (LastIndex(v, other) >= 0 <==> other in ux)
  {
    var v, m, other := Around(negative, ux, c, y), |Sign(negative) + ux|, if c == ',' then '.' else ',';
    assert v[m] == c;
    assert forall j :: m < j < |v| ==> v[j] == y[j - m - 1];
    assert forall j :: 0 <= j < |ux| ==> v[j + |Sign(negative)|] == ux[j];
    assert forall j :: 0 <= j < |Sign(negative)| ==> v[j] == '-';
  }

  lemma {:induction false} ReplacedAround(negative: bool, ux: string, c: char, y: string, mark: char, put: string)
    requires Marked(ux) && IsMark(c) && IsMark(mark) && AllDigits(y)
    ensures Replaced(Around(negative, ux, c, y), mark, put) ==
            Sign(negative) + Replaced(ux, mark, put) + (if c == mark then put else [c]) + y
  {
    ReplacedAppend(Sign(negative) + ux + [c], y, mark, put);
    ReplacedAppend(Sign(negative) + ux, [c], mark, put);
    ReplacedAppend(Sign(negative), ux, mark, put);
    ReplacedNone(Sign(negative), mark, put);
    ReplacedNone(y, mark, put);
    ReplacedOne(c, mark, put);
  }

  lemma {:induction false} ReplacedOne(c: char, mark: char, put: string)
    ensures Replaced([c], mark, put) == if c == mark then put else [c]
  {
    assert [c][1..] == [];
    assert put + [] == put;
  }

  // ----- the comma comes last

  function CommaFront(ux: string): string {
    Replaced(Replaced(ux, '.', ""), ',', ".")
  }

  lemma CommaText(negative: bool, ux: string, y: string)
    requires Marked(ux) && AllDigits(y)
    ensures Separated(Around(negative, ux, ',', y)) == Sign(negative) + (CommaFront(ux) + "." + y)
  {
    LastMarks(negative, ux, ',', y);
    ReplacedAround(negative, ux, ',', y, '.', "");
    ReplacedMarks(ux, '.', "");
    ReplacedAround(negative, Replaced(ux, '.', ""), ',', y, ',', ".");
    ReplacedAround(negative, ux, ',', y, ',', ".");
    if '.' !in ux { ReplacedNone(ux, '.', ""); }
    Assoc3(Sign(negative), CommaFront(ux), ".", y);
  }

  lemma CommaReads(negative: bool, ux: string, y: string)
    requires Marked(ux) && AllDigits(y)
    ensures var v := Around(negative, ux, ',', y); ParseMoney(Separated(v)) == Reading(v)
  {
    CommaText(negative, ux, y);
    ReadingAround(negative, ux, ',', y);
    ReplacedMarks(ux, '.', "");
    ReplacedMarks(Replaced(ux, '.', ""), ',', ".");
    if ',' in ux {
      TwoPointsRefused(negative, CommaFront(ux), y);
    } else {
      OnlyDots(ux);
      SeparatorReads(negative, ux, ',', y);
    }
  }

  lemma {:induction false} OnlyDots(ux: string)
    requires Marked(ux) && ',' !in ux
    ensures CommaFront(ux) == DigitsOnly(ux) && Replaced(ux, '.', "") == DigitsOnly(ux)
  {
    DroppedMark(ux, '.');
    ReplacedNone(DigitsOnly(ux), ',', ".");
  }

  // ----- the dot comes last, behind commas

  lemma {:induction false} DotText(negative: bool, ux: string, y: string)
    requires Marked(ux) && AllDigits(y) && ',' in ux
    ensures Separated(Around(negative, ux, '.', y)) == Sign(negative) + (Replaced(ux, ',', "") + "." + y)
  {
    LastMarks(negative, ux, '.', y);
    ReplacedAround(negative, ux, '.', y, ',', "");
    Assoc3(Sign(negative), Replaced(ux, ',', ""), ".", y);
  }

  lemma DotReads(negative: bool, ux: string, y: string)
    requires Marked(ux) && AllDigits(y) && ',' in ux
    ensures var v := Around(negative, ux, '.', y); ParseMoney(Separated(v)) == Reading(v)
  {
    DotText(negative, ux, y);
    ReadingAround(negative, ux, '.', y);
    ReplacedMarks(ux, ',', "");
    if '.' in ux {
      TwoPointsRefused(negative, Replaced(ux, ',', ""), y);
    } else {
      DroppedMark(ux, ',');
      SeparatorReads(negative, ux, '.', y);
    }
  }

  // ----- dots only

  /** The parts of a text end with what follows its last dot, and the other parts are the rest without dots. */
  lemma {:induction false} SplitLast(x: string, y: string)
    requires '.' !in y
    ensures Split(x + "." + y, '.') == Split(x, '.') + [y]
    decreases |x|
  {
    var i := IndexOf(x, '.');
    IndexOfDot(x, y);
    if i == |x| {
      LastPart(x, y);
    } else {
      var rest := x[i + 1..];
      SplitLast(rest, y);
      PartFirst(x, y, i);
      SplitStep(x, i);
      SplitStep(x + "." + y, i);
      AssocParts([x[..i]], Split(rest, '.'), [y]);
    }
  }

  lemma AssocParts(a: seq<string>, b: seq<string>, c: seq<string>)
    ensures a + (b + c) == a + b + c
  {
  }

  lemma {:induction false} SplitStep(s: string, i: nat)
    requires IndexOf(s, '.') == i < |s|
    ensures Split(s, '.') == [s[..i]] + Split(s[i + 1..], '.')
  {
  }

  lemma PartFirst(x: string, y: string, i: nat)
    requires i < |x|
    ensures (x + "." + y)[..i] == x[..i] && (x + "." + y)[i + 1..] == x[i + 1..] + "." + y
  {
  }

  lemma {:induction false} LastPart(x: string, y: string)
    requires '.' !in x && '.' !in y
    ensures Split(x + "." + y, '.') == Split(x, '.') + [y]
  {
    CutAt(x, '.', y);
    NoneFirst(x, '.');
    NoneFirst(y, '.');
    SplitStep(x + "." + y, |x|);
  }

  lemma {:induction false} NoneFirst(s: string, c: char)
    requires c !in s
    ensures IndexOf(s, c) == |s|
  {
  }

  lemma {:induction false} IndexOfDot(x: string, y: string)
    ensures IndexOf(x + "." + y, '.') == IndexOf(x, '.')
  {
    var text, i := x + "." + y, IndexOf(x, '.');
    assert text[|x|] == '.';
    assert forall j :: 0 <= j < |x| ==> text[j] == x[j];
    var k := IndexOf(text, '.');
    assert k <= |x|;
    assert i < |x| ==> text[i] == '.';
  }

  lemma {:induction false} ConcatParts(x: string)
    ensures Concat(Split(x, '.')) == Replaced(x, '.', "")
    decreases |x|
  {
    var i := IndexOf(x, '.');
    if i == |x| {
      assert '.' !in x;
      ReplacedNone(x, '.', "");
      assert Concat([x]) == x + Concat([]) by { assert [x][1..] == []; }
    } else {
      ConcatParts(x[i + 1..]);
      SplitStep(x, i);
      ConcatStep(x[..i], Split(x[i + 1..], '.'));
      FirstDotDropped(x, i);
    }
  }

  lemma {:induction false} ConcatStep(first: string, rest: seq<string>)
    ensures Concat([first] + rest) == first + Concat(rest)
  {
    assert ([first] + rest)[1..] == rest;
  }

  lemma {:induction false} FirstDotDropped(x: string, i: nat)
    requires i < |x| && x[i] == '.' && '.' !in x[..i]
    ensures Replaced(x, '.', "") == x[..i] + Replaced(x[i + 1..], '.', "")
  {
    assert x == x[..i] + "." + x[i + 1..];
    ReplacedAppend(x[..i] + ".", x[i + 1..], '.', "");
    ReplacedAppend(x[..i], ".", '.', "");
    ReplacedNone(x[..i], '.', "");
    ReplacedOne('.', '.', "");
    assert x[..i] + "" == x[..i];
  }

  lemma {:induction false} DotsText(negative: bool, ux: string, y: string)
    requires Marked(ux) && AllDigits(y) && ',' !in ux && '.' in ux
    ensures var v := Around(negative, ux, '.', y);
      Separated(v) == if AreGroups(Sign(negative) + ux, y) then Replaced(v, '.', "")
                      else Replaced(Sign(negative) + ux, '.', "") + "." + y
  {
    var v, x := Around(negative, ux, '.', y), Sign(negative) + ux;
    LastMarks(negative, ux, '.', y);
    SplitLast(x, y);
    ConcatParts(x);
    var parts := Split(v, '.');
    assert parts[..|parts| - 1] == Split(x, '.') && parts[|parts| - 1] == y;
    TwoDots(x, y);
  }

  lemma {:induction false} TwoDots(x: string, y: string)
    requires '.' in x
    ensures Count(x + "." + y, '.') > 1
  {
    CountAppend(x + ".", y, '.');
    CountAppend(x, ".", '.');
    CountSome(x, '.');
    assert Count(".", '.') == 1 by { assert "."[1..] == ""; }
  }

  lemma {:induction false} CountSome(s: string, c: char)
    ensures Count(s, c) > 0 <==> c in s
  {
    if s != [] {
      CountSome(s[1..], c);
      assert s == [s[0]] + s[1..];
    }
  }

  lemma DotsReads(negative: bool, ux: string, y: string)
    requires Marked(ux) && AllDigits(y) && ',' !in ux && '.' in ux
    ensures var v := Around(negative, ux, '.', y); ParseMoney(Separated(v)) == Reading(v)
  {
    var v, x := Around(negative, ux, '.', y), Sign(negative) + ux;
    DotsText(negative, ux, y);
    ReadingAround(negative, ux, '.', y);
    DotsDropped(negative, ux, y);
    if AreGroups(x, y) {
      LastGroup(x, y);
      WholeReads(negative, ux, '.', y);
    } else {
      SeparatorReads(negative, ux, '.', y);
    }
  }

  lemma {:induction false} DotsDropped(negative: bool, ux: string, y: string)
    requires Marked(ux) && AllDigits(y) && ',' !in ux
    ensures Replaced(Around(negative, ux, '.', y), '.', "") == Sign(negative) + (DigitsOnly(ux) + y)
    ensures Replaced(Sign(negative) + ux, '.', "") + "." + y == Sign(negative) + (DigitsOnly(ux) + "." + y)
    ensures ',' !in Sign(negative) + ux
  {
    OnlyDots(ux);
    ReplacedAround(negative, ux, '.', y, '.', "");
    ReplacedAppend(Sign(negative), ux, '.', "");
    ReplacedNone(Sign(negative), '.', "");
    assert Sign(negative) + DigitsOnly(ux) + "" + y == Sign(negative) + (DigitsOnly(ux) + y);
    Assoc3(Sign(negative), DigitsOnly(ux), ".", y);
  }

  lemma LastGroup(x: string, y: string)
    requires '.' in x && '.' !in y && AreGroups(x, y)
    ensures |y| == 3
  {
    SplitLast(x, y);
    var parts := Split(x + "." + y, '.');
    assert parts[|parts| - 1] == y;
  }

  // ----- one dot, or no mark

  lemma OneDotReads(negative: bool, ux: string, y: string)
    requires AllDigits(ux) && AllDigits(y)
    ensures var v := Around(negative, ux, '.', y); ParseMoney(Separated(v)) == Reading(v)
  {
    ReadingAround(negative, ux, '.', y);
    OneDotText(negative, ux, y);
    DigitsStay(ux);
    if |Sign(negative) + ux| <= 3 && |y| == 3 {
      WholeReads(negative, ux, '.', y);
    } else {
      SeparatorReads(negative, ux, '.', y);
    }
  }

  lemma OneDotText(negative: bool, ux: string, y: string)
    requires AllDigits(ux) && AllDigits(y)
    ensures ',' !in Sign(negative) + ux && '.' !in Sign(negative) + ux
    ensures Separated(Around(negative, ux, '.', y)) ==
            Sign(negative) + if |Sign(negative) + ux| <= 3 && |y| == 3 then ux + y else ux + "." + y
  {
    DotSeparated(Sign(negative) + ux, y);
    Collections.Assoc(Sign(negative), ux, y);
    Assoc3(Sign(negative), ux, ".", y);
  }

  lemma DigitsText(negative: bool, u: string)
    requires AllDigits(u)
    ensures Separated(Sign(negative) + u) == Sign(negative) + u && Mark(Sign(negative) + u) == -1
  {
    var v := Sign(negative) + u;
    NoneLast(v, ',');
    NoneLast(v, '.');
    ReplacedNone(v, '.', "");
  }

  lemma PlainReads(negative: bool, u: string)
    requires AllDigits(u)
    ensures var v := Sign(negative) + u; ParseMoney(Separated(v)) == Reading(v)
  {
    DigitsText(negative, u);
    DigitsStay(u);
    DigitsOnlyAppend(Sign(negative), u);
    NoDigits(negative, '.');
    assert [] + u == u;
    SignLeads(negative, u);
    WholeBody(negative, u);
  }

  // ----- every packed text

  lemma {:induction false} SeparatedReads(negative: bool, u: string)
    requires Marked(u)
    ensures var v := Sign(negative) + u; ParseMoney(Separated(v)) == Reading(v)
  {
    var v := Sign(negative) + u;
    MarkInside(negative, u);
    if Mark(v) < 0 {
      PlainReads(negative, u);
    } else {
      var m := Mark(v) - |Sign(negative)|;
      Assoc3(Sign(negative), u[..m], [u[m]], u[m + 1..]);
      assert v == Around(negative, u[..m], u[m], u[m + 1..]);
      MarkedReads(negative, u[..m], u[m], u[m + 1..]);
    }
  }

  /** The mark lies behind the sign, and only digits lie behind the mark. */
  lemma MarkInside(negative: bool, u: string)
    requires Marked(u)
    ensures var m := Mark(Sign(negative) + u) - |Sign(negative)|;
      if Mark(Sign(negative) + u) < 0 then AllDigits(u)
      else 0 <= m < |u| && IsMark(u[m]) && AllDigits(u[m + 1..]) && u == u[..m] + [u[m]] + u[m + 1..]
  {
    if Mark(Sign(negative) + u) < 0 {
      NoMarkInside(negative, u);
    } else {
      MarkIsBehindSign(negative, u);
      DigitsBehindMark(negative, u, Mark(Sign(negative) + u) - |Sign(negative)|);
    }
  }

  lemma NoMarkInside(negative: bool, u: string)
    requires Marked(u) && Mark(Sign(negative) + u) < 0
    ensures AllDigits(u)
  {
    var sign, v := Sign(negative), Sign(negative) + u;
    forall j | 0 <= j < |u| ensures IsDigit(u[j]) {
      assert v[|sign| + j] == u[j];
    }
  }

  lemma MarkIsBehindSign(negative: bool, u: string)
    requires Mark(Sign(negative) + u) >= 0
    ensures var m := Mark(Sign(negative) + u) - |Sign(negative)|; 0 <= m < |u| && IsMark(u[m])
  {
    var sign, v := Sign(negative), Sign(negative) + u;
    assert negative ==> v[0] == '-';
    assert v[Mark(v)] == u[Mark(v) - |sign|];
  }

  lemma DigitsBehindMark(negative: bool, u: string, m: nat)
    requires Marked(u) && m < |u| && Mark(Sign(negative) + u) == |Sign(negative)| + m
    ensures AllDigits(u[m + 1..]) && u == u[..m] + [u[m]] + u[m + 1..]
  {
    var sign, v, y := Sign(negative), Sign(negative) + u, u[m + 1..];
    forall j | 0 <= j < |y| ensures IsDigit(y[j]) {
      assert y[j] == u[m + 1 + j] == v[|sign| + m + 1 + j];
    }
  }

  lemma MarkedReads(negative: bool, ux: string, c: char, y: string)
    requires Marked(ux) && IsMark(c) && AllDigits(y)
    ensures var v := Around(negative, ux, c, y); ParseMoney(Separated(v)) == Reading(v)
  {
    if c == ',' {
      CommaReads(negative, ux, y);
    } else if ',' in ux {
      DotReads(negative, ux, y);
    } else if '.' in ux {
      DotsReads(negative, ux, y);
    } else {
      OneDotReads(negative, ux, y);
    }
  }

  lemma {:induction false} ReplacedChars(s: string, c: char)
    ensures forall x: char :: x in Replaced(s, c, "") <==> x in s && x != c
  {
    if s != [] {
      ReplacedChars(s[1..], c);
      HeadMarks(s, c, "", Replaced(s[1..], c, ""));
    }
  }

  /** What passes every check is a sign, digits and marks. */
  lemma PackedShape(raw: string) returns (negative: bool, u: string)
    requires Normalized(raw).Some?
    ensures Packed(raw) == Sign(negative) + u && Marked(u) && Normalized(raw) == Some(Separated(Packed(raw)))
  {
    PackedCharacters(raw);
    negative, u := SignCut(Packed(raw));
  }

  lemma PackedCharacters(raw: string)
    requires Normalized(raw).Some?
    ensures var v := Packed(raw); forall i :: 0 <= i < |v| ==> IsDigit(v[i]) || IsMark(v[i]) || v[i] == '-'
  {
    var v, value := Packed(raw), Trimmed(raw);
    ReplacedChars(value, ' ');
    forall i | 0 <= i < |v| ensures IsDigit(v[i]) || IsMark(v[i]) || v[i] == '-' {
      assert v[i] in v;
      assert v[i] in value;
    }
  }

  lemma SignCut(v: string) returns (negative: bool, u: string)
    requires forall i :: 0 <= i < |v| ==> IsDigit(v[i]) || IsMark(v[i]) || v[i] == '-'
    requires Count(v, '-') <= 1 && ('-' in v ==> "-" <= v)
    ensures v == Sign(negative) + u && Marked(u)
  {
    if "-" <= v {
      negative, u := true, v[1..];
      assert v == "-" + u;
      CountAppend("-", u, '-');
      CountSome(u, '-');
      assert Count("-", '-') == 1 by { assert "-"[1..] == ""; }
    } else {
      negative, u := false, v;
      assert v == "" + u;
    }
  }

  /** The value of whatever is normalised: its digits around its decimal mark, or nothing the money parser accepts. */
  lemma NormalizedReads(raw: string)
    requires Normalized(raw).Some?
    ensures ParseMoney(Normalized(raw).value) == Reading(Packed(raw))
  {
    var negative, u := PackedShape(raw);
    SeparatedReads(negative, u);
  }

  /** A normalised text is accepted by the money parser exactly when the packed text is readable. */
  lemma NormalizedParsesExactly(raw: string)
    requires Normalized(raw).Some?
    ensures ParseMoney(Normalized(raw).value).Some? <==> Readable(Packed(raw))
  {
    NormalizedReads(raw);
  }

  /** Two decimal commas: the normalised text holds two points, and the parser refuses it. */
  lemma TwoCommasRefused(raw: string, front: string, back: string)
    requires raw == "1,2,3" && front == "1,2" && back == "3"
    ensures Normalized(raw) == Some("1.2.3") && ParseMoney("1.2.3").None?
  {
    assert raw == Around(false, front, ',', back);
    OneSign(false, raw);
    assert Sign(false) + raw == raw;
    PlainPasses(raw);
    CommaText(false, front, back);
    FrontOfCommas(front);
    assert Sign(false) + ("1.2" + "." + back) == "1.2.3";
    TwoPointsRefused(false, "1.2", back);
  }

  lemma FrontOfCommas(front: string)
    requires front == "1,2"
    ensures CommaFront(front) == "1.2"
  {
    ReplacedNone(front, '.', "");
    assert front == ("1" + ",") + "2";
    ReplacedAppend("1" + ",", "2", ',', ".");
    ReplacedAppend("1", ",", ',', ".");
    ReplacedOne('1', ',', ".");
    ReplacedOne('2', ',', ".");
    ReplacedOne(',', ',', ".");
  }

  // ----- what is normalised at all

  /** `s[i..j]` is what lies between the white space at both ends of `s`. */
  ghost predicate Core(s: string, i: nat, j: nat) {
    && i <= j <= |s|
    && (forall k :: 0 <= k < i ==> IsSpace(s[k])) && (forall k :: j <= k < |s| ==> IsSpace(s[k]))
    && (i < j ==> !IsSpace(s[i]) && !IsSpace(s[j - 1]))
  }

  lemma CoreBehind(s: string, i: nat, j: nat)
    requires s != [] && IsSpace(s[0]) && Core(s[1..], i, j)
    ensures Core(s, i + 1, j + 1) && s[1..][i..j] == s[i + 1..j + 1]
  {
    assert forall k :: 0 < k < |s| ==> s[1..][k - 1] == s[k];
  }

  lemma CoreInFront(s: string, i: nat, j: nat)
    requires s != [] && IsSpace(s[|s| - 1]) && Core(s[..|s| - 1], i, j)
    ensures Core(s, i, j) && s[..|s| - 1][i..j] == s[i..j]
  {
    var init := s[..|s| - 1];
    assert forall k :: 0 <= k < |init| ==> init[k] == s[k];
  }

  /** Trimming takes white space off both ends and nothing else. */
  lemma {:induction false} TrimsEnds(s: string) returns (i: nat, j: nat)
    ensures Core(s, i, j) && TrimSpace(s) == s[i..j]
    decreases |s|
  {
    if s != [] && IsSpace(s[0]) {
      i, j := TrimsEnds(s[1..]);
      CoreBehind(s, i, j);
      i, j := i + 1, j + 1;
    } else if s != [] && IsSpace(s[|s| - 1]) {
      i, j := TrimsEnds(s[..|s| - 1]);
      CoreInFront(s, i, j);
    } else {
      i, j := 0, |s|;
    }
  }

  lemma {:induction false} CountNone(s: string, c: char)
    ensures Count(s, c) == 0 <==> c !in s
  {
    if s != [] {
      CountNone(s[1..], c);
    }
  }

  lemma {:induction false} BlanksDoNotCount(s: string, c: char)
    requires c != ' '
    ensures Count(Replaced(s, ' ', ""), c) == Count(s, c)
  {
    if s != [] {
      BlanksDoNotCount(s[1..], c);
      var rest := Replaced(s[1..], ' ', "");
      if s[0] == ' ' {
        assert Replaced(s, ' ', "") == rest;
      } else {
        assert Replaced(s, ' ', "") == [s[0]] + rest && ([s[0]] + rest)[1..] == rest;
      }
    }
  }

  /** The minus sign is checked once the blanks are gone; it must be the first character of the trimmed text. */
  lemma {:induction false} MinusFirst(v: string)
    requires v != [] && v[0] != ' '
    ensures var packed := Replaced(v, ' ', "");
      Count(packed, '-') <= 1 && ('-' in packed ==> "-" <= packed) <==> forall i :: 0 < i < |v| ==> v[i] != '-'
  {
    var packed, rest := Replaced(v, ' ', ""), Replaced(v[1..], ' ', "");
    assert packed == [v[0]] + rest && packed[1..] == rest;
    BlanksDoNotCount(v[1..], '-');
    CountNone(v[1..], '-');
    CountNone(packed, '-');
    assert "-" <= packed <==> v[0] == '-';
    assert (forall i :: 0 < i < |v| ==> v[i] != '-') <==> '-' !in v[1..] by {
      assert forall i :: 0 < i < |v| ==> v[1..][i - 1] == v[i];
    }
  }

  /**
   A text is normalised exactly when, percent signs and surrounding white space removed, it is neither empty nor a minus
   alone, consists of digits, commas, points, blanks and minus signs, and has a minus at most as its first character.
   */
  lemma {:induction false} NormalizedWhen(raw: string)
    ensures var v := TrimSpace(Replaced(raw, '%', ""));
      Normalized(raw).Some? <==>
      && v != "" && v != "-" && (forall i :: 0 <= i < |v| ==> v[i] in "0123456789,.- ")
      && (forall i :: 0 < i < |v| ==> v[i] != '-')
  {
    var v := TrimSpace(Replaced(raw, '%', ""));
    var i, j := TrimsEnds(Replaced(raw, '%', ""));
    forall k | 0 <= k < |v| ensures Allowed(v[k]) <==> v[k] in "0123456789,.- " {
      AllowedListed(v[k]);
    }
    if v != "" {
      MinusFirst(v);
    }
  }

  lemma AllowedListed(c: char)
    ensures Allowed(c) <==> c in "0123456789,.- "
  {
    var listed := "0123456789,.- ";
    assert forall i :: 0 <= i < 10 ==> listed[i] as int == 48 + i;
    if IsDigit(c) {
      assert listed[c as int - 48] == c;
    }
    assert listed[10..] == ",.- " && listed == listed[..10] + listed[10..];
  }
}

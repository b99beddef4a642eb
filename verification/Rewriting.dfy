/**
 Replacing every match of a regular expression from the left. A matcher tells where a match at the head of a text ends;
 the lemmas say exactly when a rewriting changes one given piece of a text and nothing else.
 */
module Rewriting {
  import opened Wrappers
  import Collections

  type Matcher = string -> Option<nat>

  /** A match at the head of `s`; an empty one is no match. */
  predicate Ends(m: Matcher, s: string) {
    m(s).Some? && 0 < m(s).value <= |s|
  }

  function Shift(place: Option<nat>, distance: nat): Option<nat> {
    match place case None => None case Some(i) => Some(distance + i)
  }

  /** Every match, from the left, replaced. */
  function Rewrite(m: Matcher, put: string, s: string): string
    decreases |s|
  {
    if s == [] then []
    else if Ends(m, s) then put + Rewrite(m, put, s[m(s).value..])
    else [s[0]] + Rewrite(m, put, s[1..])
  }

  /** Where the first match begins. */
  function Place(m: Matcher, s: string): (i: Option<nat>)
    ensures i.Some? ==> i.value < |s|
    decreases |s|
  {
    if s == [] then None
    else if Ends(m, s) then Some(0)
    else Shift(Place(m, s[1..]), 1)
  }

  /** Where the first match begins that does not read `put` already. */
  function FirstChange(m: Matcher, put: string, s: string): (i: Option<nat>)
    ensures i.Some? ==> i.value < |s|
    decreases |s|
  {
    if s == [] then None
    else if !Ends(m, s) then Shift(FirstChange(m, put, s[1..]), 1)
    else if s[..m(s).value] == put then Shift(FirstChange(m, put, s[m(s).value..]), m(s).value)
    else Some(0)
  }

  // ----- up to the first match

  lemma {:induction false} NoPlace(m: Matcher, put: string, s: string)
    requires Place(m, s).None?
    ensures Rewrite(m, put, s) == s
    decreases |s|
  {
    if s != [] {
      NoPlace(m, put, s[1..]);
    }
  }

  /** A match begins at `i`; up to it the text is copied, then comes `put`. */
  ghost predicate SplitsAt(m: Matcher, put: string, s: string, i: nat) {
    && i <= |s| && Ends(m, s[i..])
    && Rewrite(m, put, s) == s[..i] + (put + Rewrite(m, put, s[i..][m(s[i..]).value..]))
  }

  lemma SplitsHere(m: Matcher, put: string, s: string)
    requires Ends(m, s)
    ensures s[0..] == s && SplitsAt(m, put, s, 0)
  {
    assert s[0..] == s;
    assert s[..0] + (put + Rewrite(m, put, s[m(s).value..])) == put + Rewrite(m, put, s[m(s).value..]);
  }

  lemma CopyHead(m: Matcher, put: string, s: string, i: nat)
    requires s != [] && !Ends(m, s) && SplitsAt(m, put, s[1..], i)
    ensures s[1 + i..] == s[1..][i..] && SplitsAt(m, put, s, 1 + i)
  {
    assert s[1 + i..] == s[1..][i..];
    assert s[..1 + i] == [s[0]] + s[1..][..i];
    Collections.Assoc([s[0]], s[1..][..i], put + Rewrite(m, put, s[1 + i..][m(s[1 + i..]).value..]));
  }

  lemma CopyPut(m: Matcher, put: string, s: string, n: nat, i: nat)
    requires Ends(m, s) && m(s).value == n && s[..n] == put && SplitsAt(m, put, s[n..], i)
    ensures s[n + i..] == s[n..][i..] && SplitsAt(m, put, s, n + i)
  {
    assert s[n + i..] == s[n..][i..];
    assert s[..n + i] == put + s[n..][..i];
    Collections.Assoc(put, s[n..][..i], put + Rewrite(m, put, s[n + i..][m(s[n + i..]).value..]));
  }

  lemma {:induction false} UpToPlace(m: Matcher, put: string, s: string)
    requires Place(m, s).Some?
    ensures SplitsAt(m, put, s, Place(m, s).value)
    decreases |s|
  {
    if Ends(m, s) {
      SplitsHere(m, put, s);
    } else {
      UpToPlace(m, put, s[1..]);
      CopyHead(m, put, s, Place(m, s[1..]).value);
    }
  }

  lemma {:induction false} NoChange(m: Matcher, put: string, s: string)
    requires FirstChange(m, put, s).None?
    ensures Rewrite(m, put, s) == s
    decreases |s|
  {
    if s != [] {
      if Ends(m, s) {
        NoChange(m, put, s[m(s).value..]);
        assert s == s[..m(s).value] + s[m(s).value..];
      } else {
        NoChange(m, put, s[1..]);
      }
    }
  }

  /** The text up to the first change is copied, then comes `put`. */
  lemma {:induction false} UpToChange(m: Matcher, put: string, s: string)
    requires FirstChange(m, put, s).Some?
    ensures var i := FirstChange(m, put, s).value;
      SplitsAt(m, put, s, i) && s[i..][..m(s[i..]).value] != put
    decreases |s|
  {
    if !Ends(m, s) {
      UpToChange(m, put, s[1..]);
      CopyHead(m, put, s, FirstChange(m, put, s[1..]).value);
    } else if s[..m(s).value] == put {
      var n := m(s).value;
      UpToChange(m, put, s[n..]);
      CopyPut(m, put, s, n, FirstChange(m, put, s[n..]).value);
    } else {
      SplitsHere(m, put, s);
    }
  }

  /** Where nothing matches, the first change and the first match come from behind. */
  lemma {:induction false} SkipsText(m: Matcher, put: string, a: string, x: string)
    requires forall j: nat :: j < |a| ==> !Ends(m, a[j..] + x)
    ensures FirstChange(m, put, a + x) == Shift(FirstChange(m, put, x), |a|)
    ensures Place(m, a + x) == Shift(Place(m, x), |a|)
  {
    if a == [] {
      assert a + x == x;
    } else {
      assert a[0..] + x == a + x && (a + x)[1..] == a[1..] + x;
      assert forall j: nat :: j < |a[1..]| ==> a[1..][j..] == a[1 + j..];
      SkipsText(m, put, a[1..], x);
    }
  }

  function Changes(m: Matcher, put: string): Matcher {
    s => FirstChange(m, put, s)
  }

  /** With `a` in front, what is found is found behind it, whatever comes there. */
  ghost predicate Skips(find: Matcher, a: string) {
    forall x :: find(a + x) == Shift(find(x), |a|)
  }

  lemma SkipsNothing(find: Matcher)
    ensures Skips(find, [])
  {
    forall x ensures find([] + x) == Shift(find(x), 0) {
      assert [] + x == x;
    }
  }

  lemma SkipsBoth(find: Matcher, a: string, b: string)
    requires Skips(find, a) && Skips(find, b)
    ensures Skips(find, a + b)
  {
    forall x ensures find(a + b + x) == Shift(find(x), |a + b|) {
      Collections.Assoc(a, b, x);
    }
  }

  // ----- one piece and nothing else

  /** No proper end of `put` is a beginning of it, so two places where it stands lie apart. */
  ghost predicate Unbordered(put: string) {
    put != [] && forall k :: 0 < k < |put| ==> !(put[k..] <= put)
  }

  /** Where `put` stands already, a match reads just that. */
  ghost predicate Rigid(m: Matcher, put: string) {
    forall s :: Ends(m, s) && put <= s ==> s[..m(s).value] == put
  }

  lemma ShiftedBorder(put: string, u: string, z: string)
    requires put <= u && z + put <= u && |z| < |put|
    ensures put[|z|..] <= put
  {
    var k := |z|;
    assert u[..|put|] == put && (z + put)[k..] == put;
    assert put[k..] == u[k..|put|] == (z + put)[k..|put|] == put[..|put| - k];
  }

  lemma FrontOf(x: string, y: string, p: string, q: string)
    requires x + p == y + q && |x| <= |y|
    ensures x == y[..|x|] && p == y[|x|..] + q
  {
    assert x == (x + p)[..|x|] == (y + q)[..|x|];
    assert p == (x + p)[|x|..] == (y + q)[|x|..];
  }

  /** One text with `put` at two places: the stretch between them begins with `put`, or `put` borders itself. */
  lemma TwoPlaces(put: string, x: string, y: string, p: string, q: string)
    requires x + (put + p) == y + (put + q) && |x| < |y|
    ensures put <= y[|x|..] || (|y| - |x| < |put| && put[|y| - |x|..] <= put)
  {
    var z, u := y[|x|..], put + p;
    FrontOf(x, y, put + p, put + q);
    assert put <= u && u[..|put|] == put;
    Collections.Assoc(z, put, q);
    assert z + put <= u && u[..|z|] == z;
    if |z| >= |put| {
      assert put == u[..|put|] == z[..|put|];
    } else {
      ShiftedBorder(put, u, z);
    }
  }

  lemma DifferentPlaces(put: string, x: string, y: string, p: string, q: string)
    requires Unbordered(put) && |x| < |y| && !(put <= y[|x|..])
    ensures x + (put + p) != y + (put + q)
  {
    if x + (put + p) == y + (put + q) {
      TwoPlaces(put, x, y, p, q);
    }
  }

  lemma SamePlaceRest(put: string, x: string, p: string, q: string)
    ensures x + (put + p) == x + (put + q) <==> p == q
  {
    assert (x + (put + p))[|x| + |put|..] == p && (x + (put + q))[|x| + |put|..] == q;
  }

  lemma Sliced(a: string, w: string, b: string, i: nat)
    requires i <= |a|
    ensures (a + w + b)[|a|..] == w + b && (a + w + b)[..i] == a[..i] && a[i..] <= (a + w + b)[i..]
    ensures (a + w + b)[|a| + |w|..] == b
  {
    assert (a + w + b)[i..] == a[i..] + (w + b);
  }

  // ----- exactly when one piece changes and nothing else

  /** The first and only match that changes anything is `w`. */
  predicate OnlyChange(m: Matcher, put: string, a: string, w: string, b: string) {
    FirstChange(m, put, a + w + b) == Some(|a|) && m(w + b) == Some(|w|) && FirstChange(m, put, b).None?
  }

  lemma {:induction false} UnchangedExactly(m: Matcher, put: string, s: string)
    requires Unbordered(put) && Rigid(m, put)
    ensures Rewrite(m, put, s) == s <==> FirstChange(m, put, s).None?
  {
    if FirstChange(m, put, s).None? {
      NoChange(m, put, s);
    } else {
      var i := FirstChange(m, put, s).value;
      UpToChange(m, put, s);
      NotPutThere(m, put, s, i);
      var rest := Rewrite(m, put, s[i..][m(s[i..]).value..]);
      assert (s[..i] + (put + rest))[i..] == put + rest;
      assert put <= put + rest;
    }
  }

  /** The rewriting changes `w` to `put` and nothing else exactly when `w` is the only match that changes anything. */
  lemma {:induction false} OnlyChangeExactly(m: Matcher, put: string, a: string, w: string, b: string)
    requires Unbordered(put) && Rigid(m, put) && w != [] && w != put && !(put <= w + b)
    requires m(w + b) == Some(|w|) || m(w + b).None?
    ensures Rewrite(m, put, a + w + b) == a + (put + b) <==> OnlyChange(m, put, a, w, b)
  {
    var first := FirstChange(m, put, a + w + b);
    if first.None? {
      NoChange(m, put, a + w + b);
      Unput(put, a, w, b);
    } else if first.value < |a| {
      ChangedBefore(m, put, a, w, b);
    } else if first.value > |a| {
      ChangedBehind(m, put, a, w, b);
    } else {
      ChangedThere(m, put, a, w, b);
    }
  }

  lemma {:induction false} ChangedBefore(m: Matcher, put: string, a: string, w: string, b: string)
    requires Unbordered(put) && Rigid(m, put)
    requires FirstChange(m, put, a + w + b).Some? && FirstChange(m, put, a + w + b).value < |a|
    ensures Rewrite(m, put, a + w + b) != a + (put + b)
  {
    var s := a + w + b;
    var i := FirstChange(m, put, s).value;
    UpToChange(m, put, s);
    NotPutThere(m, put, s, i);
    Sliced(a, w, b, i);
    NotAhead(put, s[i..], a[i..]);
    DifferentPlaces(put, s[..i], a, Rewrite(m, put, s[i..][m(s[i..]).value..]), b);
  }

  lemma {:induction false} ChangedBehind(m: Matcher, put: string, a: string, w: string, b: string)
    requires Unbordered(put) && Rigid(m, put) && !(put <= w + b)
    requires FirstChange(m, put, a + w + b).Some? && FirstChange(m, put, a + w + b).value > |a|
    ensures Rewrite(m, put, a + w + b) != a + (put + b)
  {
    var s := a + w + b;
    var i := FirstChange(m, put, s).value;
    UpToChange(m, put, s);
    NotBehind(put, s, a, w, b, i);
    DifferentPlaces(put, a, s[..i], b, Rewrite(m, put, s[i..][m(s[i..]).value..]));
  }

  lemma {:induction false} ChangedThere(m: Matcher, put: string, a: string, w: string, b: string)
    requires Unbordered(put) && Rigid(m, put) && FirstChange(m, put, a + w + b) == Some(|a|)
    requires m(w + b) == Some(|w|) || m(w + b).None?
    ensures Rewrite(m, put, a + w + b) == a + (put + b) <==> OnlyChange(m, put, a, w, b)
  {
    var s := a + w + b;
    UpToChange(m, put, s);
    Sliced(a, w, b, |a|);
    assert s[..|a|] == a && (w + b)[|w|..] == b;
    SamePlaceRest(put, a, Rewrite(m, put, b), b);
    UnchangedExactly(m, put, b);
  }

  lemma Unput(put: string, a: string, w: string, b: string)
    requires !(put <= w + b)
    ensures a + w + b != a + (put + b)
  {
    assert (a + w + b)[|a|..] == w + b && (a + (put + b))[|a|..] == put + b;
    assert put <= put + b;
  }

  lemma NotPutThere(m: Matcher, put: string, s: string, i: nat)
    requires Rigid(m, put) && i < |s| && Ends(m, s[i..]) && s[i..][..m(s[i..]).value] != put
    ensures !(put <= s[i..])
  {
  }

  lemma NotAhead(put: string, s: string, z: string)
    requires z <= s && !(put <= s)
    ensures !(put <= z)
  {
    if put <= z {
      PrefixThrough(put, z, s);
    }
  }

  lemma PrefixThrough(put: string, z: string, s: string)
    requires put <= z <= s
    ensures put <= s
  {
    assert s[..|put|] == z[..|put|];
  }

  lemma NotBehind(put: string, s: string, a: string, w: string, b: string, i: nat)
    requires s == a + w + b && |a| < i <= |s| && !(put <= w + b)
    ensures |s[..i]| == i && !(put <= s[..i][|a|..])
  {
    assert s[..i][|a|..] <= w + b by { assert s[|a|..] == w + b; assert s[..i][|a|..] == (w + b)[..i - |a|]; }
    NotAhead(put, w + b, s[..i][|a|..]);
  }

  // ----- exactly when one piece is the only match

  predicate OnlyMatch(m: Matcher, a: string, w: string, b: string) {
    Place(m, a + w + b) == Some(|a|) && m(w + b) == Some(|w|) && Place(m, b).None?
  }

  /** The only match is replaced and nothing else. */
  lemma {:induction false} OnlyMatchReplaced(m: Matcher, put: string, a: string, w: string, b: string)
    requires OnlyMatch(m, a, w, b)
    ensures Rewrite(m, put, a + w + b) == a + (put + b)
  {
    var s := a + w + b;
    Sliced(a, w, b, |a|);
    UpToPlace(m, put, s);
    NoPlace(m, put, b);
    assert s[..|a|] == a && (w + b)[|w|..] == b;
  }

  lemma {:induction false} AtLeastOne(m: Matcher, put: string, s: string)
    requires Place(m, s).Some?
    ensures |Rewrite(m, put, s)| >= |put|
  {
    UpToPlace(m, put, s);
  }

  /** A `put` longer than the whole text tells where it came from. */
  lemma {:induction false} OnlyMatchNeeded(m: Matcher, put: string, a: string, w: string, b: string)
    requires Unbordered(put) && |put| > |a + w + b|
    requires Rewrite(m, put, a + w + b) == a + (put + b)
    ensures OnlyMatch(m, a, w, b)
  {
    var s := a + w + b;
    if Place(m, s).None? {
      NoPlace(m, put, s);
    } else {
      UpToPlace(m, put, s);
      var i := Place(m, s).value;
      var rest := s[i..][m(s[i..]).value..];
      PlacesMeet(put, s[..i], a, Rewrite(m, put, rest), b);
      SamePlaceRest(put, a, Rewrite(m, put, rest), b);
      if Place(m, rest).Some? {
        AtLeastOne(m, put, rest);
      } else {
        NoPlace(m, put, rest);
        Sliced(a, w, b, |a|);
      }
    }
  }

  lemma PlacesMeet(put: string, x: string, y: string, p: string, q: string)
    requires Unbordered(put) && |put| > |x| && |put| > |y| && x + (put + p) == y + (put + q)
    ensures x == y
  {
    if |x| < |y| {
      DifferentPlaces(put, x, y, p, q);
    } else if |y| < |x| {
      DifferentPlaces(put, y, x, q, p);
    } else {
      FrontOf(x, y, put + p, put + q);
    }
  }
}

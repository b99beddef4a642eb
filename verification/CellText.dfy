/**
 The text of one worksheet cell: the regular expressions the patcher uses, as matchers; what it makes of the
 text between start tag and end tag; and cells that come back without the amount.
 */
module CellText {
  import opened Wrappers
  import Collections
  import DecimalText
  import opened Rewriting

  // ----- searching

  predicate At(s: string, i: nat, x: string) {
    i + |x| <= |s| && s[i..i + |x|] == x
  }

  /** `strings.Index`. */
  function Index(s: string, x: string): (r: Option<nat>)
    ensures r.Some? ==> r.value + |x| <= |s|
  {
    if x <= s then Some(0)
    else if s == [] then None
    else Shifted(Index(s[1..], x), 1)
  }

  /** It is the first place, if there is any. */
  lemma {:induction false} IndexFinds(s: string, x: string)
    ensures Index(s, x).Some? ==> At(s, Index(s, x).value, x) && forall j: nat :: j < Index(s, x).value ==> !At(s, j, x)
    ensures Index(s, x).None? ==> forall j: nat :: !At(s, j, x)
  {
    if x <= s {
      assert At(s, 0, x);
    } else if s != [] {
      IndexFinds(s[1..], x);
      NotAtHead(s, x);
    }
  }

  lemma NotAtHead(s: string, x: string)
    requires s != [] && !(x <= s)
    ensures forall j: nat :: At(s, j, x) <==> j > 0 && At(s[1..], j - 1, x)
  {
    forall j: nat ensures At(s, j, x) <==> j > 0 && At(s[1..], j - 1, x) {
      if j > 0 && j + |x| <= |s| {
        assert s[1..][j - 1..j - 1 + |x|] == s[j..j + |x|];
      }
    }
  }

  function Shifted(place: Option<nat>, distance: nat): Option<nat> {
    match place case None => None case Some(i) => Some(distance + i)
  }

  /** `strings.Replace(s, find, put, 1)`. */
  function ReplaceFirst(s: string, find: string, put: string): string {
    match Index(s, find)
    case None => s
    case Some(i) => s[..i] + put + s[i + |find|..]
  }

  // ----- the regular expressions

  /** `\s`. */
  predicate IsSpace(c: char) {
    c == '\t' || c == '\n' || c == '\U{000C}' || c == '\r' || c == ' '
  }

  /** `[^>]*` runs up to the first `>`; the element goes on to its closing tag, or else closes there. */
  function AfterAttributes(rest: string, close: string): (r: Option<nat>)
    requires rest != []
    ensures r.Some? ==> r.value <= |rest|
  {
    var q := 1 + DecimalText.IndexOf(rest[1..], '>');
    if q == |rest| then None
    else if Index(rest[q + 1..], close).Some? then Shifted(Index(rest[q + 1..], close), q + 1 + |close|)
    else if q >= 2 && rest[q - 1] == '/' then Some(q + 1)
    else None
  }

  /**
   Where a match ends that has read `<name` so far: attributes and `/>`, or `>`, anything, and the first closing tag.
   */
  function AfterName(rest: string, close: string): (r: Option<nat>)
    requires rest != []
    ensures r.Some? ==> r.value <= |rest|
  {
    if IsSpace(rest[0]) then AfterAttributes(rest, close)
    else if "/>" <= rest then Some(2)
    else if rest[0] == '>' then Shifted(Index(rest[1..], close), 1 + |close|)
    else None
  }

  function Close(name: string): string {
    "</" + name + ">"
  }

  /** `<name(?:\s[^>]*)?(?:/>|>.*?</name>)` at the head of `s`: the end of the match. */
  function ElementEnd(s: string, name: string): (r: Option<nat>)
    ensures r.Some? ==> 0 < r.value <= |s| && s[0] == '<'
  {
    var open := "<" + name;
    if !(open <= s) || |s| == |open| then None
    else
      Shifted(AfterName(s[|open|..], Close(name)), |open|)
  }

  /** `MatchString`. */
  predicate HasElement(s: string, name: string) {
    s != [] && (ElementEnd(s, name).Some? || HasElement(s[1..], name))
  }

  /** `ReplaceAllString`, for a replacement without `$`. */
  function ReplaceElements(s: string, name: string, put: string): string {
    if s == [] then []
    else
      match ElementEnd(s, name)
      case Some(e) => put + ReplaceElements(s[e..], name, put)
      case None => [s[0]] + ReplaceElements(s[1..], name, put)
  }

  function Spaces(s: string): (n: nat)
    ensures n <= |s|
  {
    if s != [] && IsSpace(s[0]) then 1 + Spaces(s[1..]) else 0
  }

  /** `\s+t=(?:"[^"]*"|'[^']*')` at the head of `s`: the end of the match. */
  function TypeEnd(s: string): (r: Option<nat>)
    ensures r.Some? ==> 0 < r.value <= |s| && IsSpace(s[0])
  {
    var n := Spaces(s);
    if n == 0 || !("t=" <= s[n..]) || |s| == n + 2 then None
    else
      var quote := s[n + 2];
      var q := DecimalText.IndexOf(s[n + 3..], quote);
      if (quote == '"' || quote == '\'') && n + 3 + q < |s| then Some(n + 4 + q) else None
  }

  const INLINE: string := " t=\"inlineStr\""

  function Retype(s: string): string {
    if s == [] then []
    else
      match TypeEnd(s)
      case Some(e) => INLINE + Retype(s[e..])
      case None => [s[0]] + Retype(s[1..])
  }

  // ----- what the patcher does to the text of a cell

  const CLOSE: string := "</c>"

  /** `<c …/>` written as `<c …></c>`, whatever the tag is called. */
  function OpenedUp(raw: string): (r: string)
    ensures '>' in raw ==> '>' in r
  {
    if |raw| >= 2 && raw[|raw| - 2..] == "/>" then
      var r := raw[..|raw| - 2] + "></c>";
      assert r[|raw| - 2] == '>';
      r
    else raw
  }

  predicate IsText(kind: string) {
    kind == "s" || kind == "inlineStr" || kind == "str"
  }

  predicate IsRetyped(kind: string) {
    kind == "s" || kind == "str"
  }

  /** The type attribute is rewritten up to the first `>`. */
  function Retyped(kind: string, raw: string): string
    requires '>' in raw
  {
    if IsRetyped(kind) then
      var end := DecimalText.IndexOf(raw, '>');
      Retype(raw[..end]) + raw[end..]
    else raw
  }

  function Element(kind: string, amount: string): string {
    if IsText(kind) then "<is><t>" + amount + "</t></is>" else "<v>" + amount + "</v>"
  }

  function Substituted(kind: string, raw: string, element: string): string {
    if IsText(kind) && HasElement(raw, "is") then ReplaceElements(raw, "is", element)
    else if HasElement(raw, "v") then ReplaceElements(raw, "v", element)
    else ReplaceFirst(raw, CLOSE, element + CLOSE)
  }

  function PatchedText(kind: string, raw: string, amount: string): string
    requires '>' in raw
  {
    Substituted(kind, Retyped(kind, OpenedUp(raw)), Element(kind, amount))
  }

  // ----- the cell that the text denotes

  datatype Body = Empty | Content(text: string, space: string)

  /** A cell element: its tag as written, prefix included, the text of its attributes, and its content. */
  datatype Shell = Shell(tag: string, attributes: string, body: Body)

  function StartTag(tag: string, attributes: string): string {
    "<" + tag + attributes + ">"
  }

  function EndTag(tag: string, space: string): string {
    "</" + tag + space + ">"
  }

  function PrintShell(cell: Shell): (raw: string)
    ensures '>' in raw
  {
    match cell.body
    case Empty =>
      var raw := "<" + cell.tag + cell.attributes + "/>";
      assert raw[|raw| - 1] == '>';
      raw
    case Content(text, space) =>
      var raw := StartTag(cell.tag, cell.attributes) + text + EndTag(cell.tag, space);
      assert raw[|raw| - 1] == '>';
      raw
  }

  predicate NameCharacter(c: char) {
    !IsSpace(c) && c != '<' && c != '>' && c != '/'
  }

  /** The local name is `c`, with or without a prefix. */
  predicate NamesCell(tag: string) {
    && (forall i :: 0 <= i < |tag| ==> NameCharacter(tag[i]))
    && (tag == "c" || (|tag| >= 3 && tag[|tag| - 2] == ':' && tag[|tag| - 1] == 'c'))
  }

  /** What XML guarantees: no `<` inside a start tag and nothing but blanks after the name in an end tag. */
  predicate IsShell(cell: Shell) {
    && NamesCell(cell.tag) && '<' !in cell.attributes
    && (cell.body.Content? ==> forall i :: 0 <= i < |cell.body.space| ==> IsSpace(cell.body.space[i]))
  }

  function TextOf(body: Body): string {
    match body case Empty => "" case Content(text, _) => text
  }

  function SpaceOf(body: Body): string {
    match body case Empty => "" case Content(_, space) => space
  }

  function NewAttributes(kind: string, attributes: string): string {
    if IsRetyped(kind) then
      var end := DecimalText.IndexOf(attributes, '>');
      Retype(attributes[..end]) + attributes[end..]
    else attributes
  }

  /** The expression that finds something to replace in the content, the inline string first. */
  function Expression(kind: string, text: string): Option<string> {
    if IsText(kind) && HasElement(text, "is") then Some("is")
    else if HasElement(text, "v") then Some("v")
    else None
  }

  function Slots(name: string): Matcher {
    s => ElementEnd(s, name)
  }

  function Types(): Matcher {
    s => TypeEnd(s)
  }

  // ----- reading a text piece by piece

  /** An end tag as the code sees it: `<` at its head only, `>` at its end only. */
  predicate Ending(e: string) {
    && |e| >= 4 && e[0] == '<' && e[1] == '/' && '<' !in e[1..]
    && e[|e| - 1] == '>' && '>' !in e[..|e| - 1] && e[|e| - 2] != '/'
  }

  /** `</` and a name: `<` stands at the head only. */
  predicate Closer(close: string) {
    |close| >= 3 && close[0] == '<' && '<' !in close[1..]
  }

  lemma {:induction false} IndexUnique(s: string, x: string, i: nat)
    requires At(s, i, x) && forall j: nat :: j < i ==> !At(s, j, x)
    ensures Index(s, x) == Some(i)
  {
    IndexFinds(s, x);
  }

  lemma AtCharacters(s: string, i: nat, x: string)
    ensures At(s, i, x) <==> i + |x| <= |s| && forall k :: 0 <= k < |x| ==> s[i + k] == x[k]
  {
    if i + |x| <= |s| {
      var t := s[i..i + |x|];
      assert forall k :: 0 <= k < |x| ==> t[k] == s[i + k];
    }
  }

  lemma OnlyHead(x: string)
    requires x != [] && '<' !in x[1..]
    ensures forall k :: 1 <= k < |x| ==> x[k] != '<'
  {
    assert forall k :: 1 <= k < |x| ==> x[1..][k - 1] == x[k];
  }

  lemma AtEnding(s: string, e: string, close: string, j: nat)
    requires Closer(close) && Ending(e) && !At(e, 0, close)
    ensures At(s + e, j, close) <==> At(s, j, close)
  {
    var t := s + e;
    AtCharacters(t, j, close);
    AtCharacters(s, j, close);
    AtCharacters(e, 0, close);
    OnlyHead(close);
    OnlyHead(e);
    assert forall k :: 0 <= k < |e| ==> t[|s| + k] == e[k];
    assert t[|s|] == '<';
    assert j < |s| < j + |close| && j + |close| <= |t| ==> t[j + (|s| - j)] != close[|s| - j];
    assert |s| < j && j + |close| <= |t| ==> t[j + 0] == e[j - |s|];
  }

  /** No closing tag begins in or reaches into the end tag. */
  lemma {:induction false} IndexEnding(s: string, e: string, close: string)
    requires Closer(close) && Ending(e) && !At(e, 0, close)
    ensures Index(s + e, close) == Index(s, close)
  {
    var t := s + e;
    forall j: nat ensures At(t, j, close) <==> At(s, j, close) {
      AtEnding(s, e, close, j);
    }
    IndexFinds(s, close);
    match Index(s, close) {
      case Some(i) => IndexUnique(t, close, i);
      case None => IndexAbsent(t, close);
    }
  }

  lemma FirstIn(rest: string, e: string)
    requires rest != [] && Ending(e)
    ensures DecimalText.IndexOf((rest + e)[1..], '>') ==
            if '>' in rest[1..] then DecimalText.IndexOf(rest[1..], '>') else |rest| - 1 + |e| - 1
  {
    assert (rest + e)[1..] == rest[1..] + e;
    IndexOfAppend(rest[1..], e, '>');
    IndexOfLast(e, '>');
  }

  lemma {:induction false} IndexOfAppend(a: string, b: string, c: char)
    ensures DecimalText.IndexOf(a + b, c) == if c in a then
            DecimalText.IndexOf(a, c) else |a| + DecimalText.IndexOf(b, c)
  {
    if a == [] {
      assert a + b == b;
    } else {
      assert (a + b)[1..] == a[1..] + b;
      assert c in a <==> c == a[0] || c in a[1..];
      IndexOfAppend(a[1..], b, c);
    }
  }

  lemma {:induction false} IndexOfLast(e: string, c: char)
    requires e != [] && e[|e| - 1] == c && c !in e[..|e| - 1]
    ensures DecimalText.IndexOf(e, c) == |e| - 1
  {
    var t := e[..|e| - 1];
    assert forall k :: 0 <= k < |t| ==> t[k] != c && e[k] == t[k];
  }

  /** With the name read, the end tag of the cell changes nothing: no match reaches into it. */
  lemma AfterNameEnding(rest: string, e: string, close: string)
    requires rest != [] && Closer(close) && Ending(e) && !At(e, 0, close)
    ensures AfterName(rest + e, close) == AfterName(rest, close)
  {
    assert (rest + e)[0] == rest[0];
    if IsSpace(rest[0]) {
      AttributesEnding(rest, e, close);
    } else {
      BareNameEnding(rest, e, close);
    }
  }

  lemma BareNameEnding(rest: string, e: string, close: string)
    requires rest != [] && !IsSpace(rest[0]) && Closer(close) && Ending(e) && !At(e, 0, close)
    ensures AfterName(rest + e, close) == AfterName(rest, close)
  {
    SlashEnding(rest, e);
    assert (rest + e)[0] == rest[0] && (rest + e)[1..] == rest[1..] + e;
    IndexEnding(rest[1..], e, close);
  }

  lemma SlashEnding(rest: string, e: string)
    requires rest != [] && Ending(e)
    ensures "/>" <= rest + e <==> "/>" <= rest
  {
    var t := rest + e;
    assert "/>" <= t <==> |t| >= 2 && t[0] == '/' && t[1] == '>';
    assert "/>" <= rest <==> |rest| >= 2 && rest[0] == '/' && rest[1] == '>';
  }

  lemma AttributesEnding(rest: string, e: string, close: string)
    requires rest != [] && Closer(close) && Ending(e) && !At(e, 0, close)
    ensures AfterAttributes(rest + e, close) == AfterAttributes(rest, close)
  {
    FirstIn(rest, e);
    if '>' in rest[1..] {
      ClosedAttributes(rest, e, close, 1 + DecimalText.IndexOf(rest[1..], '>'));
    } else {
      OpenAttributes(rest, e, close);
    }
  }

  lemma ClosedAttributes(rest: string, e: string, close: string, q: nat)
    requires rest != [] && Closer(close) && Ending(e) && !At(e, 0, close) && '>' in rest[1..]
    requires q == 1 + DecimalText.IndexOf(rest[1..], '>') == 1 + DecimalText.IndexOf((rest + e)[1..], '>')
    ensures AfterAttributes(rest + e, close) == AfterAttributes(rest, close)
  {
    assert (rest + e)[q + 1..] == rest[q + 1..] + e && (rest + e)[q - 1] == rest[q - 1];
    IndexEnding(rest[q + 1..], e, close);
  }

  /** An unfinished tag would close at the end tag of the cell, but neither with `/>` nor before a closing tag. */
  lemma OpenAttributes(rest: string, e: string, close: string)
    requires rest != [] && Closer(close) && Ending(e) && '>' !in rest[1..]
    requires DecimalText.IndexOf((rest + e)[1..], '>') == |rest| - 1 + |e| - 1
    ensures AfterAttributes(rest + e, close).None? && AfterAttributes(rest, close).None?
  {
    var t := rest + e;
    assert t[|t| - 2] == e[|e| - 2];
    NothingCloses(t[|t|..], close);
  }

  lemma {:induction false} NothingCloses(s: string, close: string)
    requires s == [] && Closer(close)
    ensures Index(s, close).None?
  {
  }

  lemma OpenEnding(s: string, e: string, name: string)
    requires name != [] && '<' !in name && name[0] != '/' && Ending(e)
    ensures "<" + name <= s + e <==> "<" + name <= s
  {
    var open, t := "<" + name, s + e;
    assert |t| >= |open| && |s| < |open| ==> t[|s|] == '<';
    assert s == [] ==> t[1] == '/';
    assert |s| >= |open| ==> t[..|open|] == s[..|open|];
    assert forall k :: 1 <= k < |open| ==> open[k] == name[k - 1];
    assert open <= t ==> forall k :: 0 <= k < |open| ==> t[k] == open[k];
  }

  predicate Known(name: string) {
    name == "v" || name == "is"
  }

  /** Where an element ends does not depend on the end tag of the cell behind it. */
  lemma ElementEnding(s: string, e: string, name: string)
    requires Known(name) && Ending(e) && !At(e, 0, Close(name))
    ensures ElementEnd(s + e, name) == ElementEnd(s, name)
  {
    var open := "<" + name;
    OpenEnding(s, e, name);
    if open <= s && |s| == |open| {
      NothingRead(s, e, name);
    } else if open <= s {
      var rest := s[|open|..];
      assert (s + e)[|open|..] == rest + e;
      AfterNameEnding(rest, e, Close(name));
      ElementReads(s, name);
      ElementReads(s + e, name);
    }
  }

  lemma ElementReads(s: string, name: string)
    requires "<" + name <= s && |s| > |name| + 1
    ensures ElementEnd(s, name) == Shifted(AfterName(s[|name| + 1..], Close(name)), |name| + 1)
  {
  }

  lemma NothingRead(s: string, e: string, name: string)
    requires "<" + name <= s && |s| == |name| + 1 && Ending(e)
    ensures ElementEnd(s + e, name).None? && ElementEnd(s, name).None?
  {
    var rest := (s + e)[|s|..];
    assert rest == e;
    assert rest[0] == '<';
  }

  lemma {:induction false} NoElements(s: string, name: string, put: string)
    requires '<' !in s
    ensures ReplaceElements(s, name, put) == s && !HasElement(s, name)
  {
    if s != [] {
      NoElements(s[1..], name, put);
    }
  }

  lemma NoOpen(e: string, name: string)
    requires Known(name) && Ending(e)
    ensures ElementEnd(e, name).None?
  {
    OpenEnding([], e, name);
    assert [] + e == e;
  }

  lemma {:induction false} EndingHasNone(e: string, name: string, put: string)
    requires Known(name) && Ending(e) && !At(e, 0, Close(name))
    ensures ReplaceElements(e, name, put) == e && !HasElement(e, name)
  {
    NoOpen(e, name);
    HeadTail(e);
    PlainStep(e[0], e[1..], name, put);
    NoElements(e[1..], name, put);
  }

  lemma {:induction false} HasElementEnding(s: string, e: string, name: string)
    requires Known(name) && Ending(e) && !At(e, 0, Close(name))
    ensures HasElement(s + e, name) == HasElement(s, name)
  {
    if s == [] {
      assert [] + e == e;
      EndingHasNone(e, name, "");
    } else {
      ElementEnding(s, e, name);
      assert (s + e)[1..] == s[1..] + e;
      HasElementEnding(s[1..], e, name);
    }
  }

  /** The elements of a text are the same with the end tag of the cell behind it. */
  lemma {:induction false} ElementsEnding(s: string, e: string, name: string, put: string)
    requires Known(name) && Ending(e) && !At(e, 0, Close(name))
    ensures ReplaceElements(s + e, name, put) == ReplaceElements(s, name, put) + e
  {
    if s == [] {
      assert [] + e == e;
      EndingHasNone(e, name, put);
    } else {
      ElementEnding(s, e, name);
      match ElementEnd(s, name) {
        case Some(n) =>
          assert (s + e)[n..] == s[n..] + e;
          ElementsEnding(s[n..], e, name, put);
          Collections.Assoc(put, ReplaceElements(s[n..], name, put), e);
        case None =>
          assert (s + e)[1..] == s[1..] + e;
          ElementsEnding(s[1..], e, name, put);
          Collections.Assoc([s[0]], ReplaceElements(s[1..], name, put), e);
      }
    }
  }

  lemma {:induction false} PlainStep(c: char, x: string, name: string, put: string)
    requires ElementEnd([c] + x, name).None?
    ensures HasElement([c] + x, name) == HasElement(x, name)
    ensures ReplaceElements([c] + x, name, put) == [c] + ReplaceElements(x, name, put)
  {
    assert ([c] + x)[1..] == x;
  }

  lemma {:induction false} PlainAhead(a: string, x: string, name: string, put: string)
    requires '<' !in a
    ensures HasElement(a + x, name) == HasElement(x, name)
    ensures ReplaceElements(a + x, name, put) == a + ReplaceElements(x, name, put)
  {
    if a == [] {
      assert a + x == x;
    } else {
      assert a + x == [a[0]] + (a[1..] + x);
      PlainStep(a[0], a[1..] + x, name, put);
      PlainAhead(a[1..], x, name, put);
      HeadTail(a);
      Collections.Assoc([a[0]], a[1..], ReplaceElements(x, name, put));
    }
  }

  lemma HeadTail(a: string)
    requires a != []
    ensures a == [a[0]] + a[1..]
  {
  }

  /** The start tag of a cell is no element to replace, whatever its prefix. */
  lemma StartIsNoElement(tag: string, rest: string, name: string)
    requires NamesCell(tag) && Known(name) && rest != []
    ensures ElementEnd("<" + tag + rest, name).None?
  {
    var open, t := "<" + name, "<" + tag + rest;
    assert t[1..] == tag + rest;
    assert forall k :: 1 <= k <= |tag| ==> t[k] == tag[k - 1];
    if open <= t {
      assert t[1] == name[0] && (name == "is" ==> t[2] == 's');
      assert |tag| > |name|;
      assert t[|open|] == tag[|name|];
      assert t[|open|..][0] == t[|open|];
    }
  }

  lemma {:induction false} StartAhead(tag: string, attributes: string, x: string, name: string, put: string)
    requires NamesCell(tag) && '<' !in attributes && Known(name)
    ensures var start := StartTag(tag, attributes);
      && HasElement(start + x, name) == HasElement(x, name)
      && ReplaceElements(start + x, name, put) == start + ReplaceElements(x, name, put)
  {
    var rest := tag + attributes + ">";
    StartIsNoElement(tag, attributes + ">" + x, name);
    StartPieces(tag, attributes, x);
    PlainStep('<', rest + x, name, put);
    PlainAhead(rest, x, name, put);
    StartPieces(tag, attributes, ReplaceElements(x, name, put));
  }

  lemma StartPieces(tag: string, attributes: string, x: string)
    ensures StartTag(tag, attributes) + x == ['<'] + (tag + attributes + ">" + x)
    ensures "<" + tag + (attributes + ">" + x) == ['<'] + (tag + attributes + ">" + x)
  {
  }

  // ----- the text of a cell, opened up and retyped

  function Tail(cell: Shell): string {
    match cell.body case Empty => CLOSE case Content(_, space) => EndTag(cell.tag, space)
  }

  function Opened(cell: Shell, attributes: string): string {
    StartTag(cell.tag, attributes) + TextOf(cell.body) + Tail(cell)
  }

  lemma EndTagEnds(tag: string, space: string)
    requires NamesCell(tag) && forall i :: 0 <= i < |space| ==> IsSpace(space[i])
    ensures Ending(EndTag(tag, space))
    ensures !At(EndTag(tag, space), 0, Close("v")) && !At(EndTag(tag, space), 0, Close("is"))
    ensures At(EndTag(tag, space), 0, CLOSE) <==> tag == "c" && space == ""
  {
    EndTagCharacters(tag, space);
    EndTagIs(tag, space, "v");
    EndTagIs(tag, space, "is");
    EndTagIs(tag, space, "c");
    assert Close("c") == CLOSE;
  }

  lemma EndTagIs(tag: string, space: string, name: string)
    requires NamesCell(tag) && forall i :: 0 <= i < |space| ==> IsSpace(space[i])
    requires name == "v" || name == "is" || name == "c"
    ensures At(EndTag(tag, space), 0, Close(name)) <==> tag == name && space == ""
  {
    var e, close := EndTag(tag, space), Close(name);
    EndTagCharacters(tag, space);
    AtCharacters(e, 0, close);
    assert close[|name| + 2] == '>';
    assert At(e, 0, close) ==> |e| == |close| && e == close;
    assert e == "</" + (tag + space) + ">" && close == "</" + name + ">";
    assert e == close ==> e[2..|e| - 1] == close[2..|close| - 1];
    assert e[2..|e| - 1] == tag + space && close[2..|close| - 1] == name;
    LastLetter(tag, space, name);
  }

  lemma LastLetter(tag: string, space: string, name: string)
    requires NamesCell(tag) && forall i :: 0 <= i < |space| ==> IsSpace(space[i])
    requires name == "v" || name == "is" || name == "c"
    ensures tag + space == name <==> tag == name && space == ""
  {
    var t := tag + space;
    assert space != [] ==> t[|t| - 1] == space[|space| - 1];
    assert space == [] ==> t == tag;
  }

  lemma EndTagCharacters(tag: string, space: string)
    requires NamesCell(tag) && forall i :: 0 <= i < |space| ==> IsSpace(space[i])
    ensures Ending(EndTag(tag, space))
    ensures forall k :: 0 <= k < |EndTag(tag, space)| && EndTag(tag, space)[k] == '>' ==> k == |EndTag(tag, space)| - 1
  {
    var e := EndTag(tag, space);
    var inner := "/" + tag + space;
    assert forall k :: 0 <= k < |inner| ==> inner[k] != '<' && inner[k] != '>';
    assert e[1..] == inner + ">" && e[..|e| - 1] == "<" + inner;
    assert e[|e| - 2] == inner[|inner| - 1];
  }

  lemma TailEnds(cell: Shell)
    requires IsShell(cell)
    ensures Ending(Tail(cell)) && !At(Tail(cell), 0, Close("v")) && !At(Tail(cell), 0, Close("is"))
    ensures At(Tail(cell), 0, CLOSE) <==> (cell.body.Empty? || (cell.tag == "c" && cell.body.space == ""))
  {
    if cell.body.Content? {
      EndTagEnds(cell.tag, cell.body.space);
    } else {
      EndTagEnds("c", "");
      assert EndTag("c", "") == CLOSE;
    }
  }

  /** A self-closing cell gets an end tag `</c>`, any other cell stays as it is. */
  lemma OpenedUpCell(cell: Shell)
    requires IsShell(cell)
    ensures OpenedUp(PrintShell(cell)) == Opened(cell, cell.attributes)
  {
    var raw := PrintShell(cell);
    match cell.body {
      case Empty =>
        var head := "<" + cell.tag + cell.attributes;
        assert raw == head + "/>" && raw[|raw| - 2..] == "/>" && raw[..|raw| - 2] == head;
        assert StartTag(cell.tag, cell.attributes) + "" + CLOSE == head + "></c>";
      case Content(text, space) =>
        TailEnds(cell);
        assert raw[|raw| - 2] == Tail(cell)[|Tail(cell)| - 2];
        assert raw[|raw| - 2..][0] == raw[|raw| - 2];
    }
  }

  lemma {:induction false} RetypeAhead(a: string, x: string)
    requires forall i :: 0 <= i < |a| ==> !IsSpace(a[i])
    ensures Retype(a + x) == a + Retype(x)
  {
    if a == [] {
      assert a + x == x;
    } else {
      assert (a + x)[1..] == a[1..] + x && (a + x)[0] == a[0];
      RetypeAhead(a[1..], x);
      HeadTail(a);
      Collections.Assoc([a[0]], a[1..], Retype(x));
    }
  }

  lemma {:induction false} RetypePlain(s: string)
    requires '<' !in s
    ensures '<' !in Retype(s)
  {
    if s != [] {
      RetypePlain(s[1..]);
      if TypeEnd(s).Some? {
        RetypePlain(s[TypeEnd(s).value..]);
      }
    }
  }

  lemma NewAttributesPlain(kind: string, attributes: string)
    requires '<' !in attributes
    ensures '<' !in NewAttributes(kind, attributes)
  {
    RetypePlain(attributes[..DecimalText.IndexOf(attributes, '>')]);
  }

  /** Retyping the text of the cell retypes its attributes. */
  lemma RetypedCell(cell: Shell, kind: string)
    requires IsShell(cell)
    ensures '>' in Opened(cell, cell.attributes)
    ensures Retyped(kind, Opened(cell, cell.attributes)) == Opened(cell, NewAttributes(kind, cell.attributes))
  {
    OpenedPieces(cell, cell.attributes);
    OpenedPieces(cell, NewAttributes(kind, cell.attributes));
    RetypedPieces(kind, "<" + cell.tag, cell.attributes, ">" + TextOf(cell.body) + Tail(cell));
  }

  lemma OpenedPieces(cell: Shell, attributes: string)
    ensures Opened(cell, attributes) == "<" + cell.tag + (attributes + (">" + TextOf(cell.body) + Tail(cell)))
  {
  }

  lemma RetypedPieces(kind: string, name: string, a: string, rest: string)
    requires '>' !in name && (forall i :: 0 <= i < |name| ==> !IsSpace(name[i])) && rest != [] && rest[0] == '>'
    ensures '>' in name + (a + rest)
    ensures Retyped(kind, name + (a + rest)) == name + (NewAttributes(kind, a) + rest)
  {
    FirstTagEnd(name, a, rest);
    if IsRetyped(kind) {
      RetypedWhen(kind, name, a, rest, DecimalText.IndexOf(a, '>'));
    }
  }

  lemma {:induction false} RetypedWhen(kind: string, name: string, a: string, rest: string, end: nat)
    requires IsRetyped(kind) && end == DecimalText.IndexOf(a, '>') && forall i :: 0 <= i < |name| ==> !IsSpace(name[i])
    requires '>' in name + (a + rest) && DecimalText.IndexOf(name + (a + rest), '>') == |name| + end
    ensures Retyped(kind, name + (a + rest)) == name + (NewAttributes(kind, a) + rest)
  {
    RetypedUpTo(name, a, rest, end);
    RetypedAt(kind, name + (a + rest), |name| + end);
    NewAttributesCut(kind, a);
    Collections.Assoc(name, NewAttributes(kind, a), rest);
  }

  lemma {:induction false} RetypedAt(kind: string, raw: string, k: nat)
    requires IsRetyped(kind) && '>' in raw && k == DecimalText.IndexOf(raw, '>')
    ensures Retyped(kind, raw) == Retype(raw[..k]) + raw[k..]
  {
  }

  lemma {:induction false} NewAttributesCut(kind: string, a: string)
    requires IsRetyped(kind)
    ensures var end := DecimalText.IndexOf(a, '>'); NewAttributes(kind, a) == Retype(a[..end]) + a[end..]
  {
  }

  lemma RetypedUpTo(name: string, a: string, rest: string, end: nat)
    requires end <= |a| && forall i :: 0 <= i < |name| ==> !IsSpace(name[i])
    ensures var raw, k := name + (a + rest), |name| + end;
      Retype(raw[..k]) + raw[k..] == name + (Retype(a[..end]) + a[end..] + rest)
  {
    RetypedHead(name, a, rest, end);
    Collections.Assoc(name, Retype(a[..end]), a[end..] + rest);
    Collections.Assoc(Retype(a[..end]), a[end..], rest);
  }

  lemma {:induction false} FirstTagEnd(name: string, a: string, rest: string)
    requires '>' !in name && rest != [] && rest[0] == '>'
    ensures '>' in name + (a + rest)
    ensures DecimalText.IndexOf(name + (a + rest), '>') == |name| + DecimalText.IndexOf(a, '>')
  {
    assert (name + (a + rest))[|name + a|] == '>';
    IndexOfAppend(name, a + rest, '>');
    IndexOfAppend(a, rest, '>');
    assert '>' in a <==> DecimalText.IndexOf(a, '>') < |a|;
  }

  lemma RetypedHead(name: string, a: string, rest: string, end: nat)
    requires end <= |a| && forall i :: 0 <= i < |name| ==> !IsSpace(name[i])
    ensures Retype((name + (a + rest))[..|name| + end]) == name + Retype(a[..end])
    ensures (name + (a + rest))[|name| + end..] == a[end..] + rest
  {
    var raw := name + (a + rest);
    assert raw[..|name| + end] == name + a[..end];
    assert raw[|name| + end..] == (a + rest)[end..];
    RetypeAhead(name, a[..end]);
  }

  // ----- which cells take the amount

  lemma AtBehind(a: string, x: string, close: string, j: nat)
    ensures At(a + x, |a| + j, close) <==> At(x, j, close)
  {
    if j + |close| <= |x| {
      assert (a + x)[|a| + j..|a| + j + |close|] == x[j..j + |close|];
    }
  }

  lemma {:induction false} IndexBehind(a: string, x: string, close: string)
    requires forall j: nat :: j < |a| ==> !At(a + x, j, close)
    ensures Index(a + x, close) == Shifted(Index(x, close), |a|)
  {
    forall j: nat | j >= |a| ensures At(a + x, j, close) <==> At(x, j - |a|, close) {
      AtBehind(a, x, close, j - |a|);
    }
    PlacesBehind(a + x, x, |a|, close);
  }

  lemma {:induction false} PlacesBehind(t: string, x: string, n: nat, close: string)
    requires forall j: nat :: j < n ==> !At(t, j, close)
    requires forall j: nat :: j >= n ==> (At(t, j, close) <==> At(x, j - n, close))
    ensures Index(t, close) == Shifted(Index(x, close), n)
  {
    IndexFinds(x, close);
    match Index(x, close) {
      case Some(i) =>
        assert At(t, n + i, close);
        IndexUnique(t, close, n + i);
      case None => IndexAbsent(t, close);
    }
  }

  lemma {:induction false} IndexAbsent(s: string, x: string)
    requires forall j: nat :: !At(s, j, x)
    ensures Index(s, x) == None
  {
    IndexFinds(s, x);
  }

  lemma CloseHead(s: string, j: nat)
    requires At(s, j, CLOSE)
    ensures j + 1 < |s| && s[j] == '<' && s[j + 1] == '/'
  {
    AtCharacters(s, j, CLOSE);
  }

  lemma NoCloseInStart(tag: string, attributes: string, x: string, j: nat)
    requires NamesCell(tag) && '<' !in attributes && j < |StartTag(tag, attributes)|
    ensures !At(StartTag(tag, attributes) + x, j, CLOSE)
  {
    var start := StartTag(tag, attributes);
    var t, inner := start + x, tag + attributes + ">";
    assert '<' !in inner;
    assert start == ['<'] + inner && inner[0] == tag[0];
    assert t[1] == inner[0];
    assert j > 0 ==> t[j] == inner[j - 1];
    if At(t, j, CLOSE) {
      CloseHead(t, j);
    }
  }

  /** No `</c>` begins in a start tag. */
  lemma {:induction false} IndexStart(tag: string, attributes: string, x: string)
    requires NamesCell(tag) && '<' !in attributes
    ensures Index(StartTag(tag, attributes) + x, CLOSE) == Shifted(Index(x, CLOSE), |StartTag(tag, attributes)|)
  {
    forall j: nat | j < |StartTag(tag, attributes)| ensures !At(StartTag(tag, attributes) + x, j, CLOSE) {
      NoCloseInStart(tag, attributes, x, j);
    }
    IndexBehind(StartTag(tag, attributes), x, CLOSE);
  }

  function PlaceOfClose(text: string, e: string): Option<nat> {
    if Index(text, CLOSE).Some? then Index(text, CLOSE) else if At(e, 0, CLOSE) then Some(|text|) else None
  }

  /** Where the code finds `</c>`: in the content, else at the end tag, if that is how it reads. */
  lemma {:induction false} IndexTail(text: string, e: string)
    requires Ending(e)
    ensures Index(text + e, CLOSE) == PlaceOfClose(text, e)
  {
    var i := Index(text, CLOSE);
    if i.Some? {
      AtWithin(text, e, CLOSE);
      IndexUnique(text + e, CLOSE, i.value);
    } else if At(e, 0, CLOSE) {
      AtBoundary(text, e);
      IndexUnique(text + e, CLOSE, |text|);
    } else {
      IndexEnding(text, e, CLOSE);
    }
  }

  lemma {:induction false} AtWithin(s: string, e: string, x: string)
    requires Index(s, x).Some?
    ensures At(s + e, Index(s, x).value, x)
    ensures forall j: nat :: j < Index(s, x).value ==> !At(s + e, j, x)
  {
    var i := Index(s, x).value;
    IndexFinds(s, x);
    assert (s + e)[i..i + |x|] == s[i..i + |x|];
    forall j: nat | j < i ensures !At(s + e, j, x) {
      assert !At(s, j, x) && j + |x| <= |s|;
      assert (s + e)[j..j + |x|] == s[j..j + |x|];
    }
  }

  lemma {:induction false} AtBoundary(s: string, e: string)
    requires Ending(e) && At(e, 0, CLOSE) && Index(s, CLOSE).None?
    ensures At(s + e, |s|, CLOSE) && forall j: nat :: j < |s| ==> !At(s + e, j, CLOSE)
  {
    var t := s + e;
    IndexFinds(s, CLOSE);
    assert t[|s|..|s| + 4] == e[..4];
    forall j: nat | j < |s| ensures !At(t, j, CLOSE) {
      NotAcross(s, e, j);
    }
  }

  lemma NotAcross(s: string, e: string, j: nat)
    requires Ending(e) && j < |s| && !At(s, j, CLOSE)
    ensures !At(s + e, j, CLOSE)
  {
    var t := s + e;
    AtCharacters(t, j, CLOSE);
    AtCharacters(s, j, CLOSE);
    assert t[|s|] == '<';
    assert j < |s| < j + 4 ==> t[j + (|s| - j)] != CLOSE[|s| - j];
  }

  // ----- exactly when the patched text is the cell holding the amount

  predicate Amounts(kind: string, element: string) {
    |element| >= 2 && element[0] == '<' && element[1] == (if IsText(kind) then 'i' else 'v')
  }

  lemma ElementAmounts(kind: string, amount: string)
    ensures Amounts(kind, Element(kind, amount))
  {
  }

  lemma {:induction false} SlotMatches(cell: Shell, attributes: string, name: string, put: string)
    requires IsShell(cell) && '<' !in attributes && Known(name)
    ensures HasElement(Opened(cell, attributes), name) == HasElement(TextOf(cell.body), name)
    ensures ReplaceElements(Opened(cell, attributes), name, put) ==
            StartTag(cell.tag, attributes) + ReplaceElements(TextOf(cell.body), name, put) + Tail(cell)
  {
    var start, text, e := StartTag(cell.tag, attributes), TextOf(cell.body), Tail(cell);
    TailEnds(cell);
    Collections.Assoc(start, text, e);
    StartAhead(cell.tag, attributes, text + e, name, put);
    HasElementEnding(text, e, name);
    ElementsEnding(text, e, name, put);
    Collections.Assoc(start, ReplaceElements(text, name, put), e);
  }

  /** With an element to replace, everything else in the cell is left alone. */
  lemma {:induction false} Replaced(cell: Shell, attributes: string, kind: string, put: string)
    requires IsShell(cell) && '<' !in attributes && Expression(kind, TextOf(cell.body)).Some?
    ensures Substituted(kind, Opened(cell, attributes), put) ==
            StartTag(cell.tag, attributes) +
                Rewrite(Slots(Expression(kind, TextOf(cell.body)).value), put, TextOf(cell.body)) +
                EndTag(cell.tag, SpaceOf(cell.body))
  {
    var name := Expression(kind, TextOf(cell.body)).value;
    SlotMatches(cell, attributes, "is", put);
    SlotMatches(cell, attributes, "v", put);
    ReplaceIsRewrite(TextOf(cell.body), name, put);
  }

  lemma {:induction false} ReplaceIsRewrite(s: string, name: string, put: string)
    ensures ReplaceElements(s, name, put) == Rewrite(Slots(name), put, s)
    ensures HasElement(s, name) <==> Place(Slots(name), s).Some?
  {
    if s != [] {
      ReplaceIsRewrite(s[1..], name, put);
      if ElementEnd(s, name).Some? {
        ReplaceIsRewrite(s[ElementEnd(s, name).value..], name, put);
      }
    }
  }

  lemma {:induction false} RetypeIsRewrite(s: string)
    ensures Retype(s) == Rewrite(Types(), INLINE, s)
  {
    if s != [] {
      RetypeIsRewrite(s[1..]);
      if TypeEnd(s).Some? {
        RetypeIsRewrite(s[TypeEnd(s).value..]);
      }
    }
  }

  /** Without one, everything hangs on the first `</c>`. */
  lemma NothingToReplace(cell: Shell, attributes: string, kind: string, put: string)
    requires IsShell(cell) && '<' !in attributes && Expression(kind, TextOf(cell.body)).None?
    ensures Substituted(kind, Opened(cell, attributes), put) ==
            ReplaceFirst(Opened(cell, attributes), CLOSE, put + CLOSE)
  {
    SlotMatches(cell, attributes, "is", put);
    SlotMatches(cell, attributes, "v", put);
  }

  lemma FirstClose(cell: Shell, attributes: string)
    requires IsShell(cell) && '<' !in attributes
    ensures Index(Opened(cell, attributes), CLOSE) ==
            Shifted(PlaceOfClose(TextOf(cell.body), Tail(cell)), |StartTag(cell.tag, attributes)|)
  {
    TailEnds(cell);
    Collections.Assoc(StartTag(cell.tag, attributes), TextOf(cell.body), Tail(cell));
    IndexStart(cell.tag, attributes, TextOf(cell.body) + Tail(cell));
    IndexTail(TextOf(cell.body), Tail(cell));
  }

  /** What is written when nothing can be replaced and the content holds no `</c>`. */
  lemma AppendedAtEnd(cell: Shell, attributes: string, element: string)
    requires IsShell(cell) && '<' !in attributes && Index(TextOf(cell.body), CLOSE).None?
    ensures ReplaceFirst(Opened(cell, attributes), CLOSE, element + CLOSE) ==
            if At(Tail(cell), 0, CLOSE) then StartTag(cell.tag, attributes) + (TextOf(cell.body) + element) + CLOSE
            else Opened(cell, attributes)
  {
    FirstClose(cell, attributes);
    TailEnds(cell);
    if At(Tail(cell), 0, CLOSE) {
      TailIsClose(cell);
      InsertedBefore(StartTag(cell.tag, attributes), TextOf(cell.body), element);
    }
  }

  lemma TailIsClose(cell: Shell)
    requires IsShell(cell) && At(Tail(cell), 0, CLOSE)
    ensures Tail(cell) == CLOSE
  {
    TailEnds(cell);
    if cell.body.Content? {
      assert "</" + "c" + "" + ">" == CLOSE;
    }
  }

  lemma InsertedBefore(start: string, text: string, element: string)
    ensures var raw, i := start + text + CLOSE, |start| + |text|;
      raw[..i] + (element + CLOSE) + raw[i + |CLOSE|..] == start + (text + element) + CLOSE
  {
    var raw, i := start + text + CLOSE, |start| + |text|;
    assert raw[..i] == start + text && raw[i + |CLOSE|..] == "";
  }

  lemma EndTagIsClose(tag: string, space: string)
    requires NamesCell(tag) && forall i :: 0 <= i < |space| ==> IsSpace(space[i])
    ensures EndTag(tag, space) == CLOSE <==> tag == "c" && space == ""
  {
    EndTagEnds(tag, space);
    AtCharacters(EndTag(tag, space), 0, CLOSE);
    assert EndTag("c", "") == CLOSE;
  }

  /** An element put before a `</c>` inside the content is not the element behind the content. */
  lemma InsertedInside(raw: string, k: nat, m: nat, kind: string, element: string)
    requires At(raw, k, CLOSE) && k + 2 <= m <= |raw| && Amounts(kind, element)
    ensures raw[..k] + (element + CLOSE) + raw[k + |CLOSE|..] != raw[..m] + element + raw[m..]
  {
    AtCharacters(raw, k, CLOSE);
    var a, b := raw[..k] + (element + CLOSE) + raw[k + |CLOSE|..], raw[..m] + element + raw[m..];
    assert a[k + 1] == element[1];
    assert b[k + 1] == raw[k + 1];
    assert raw[k + 1] == CLOSE[1] == '/';
  }

  lemma AppendedExactly(cell: Shell, attributes: string, element: string)
    requires IsShell(cell) && '<' !in attributes && Index(TextOf(cell.body), CLOSE).None? && element != []
    ensures ReplaceFirst(Opened(cell, attributes), CLOSE, element + CLOSE) ==
            StartTag(cell.tag, attributes) + (TextOf(cell.body) + element) + EndTag(cell.tag, SpaceOf(cell.body)) <==>
            cell.tag == "c" && SpaceOf(cell.body) == ""
  {
    AppendedAtEnd(cell, attributes, element);
    TailEnds(cell);
    EndTagIsClose(cell.tag, SpaceOf(cell.body));
    var front := StartTag(cell.tag, attributes) + (TextOf(cell.body) + element);
    SameFront(front, CLOSE, EndTag(cell.tag, SpaceOf(cell.body)));
  }

  lemma SameFront(front: string, a: string, b: string)
    ensures front + a == front + b <==> a == b
  {
    assert (front + a)[|front|..] == a && (front + b)[|front|..] == b;
  }

  lemma MisplacedInside(cell: Shell, attributes: string, kind: string, element: string)
    requires IsShell(cell) && '<' !in attributes && Index(TextOf(cell.body), CLOSE).Some? && Amounts(kind, element)
    ensures ReplaceFirst(Opened(cell, attributes), CLOSE, element + CLOSE) !=
            StartTag(cell.tag, attributes) + (TextOf(cell.body) + element) + EndTag(cell.tag, SpaceOf(cell.body))
  {
    FirstClose(cell, attributes);
    MisplacedIn(StartTag(cell.tag, attributes), TextOf(cell.body), Tail(cell), kind, element);
  }

  lemma {:induction false} MisplacedIn(start: string, text: string, e: string, kind: string, element: string)
    requires Index(text, CLOSE).Some? && Amounts(kind, element)
    requires Index(start + text + e, CLOSE) == Shifted(Index(text, CLOSE), |start|)
    ensures ReplaceFirst(start + text + e, CLOSE, element + CLOSE) != start + (text + element) + e
  {
    IndexFinds(start + text + e, CLOSE);
    InsertedInside(start + text + e, |start| + Index(text, CLOSE).value, |start| + |text|, kind, element);
    SplitBehind(start, text, e, element);
  }

  lemma SplitBehind(start: string, text: string, e: string, element: string)
    ensures var raw, m := start + text + e, |start| + |text|;
      raw[..m] + element + raw[m..] == start + (text + element) + e
  {
    var raw, m := start + text + e, |start| + |text|;
    assert raw[..m] == start + text && raw[m..] == e;
  }

  // ----- type attributes out of reach

  /** With different attributes, texts whose first `<` behind the start tag stands alike are different. */
  lemma {:induction false} DifferentStarts(tag: string, a: string, b: string, x: string, y: string)
    requires NamesCell(tag) && '<' !in a && '<' !in b && a != b
    requires DecimalText.IndexOf(x, '<') == DecimalText.IndexOf(y, '<') && '<' in x && '<' in y
    ensures StartTag(tag, a) + x != StartTag(tag, b) + y
  {
    StartPieces(tag, a, x);
    StartPieces(tag, b, y);
    var s, t := tag + a + ">", tag + b + ">";
    IndexOfAppend(s, x, '<');
    IndexOfAppend(t, y, '<');
    SameRest(s + x, t + y);
    if s + x == t + y {
      assert |a| == |b|;
      CutMiddle(tag, a, ">" + x);
      CutMiddle(tag, b, ">" + y);
      Collections.Assoc(tag + a, ">", x);
      Collections.Assoc(tag + b, ">", y);
    }
  }

  lemma SameRest(x: string, y: string)
    ensures ['<'] + x == ['<'] + y <==> x == y
  {
    SameFront(['<'], x, y);
  }

  lemma CutMiddle(front: string, middle: string, back: string)
    ensures (front + middle + back)[|front|..|front| + |middle|] == middle
  {
  }

  /** Whatever is written, the first `<` behind the start tag stands where the markup of the content began. */
  lemma WrittenBehindStart(cell: Shell, attributes: string, kind: string, put: string) returns (x: string)
    requires IsShell(cell) && '<' !in attributes && Amounts(kind, put)
    ensures Substituted(kind, Opened(cell, attributes), put) == StartTag(cell.tag, attributes) + x
    ensures '<' in x && DecimalText.IndexOf(x, '<') == DecimalText.IndexOf(TextOf(cell.body), '<')
  {
    var text, end := TextOf(cell.body), EndTag(cell.tag, SpaceOf(cell.body));
    if Expression(kind, text).Some? {
      var name := Expression(kind, text).value;
      Replaced(cell, attributes, kind, put);
      x := Rewrite(Slots(name), put, text) + end;
      Collections.Assoc(StartTag(cell.tag, attributes), Rewrite(Slots(name), put, text), end);
      SlotsOpen(name);
      FirstKept(Slots(name), put, text, end);
    } else {
      NothingToReplace(cell, attributes, kind, put);
      if Index(text, CLOSE).None? {
        x := AppendedBehindStart(cell, attributes, put);
      } else {
        x := MisplacedBehindStart(cell, attributes, put);
      }
    }
  }

  /** Rewriting elements leaves the first `<` where it was. */
  lemma {:induction false} OneBefore(c: char, x: string, d: char)
    requires c != d
    ensures DecimalText.IndexOf([c] + x, d) == 1 + DecimalText.IndexOf(x, d)
    ensures d in [c] + x <==> d in x
  {
    assert ([c] + x)[1..] == x;
  }

  lemma {:induction false} FirstKept(m: Matcher, put: string, s: string, e: string)
    requires forall t: string :: Ends(m, t) ==> t[0] == '<'
    requires put != [] && put[0] == '<' && e != [] && e[0] == '<'
    ensures var x := Rewrite(m, put, s) + e;
      '<' in x && DecimalText.IndexOf(x, '<') == DecimalText.IndexOf(s, '<')
    decreases |s|
  {
    var x := Rewrite(m, put, s) + e;
    if s == [] {
      assert x == e;
    } else if s[0] == '<' {
      assert x[0] == '<';
    } else {
      FirstKept(m, put, s[1..], e);
      assert x == [s[0]] + (Rewrite(m, put, s[1..]) + e);
      OneBefore(s[0], Rewrite(m, put, s[1..]) + e, '<');
    }
  }

  lemma SlotsOpen(name: string)
    ensures forall t: string :: Ends(Slots(name), t) ==> t[0] == '<'
  {
  }

  lemma {:induction false} NoneFound(s: string, c: char)
    requires c !in s
    ensures DecimalText.IndexOf(s, c) == |s|
  {
  }

  lemma InBack(a: string, b: string)
    requires b != [] && b[0] == '<'
    ensures '<' in a + b
  {
    assert (a + b)[|a|] == '<';
  }

  /** Behind a text, an element begins the markup as anything else that begins with `<` does. */
  lemma {:induction false} FirstBehind(text: string, element: string, rest: string)
    requires element != [] && element[0] == '<'
    ensures '<' in text + element + rest
    ensures DecimalText.IndexOf(text + element + rest, '<') ==
            if '<' in text then DecimalText.IndexOf(text, '<') else |text|
  {
    Collections.Assoc(text, element, rest);
    assert (element + rest)[0] == '<';
    IndexOfAppend(text, element + rest, '<');
    InBack(text, element + rest);
  }

  lemma AppendedBehindStart(cell: Shell, attributes: string, element: string) returns (x: string)
    requires IsShell(cell) && '<' !in attributes && Index(TextOf(cell.body), CLOSE).None?
    requires element != [] && element[0] == '<'
    ensures ReplaceFirst(Opened(cell, attributes), CLOSE, element + CLOSE) == StartTag(cell.tag, attributes) + x
    ensures '<' in x && DecimalText.IndexOf(x, '<') ==
            if '<' in TextOf(cell.body) then DecimalText.IndexOf(TextOf(cell.body), '<') else |TextOf(cell.body)|
  {
    var start, text := StartTag(cell.tag, attributes), TextOf(cell.body);
    AppendedAtEnd(cell, attributes, element);
    TailEnds(cell);
    if At(Tail(cell), 0, CLOSE) {
      x := text + element + CLOSE;
      Collections.Assoc(start, text + element, CLOSE);
      FirstBehind(text, element, CLOSE);
    } else {
      x := text + Tail(cell) + "";
      Collections.Assoc(start, text, Tail(cell));
      assert x == text + Tail(cell);
      FirstBehind(text, Tail(cell), "");
    }
  }

  lemma MisplacedBehindStart(cell: Shell, attributes: string, element: string) returns (x: string)
    requires IsShell(cell) && '<' !in attributes && Index(TextOf(cell.body), CLOSE).Some?
    requires element != [] && element[0] == '<'
    ensures ReplaceFirst(Opened(cell, attributes), CLOSE, element + CLOSE) == StartTag(cell.tag, attributes) + x
    ensures '<' in x && DecimalText.IndexOf(x, '<') ==
            if '<' in TextOf(cell.body) then DecimalText.IndexOf(TextOf(cell.body), '<') else |TextOf(cell.body)|
  {
    FirstClose(cell, attributes);
    x := InsertedBehind(StartTag(cell.tag, attributes), TextOf(cell.body), Tail(cell), element);
  }

  lemma InsertedBehind(start: string, text: string, e: string, element: string) returns (x: string)
    requires Index(text, CLOSE).Some? && element != [] && element[0] == '<'
    requires Index(start + text + e, CLOSE) == Shifted(Index(text, CLOSE), |start|)
    ensures ReplaceFirst(start + text + e, CLOSE, element + CLOSE) == start + x
    ensures '<' in x && '<' in text && DecimalText.IndexOf(x, '<') == DecimalText.IndexOf(text, '<')
  {
    var j := Index(text, CLOSE).value;
    var front, back := text[..j], (text + e)[j + 4..];
    x := front + element + (CLOSE + back);
    CutAround(start, text, e, j);
    JoinedBehind(start, front, element, back);
    FirstBehind(front, element, CLOSE + back);
    FirstUpTo(text, j);
  }

  lemma CutAround(start: string, text: string, e: string, j: nat)
    requires j + 4 <= |text|
    ensures (start + text + e)[..|start| + j] == start + text[..j]
    ensures (start + text + e)[|start| + j + 4..] == (text + e)[j + 4..]
  {
    assert start + text + e == start + (text + e);
  }

  lemma {:induction false} FirstUpTo(text: string, j: nat)
    requires Index(text, CLOSE) == Some(j)
    ensures '<' in text
    ensures DecimalText.IndexOf(text, '<') == if '<' in text[..j] then DecimalText.IndexOf(text[..j], '<') else j
  {
    IndexFinds(text, CLOSE);
    CloseHead(text, j);
    assert text == text[..j] + text[j..] && text[j..][0] == '<';
    IndexOfAppend(text[..j], text[j..], '<');
  }

  lemma JoinedBehind(start: string, front: string, element: string, back: string)
    ensures start + front + (element + CLOSE) + back == start + (front + element + (CLOSE + back))
  {
  }

  /** With a start tag other than the expected one, nothing behind it makes the texts equal. */
  lemma {:induction false} OtherAttributes(cell: Shell, a: string, b: string, kind: string, put: string, y: string)
    requires IsShell(cell) && '<' !in a && '<' !in b && a != b && Amounts(kind, put)
    requires '<' in y && DecimalText.IndexOf(y, '<') == DecimalText.IndexOf(TextOf(cell.body), '<')
    ensures Substituted(kind, Opened(cell, a), put) != StartTag(cell.tag, b) + y
  {
    var x := WrittenBehindStart(cell, a, kind, put);
    DifferentStarts(cell.tag, a, b, x, y);
  }

  // ----- exactly which content is filled

  /** The expression matches once, and what it matches is the slot. */
  predicate OnlySlot(kind: string, a: string, w: string, b: string) {
    var name := Expression(kind, a + w + b);
    name.Some? && OnlyMatch(Slots(name.value), a, w, b)
  }

  lemma SlotFilled(cell: Shell, attributes: string, kind: string, put: string, a: string, w: string, b: string)
    requires IsShell(cell) && '<' !in attributes && TextOf(cell.body) == a + w + b && OnlySlot(kind, a, w, b)
    ensures Substituted(kind, Opened(cell, attributes), put) ==
            StartTag(cell.tag, attributes) + (a + (put + b)) + EndTag(cell.tag, SpaceOf(cell.body))
  {
    Replaced(cell, attributes, kind, put);
    OnlyMatchReplaced(Slots(Expression(kind, a + w + b).value), put, a, w, b);
  }

  /** What is written is never shorter than the cell by more than a slot could be, nor by chance of the right length. */
  lemma SlotFilledOnly(cell: Shell, attributes: string, kind: string, put: string, a: string, w: string, b: string)
    requires IsShell(cell) && '<' !in attributes && TextOf(cell.body) == a + w + b && w != []
    requires Unbordered(put) && |put| > |a + w + b|
    requires Substituted(kind, Opened(cell, attributes), put) ==
             StartTag(cell.tag, attributes) + (a + (put + b)) + EndTag(cell.tag, SpaceOf(cell.body))
    ensures OnlySlot(kind, a, w, b)
  {
    var start, end := StartTag(cell.tag, attributes), EndTag(cell.tag, SpaceOf(cell.body));
    if Expression(kind, a + w + b).Some? {
      var name := Expression(kind, a + w + b).value;
      Replaced(cell, attributes, kind, put);
      SameMiddle(start, Rewrite(Slots(name), put, a + w + b), a + (put + b), end);
      OnlyMatchNeeded(Slots(name), put, a, w, b);
    } else {
      NothingToReplace(cell, attributes, kind, put);
      InsertedLength(cell, attributes, put);
    }
  }

  lemma SameMiddle(start: string, x: string, y: string, end: string)
    ensures start + x + end == start + y + end <==> x == y
  {
    if start + x + end == start + y + end {
      assert |x| == |y|;
      assert x == (start + x + end)[|start|..|start| + |x|] == (start + y + end)[|start|..|start| + |y|] == y;
    }
  }

  /** An insertion adds the element, or nothing. */
  lemma InsertedLength(cell: Shell, attributes: string, put: string)
    requires IsShell(cell) && '<' !in attributes
    ensures var raw := Opened(cell, attributes);
      var r := ReplaceFirst(raw, CLOSE, put + CLOSE);
      |r| == |raw| || |r| == |raw| + |put|
  {
  }

  /** The condition for a cell without a slot: nothing that looks like one, and an end tag that is the first `</c>`. */
  predicate TakesAppended(cell: Shell, kind: string) {
    && Expression(kind, TextOf(cell.body)).None?
    && cell.tag == "c" && SpaceOf(cell.body) == "" && Index(TextOf(cell.body), CLOSE).None?
  }

  lemma AppendedFilled(cell: Shell, attributes: string, kind: string, put: string)
    requires IsShell(cell) && '<' !in attributes && put != [] && TakesAppended(cell, kind)
    ensures Substituted(kind, Opened(cell, attributes), put) ==
            StartTag(cell.tag, attributes) + (TextOf(cell.body) + put) + EndTag(cell.tag, SpaceOf(cell.body))
  {
    NothingToReplace(cell, attributes, kind, put);
    AppendedExactly(cell, attributes, put);
  }

  lemma AppendedFilledOnly(cell: Shell, attributes: string, kind: string, put: string)
    requires IsShell(cell) && '<' !in attributes && Amounts(kind, put) && |put| > |TextOf(cell.body)|
    requires Substituted(kind, Opened(cell, attributes), put) ==
             StartTag(cell.tag, attributes) + (TextOf(cell.body) + put) + EndTag(cell.tag, SpaceOf(cell.body))
    ensures TakesAppended(cell, kind)
  {
    var text := TextOf(cell.body);
    if Expression(kind, text).Some? {
      var name := Expression(kind, text).value;
      Replaced(cell, attributes, kind, put);
      SameMiddle(StartTag(cell.tag, attributes), Rewrite(Slots(name), put, text), text + put,
                 EndTag(cell.tag, SpaceOf(cell.body)));
      ReplaceIsRewrite(text, name, put);
      NotAppended(name, put, text);
    } else {
      NothingToReplace(cell, attributes, kind, put);
      InsertedOnly(cell, attributes, kind, put);
    }
  }

  lemma InsertedOnly(cell: Shell, attributes: string, kind: string, put: string)
    requires IsShell(cell) && '<' !in attributes && Amounts(kind, put)
    requires ReplaceFirst(Opened(cell, attributes), CLOSE, put + CLOSE) ==
             StartTag(cell.tag, attributes) + (TextOf(cell.body) + put) + EndTag(cell.tag, SpaceOf(cell.body))
    ensures cell.tag == "c" && SpaceOf(cell.body) == "" && Index(TextOf(cell.body), CLOSE).None?
  {
    if Index(TextOf(cell.body), CLOSE).None? {
      AppendedExactly(cell, attributes, put);
    } else {
      MisplacedInside(cell, attributes, kind, put);
    }
  }

  /** Replacing something never looks like appending. */
  lemma {:induction false} NotAppended(name: string, put: string, text: string)
    requires Place(Slots(name), text).Some? && |put| > |text|
    ensures Rewrite(Slots(name), put, text) != text + put
  {
    var m := Slots(name);
    UpToPlace(m, put, text);
    var i := Place(m, text).value;
    var rest := text[i..][m(text[i..]).value..];
    if Place(m, rest).Some? {
      AtLeastOne(m, put, rest);
    } else {
      NoPlace(m, put, rest);
    }
  }

  /** The families that fail: nothing to replace, and an end tag with a prefix or a blank. The amount is dropped. */
  lemma AmountDropped(cell: Shell, kind: string, amount: string)
    requires IsShell(cell) && cell.body.Content? && Expression(kind, cell.body.text).None? &&
             Index(cell.body.text, CLOSE).None?
    requires cell.tag != "c" || cell.body.space != ""
    ensures PatchedText(kind, PrintShell(cell), amount) ==
            PrintShell(cell.(attributes := NewAttributes(kind, cell.attributes)))
  {
    var attributes := NewAttributes(kind, cell.attributes);
    OpenedUpCell(cell);
    RetypedCell(cell, kind);
    NewAttributesPlain(kind, cell.attributes);
    NothingToReplace(cell, attributes, kind, Element(kind, amount));
    AppendedAtEnd(cell, attributes, Element(kind, amount));
    TailEnds(cell);
  }

  /** A self-closing cell with a prefix gets an end tag that does not match. */
  lemma EndTagMismatched(cell: Shell, kind: string, amount: string)
    requires IsShell(cell) && cell.body.Empty?
    ensures PatchedText(kind, PrintShell(cell), amount) ==
            StartTag(cell.tag, NewAttributes(kind, cell.attributes)) + Element(kind, amount) + CLOSE
  {
    var attributes, element := NewAttributes(kind, cell.attributes), Element(kind, amount);
    OpenedUpCell(cell);
    RetypedCell(cell, kind);
    NewAttributesPlain(kind, cell.attributes);
    NothingToReplace(cell, attributes, kind, element);
    AppendedAtEnd(cell, attributes, element);
    TailEnds(cell);
    assert "" + element == element;
  }

  /** With a prefix the amount is dropped without an error. */
  lemma PrefixedCellFails(raw: string, kind: string, amount: string)
    requires raw == "<x:c r=\"B2\"></x:c>" && kind == ""
    ensures '>' in raw && PatchedText(kind, raw, amount) == raw
  {
    var cell := Shell("x:c", " r=\"B2\"", Content("", ""));
    PrintedContent(cell, raw);
    AmountDropped(cell, kind, amount);
  }

  /** So it is with a blank in the end tag. */
  lemma BlankInEndTagFails(raw: string, kind: string, amount: string)
    requires raw == "<c r=\"B2\"></c >" && kind == ""
    ensures '>' in raw && PatchedText(kind, raw, amount) == raw
  {
    var cell := Shell("c", " r=\"B2\"", Content("", " "));
    PrintedContent(cell, raw);
    AmountDropped(cell, kind, amount);
  }

  /** A self-closing cell with a prefix gets the wrong end tag. */
  lemma PrefixedEmptyCellFails(raw: string, kind: string, amount: string)
    requires raw == "<x:c r=\"B2\"/>" && kind == ""
    ensures '>' in raw && PatchedText(kind, raw, amount) ==
            StartTag("x:c", " r=\"B2\"") + ("<v>" + amount + "</v>") + EndTag("c", "")
  {
    var cell := Shell("x:c", " r=\"B2\"", Empty);
    PrintedEmpty(cell, raw);
    EndTagMismatched(cell, kind, amount);
    EndTagIsClose("c", "");
  }

  lemma PrintedEmpty(cell: Shell, raw: string)
    requires cell.body.Empty? && raw == "<" + cell.tag + cell.attributes + "/>"
    ensures raw == PrintShell(cell)
  {
  }

  lemma PrintedContent(cell: Shell, raw: string)
    requires cell.body.Content? &&
             raw == StartTag(cell.tag, cell.attributes) + cell.body.text + EndTag(cell.tag, cell.body.space)
    ensures raw == PrintShell(cell)
  {
  }
}

/**
 Cells as spreadsheet programs write them: no blank and no `>` in an attribute value, plain text around one value
 element. Which of them take every amount is a matter of how tags and the type attribute are written.
 */
module OrdinaryCells {
  import opened Wrappers
  import Collections
  import DecimalText
  import opened Rewriting
  import CellText
  import opened CellReading
  import opened CellFilling

  // ----- attributes

  predicate PlainValue(a: Attribute) {
    forall i :: 0 <= i < |a.value| ==> !CellText.IsSpace(a.value[i]) && a.value[i] != '>'
  }

  predicate OrdinaryAttributes(attributes: seq<Attribute>) {
    && (forall i :: 0 <= i < |attributes| ==> PlainValue(attributes[i]))
    && (forall i, j :: 0 <= i < j < |attributes| ==> attributes[i].name != attributes[j].name)
  }

  lemma NotAtLetter(s: string)
    requires s != [] && !CellText.IsSpace(s[0])
    ensures CellText.TypeEnd(s).None?
  {
  }

  lemma NotBehindBlanks(blank: string, rest: string)
    requires Blanks(blank) && rest != [] && !CellText.IsSpace(rest[0]) && rest[0] != 't'
    ensures CellText.TypeEnd(blank + rest).None?
  {
    SpacesRun(blank, rest);
    assert (blank + rest)[|blank|..] == rest;
  }

  /** Where the pieces of an attribute begin. */
  lemma AttributePlaces(a: Attribute, rest: string, j: nat)
    requires j < |PrintAttribute(a)|
    ensures var n, s := |a.blank + a.name|, PrintAttribute(a)[j..] + rest;
      var quoted := [a.quote] + (a.value + ([a.quote] + rest));
      && (j < |a.blank| ==> s == PrintAttribute(a.(blank := a.blank[j..])) + rest)
      && (n <= j < n + |a.before| ==> s == a.before[j - n..] + ("=" + (a.after + quoted)))
      && var k := n + |a.before| + 1;
        (k <= j < k + |a.after| ==> s == a.after[j - k..] + quoted)
  {
    var n, t := |a.blank + a.name|, PrintAttribute(a) + rest;
    var quoted := [a.quote] + (a.value + ([a.quote] + rest));
    var k := n + |a.before| + 1;
    AttributeParts(a, rest);
    assert PrintAttribute(a)[j..] + rest == t[j..];
    if j < |a.blank| {
      AttributeParts(a.(blank := a.blank[j..]), rest);
    }
  }

  /** The other characters of an attribute are no blanks. */
  lemma AttributeLetters(a: Attribute, j: nat)
    requires IsAttribute(a) && PlainValue(a) && j < |PrintAttribute(a)|
    requires var n := |a.blank + a.name|; var k := n + |a.before| + 1;
      !(j < |a.blank|) && !(n <= j < n + |a.before|) && !(k <= j < k + |a.after|)
    ensures !CellText.IsSpace(PrintAttribute(a)[j])
  {
    var n, k, c := |a.blank + a.name|, |a.blank + a.name + a.before| + 1, PrintAttribute(a)[j];
    var v := k + |a.after| + 1;
    if j < n {
      assert c == a.name[j - |a.blank|];
    } else if j < v {
      assert c == '=' || c == a.quote;
    } else if j < v + |a.value| {
      assert c == a.value[j - v];
    } else {
      assert c == a.quote;
    }
  }

  /** Inside an attribute that is no plainly written type nothing is matched. */
  lemma NothingWithin(a: Attribute, rest: string, j: nat)
    requires IsAttribute(a) && PlainValue(a) && !IsPlain(a) && j < |PrintAttribute(a)|
    ensures CellText.TypeEnd(PrintAttribute(a)[j..] + rest).None?
  {
    var n := |a.blank + a.name|;
    var k := n + |a.before| + 1;
    var quoted := [a.quote] + (a.value + ([a.quote] + rest));
    AttributePlaces(a, rest, j);
    if j < |a.blank| {
      AttributeMatches(a.(blank := a.blank[j..]), rest);
    } else if n <= j < n + |a.before| {
      NotBehindBlanks(a.before[j - n..], "=" + (a.after + quoted));
    } else if k <= j < k + |a.after| {
      NotBehindBlanks(a.after[j - k..], quoted);
    } else {
      AttributeLetters(a, j);
      NotAtLetter(PrintAttribute(a)[j..] + rest);
    }
  }

  lemma {:induction false} AttributeSkipped(a: Attribute)
    requires IsAttribute(a) && PlainValue(a) && !IsPlain(a)
    ensures Skips(TypeChanges(), PrintAttribute(a))
  {
    forall x: string ensures TypeChanges()(PrintAttribute(a) + x) == Shift(TypeChanges()(x), |PrintAttribute(a)|) {
      forall j: nat | j < |PrintAttribute(a)| ensures !Ends(CellText.Types(), PrintAttribute(a)[j..] + x) {
        NothingWithin(a, x, j);
      }
      SkipsText(CellText.Types(), CellText.INLINE, PrintAttribute(a), x);
    }
  }

  function TypeChanges(): Matcher {
    Changes(CellText.Types(), CellText.INLINE)
  }

  lemma {:induction false} AttributesSkipped(attributes: seq<Attribute>)
    requires forall i :: 0 <= i < |attributes| ==>
               IsAttribute(attributes[i]) && PlainValue(attributes[i]) && !IsPlain(attributes[i])
    ensures Skips(TypeChanges(), PrintAttributes(attributes))
  {
    if attributes == [] {
      SkipsNothing(TypeChanges());
    } else {
      AttributeSkipped(attributes[0]);
      AttributesSkipped(attributes[1..]);
      SkipsBoth(TypeChanges(), PrintAttribute(attributes[0]), PrintAttributes(attributes[1..]));
    }
  }

  lemma {:induction false} BlanksSkipped(gap: string)
    requires Blanks(gap)
    ensures TypeChanges()(gap).None?
  {
    if gap != [] {
      var n := CellText.Spaces(gap);
      assert gap[n..] != [] ==> gap[n] != 't';
      BlanksSkipped(gap[1..]);
    }
  }

  lemma {:induction false} NoMark(attributes: seq<Attribute>)
    requires forall i :: 0 <= i < |attributes| ==> IsAttribute(attributes[i]) && PlainValue(attributes[i])
    ensures '>' !in PrintAttributes(attributes)
  {
    if attributes != [] {
      OpeningPlain(attributes[0]);
      NoMark(attributes[1..]);
    }
  }

  lemma {:induction false} UntypedInFront(attributes: seq<Attribute>, j: nat)
    requires j < TypeIndex(attributes)
    ensures !IsType(attributes[j])
  {
    assert !IsType(attributes[0]) && TypeIndex(attributes) == 1 + TypeIndex(attributes[1..]);
    if j > 0 {
      UntypedInFront(attributes[1..], j - 1);
      assert attributes[j] == attributes[1..][j - 1];
    }
  }

  lemma {:induction false} OnlyOneType(attributes: seq<Attribute>, j: nat)
    requires OrdinaryAttributes(attributes) && j < |attributes| && j != TypeIndex(attributes) < |attributes|
    requires IsPlain(attributes[j])
    ensures !IsPlain(attributes[TypeIndex(attributes)])
  {
    LocalNames();
    if j < TypeIndex(attributes) {
      UntypedInFront(attributes, j);
    }
  }

  /** Of attributes without blanks and `>` in their values, a type is rewritten alone if it is written plainly. */
  lemma {:induction false} PlainTypeWritten(attributes: seq<Attribute>, gap: string)
    requires AreAttributes(attributes) && OrdinaryAttributes(attributes) && Blanks(gap)
    requires TypeIndex(attributes) < |attributes| && IsPlain(attributes[TypeIndex(attributes)])
    requires attributes[TypeIndex(attributes)].value != "inlineStr"
    ensures var i := TypeIndex(attributes);
      OnlyTypeChanges(PrintAttributes(attributes[..i]), PrintAttribute(attributes[i]),
          PrintAttributes(attributes[i + 1..]) + gap)
  {
    var i := TypeIndex(attributes);
    var front, back := attributes[..i], attributes[i + 1..];
    TypeThere(attributes);
    forall j | 0 <= j < |attributes| && j != i ensures !IsPlain(attributes[j]) {
      if IsPlain(attributes[j]) {
        OnlyOneType(attributes, j);
      }
    }
    AttributesSkipped(front);
    AttributesSkipped(back);
    BlanksSkipped(gap);
    Unmarked(attributes, i, gap);
    TypeBetween(PrintAttributes(front), attributes[i], PrintAttributes(back), gap);
  }

  lemma {:induction false} TypeBetween(before: string, a: Attribute, back: string, gap: string)
    requires IsAttribute(a) && IsPlain(a) && IsType(a) && a.value != "inlineStr"
    requires Skips(TypeChanges(), before) && Skips(TypeChanges(), back) && TypeChanges()(gap).None?
    requires '>' !in before && '>' !in PrintAttribute(a) && DecimalText.IndexOf(back + gap, '>') == |back + gap|
    ensures OnlyTypeChanges(before, PrintAttribute(a), back + gap)
  {
    var after := back + gap;
    TypeComes(a, after);
    Collections.Assoc(before, PrintAttribute(a), after);
    assert after[..|after|] == after;
  }

  lemma Unmarked(attributes: seq<Attribute>, i: nat, gap: string)
    requires AreAttributes(attributes) && OrdinaryAttributes(attributes) && Blanks(gap) && i < |attributes|
    ensures '>' !in PrintAttributes(attributes[..i]) && '>' !in PrintAttribute(attributes[i])
    ensures var after := PrintAttributes(attributes[i + 1..]) + gap;
      DecimalText.IndexOf(after, '>') == |after|
  {
    NoMark(attributes[..i]);
    NoMark(attributes[i + 1..]);
    OpeningPlain(attributes[i]);
    var after := PrintAttributes(attributes[i + 1..]) + gap;
    CellText.NoneFound(after, '>');
  }

  lemma {:induction false} TypeComes(a: Attribute, after: string)
    requires IsAttribute(a) && IsPlain(a) && IsType(a) && a.value != "inlineStr"
    ensures CellText.Types()(PrintAttribute(a) + after) == Some(|PrintAttribute(a)|)
    ensures FirstChange(CellText.Types(), CellText.INLINE, PrintAttribute(a) + after) == Some(0)
  {
    var s := PrintAttribute(a) + after;
    AttributeMatches(a, after);
    NotYetInline(a, after);
    assert s[..|PrintAttribute(a)|] == PrintAttribute(a);
  }

  /** A type that is not written plainly, or comes behind a `>`, is out of reach, whatever the other attributes are. */
  lemma TypeNeeds(e: Element, kind: string)
    requires IsCell(e) && Delivers(e, kind) && CellText.IsRetyped(kind) && TypeWritten(e, kind)
    ensures var i := TypeIndex(e.attributes);
      IsPlain(e.attributes[i]) && '>' !in PrintAttributes(e.attributes[..i]) && '>' !in e.attributes[i].value
  {
    var i := TypeIndex(e.attributes);
    var a, after := e.attributes[i], PrintAttributes(e.attributes[i + 1..]) + e.gap;
    AttributeMatches(a, after[..DecimalText.IndexOf(after, '>')]);
    OpeningPlain(a);
  }

  // ----- elements

  /** The start tag of an element is read as what it is called and nothing else. */
  lemma OtherTag(tag: string, rest: string, name: string)
    requires IsName(tag) && CellText.Known(name) && tag != name && rest != [] && !NameCharacter(rest[0])
    ensures CellText.ElementEnd("<" + tag + rest, name).None?
  {
    var open, t := "<" + name, "<" + tag + rest;
    assert t[1..] == tag + rest;
    if open <= t {
      assert forall k :: 0 <= k < |name| ==> (tag + rest)[k] == t[k + 1] == open[k + 1] == name[k];
      TagLonger(tag, rest, name);
      assert t[|open|..][0] == t[|open|] == tag[|name|];
    }
  }

  lemma TagLonger(tag: string, rest: string, name: string)
    requires CellText.Known(name) && tag != name && rest != [] && !NameCharacter(rest[0])
    requires |name| <= |tag + rest| && forall k :: 0 <= k < |name| ==> (tag + rest)[k] == name[k]
    ensures |tag| > |name|
  {
    if |tag| == |name| {
      SameTag(tag, rest, name);
    } else if |tag| < |name| {
      ShorterTag(tag, rest, name);
    }
  }

  lemma SameTag(tag: string, rest: string, name: string)
    requires |tag| == |name| && forall k :: 0 <= k < |name| ==> (tag + rest)[k] == name[k]
    ensures tag == name
  {
    assert forall k :: 0 <= k < |tag| ==> tag[k] == (tag + rest)[k];
  }

  lemma ShorterTag(tag: string, rest: string, name: string)
    requires CellText.Known(name) && |tag| < |name| <= |tag + rest|
    requires forall k :: 0 <= k < |name| ==> (tag + rest)[k] == name[k]
    ensures NameCharacter(rest[0])
  {
    assert (tag + rest)[|tag|] == rest[0] && NameCharacter(name[|tag|]);
  }

  lemma {:induction false} OtherElement(e: Element, rest: string, name: string)
    requires IsElement(e) && CellText.Known(name) && e.tag != name
    ensures CellText.ElementEnd(PrintElement(e) + rest, name).None?
  {
    ElementParts(e, rest);
    BodyEndsTag(e, rest);
    NameEnds(e, BodyText(e) + rest);
    var behind := PrintAttributes(e.attributes) + (e.gap + (BodyText(e) + rest));
    OtherTag(e.tag, behind, name);
    Collections.Assoc("<", e.tag, behind);
  }

  function Inside(e: Element): string {
    PrintAttributes(e.attributes) + e.gap
  }

  /** No `>` in its start tag, and its end tag not written inside; a value element holds plain text. */
  predicate OrdinarySlot(e: Element, name: string) {
    && '>' !in Inside(e)
    && (e.body.Content? ==> EndsFirst(PrintItems(e.body.items), CellText.Close(name)))
    && (e.body.Content? && name == "v" ==> '<' !in PrintItems(e.body.items))
  }

  predicate PlainSlot(e: Element, name: string) {
    e.tag == name && SpaceOf(e.body) == ""
  }

  lemma {:induction false} InsideEnds(e: Element)
    requires IsElement(e) && Inside(e) != []
    ensures CellText.IsSpace(Inside(e)[0]) && Inside(e)[|Inside(e)| - 1] != '/'
  {
    var s := Inside(e);
    if e.attributes != [] {
      FirstAttribute(e.attributes, e.gap);
      assert s[0] == e.attributes[0].blank[0];
    }
    if e.gap == [] {
      assert s == PrintAttributes(e.attributes);
      LastQuote(e.attributes);
    }
  }

  lemma {:induction false} LastQuote(attributes: seq<Attribute>)
    requires attributes != [] && forall i :: 0 <= i < |attributes| ==> IsAttribute(attributes[i])
    ensures var s := PrintAttributes(attributes); s != [] && s[|s| - 1] != '/'
  {
    var p := PrintAttribute(attributes[0]);
    assert p[|p| - 1] == attributes[0].quote;
    if |attributes| > 1 {
      LastQuote(attributes[1..]);
    } else {
      assert PrintAttributes(attributes[1..]) == [];
    }
  }

  lemma {:induction false} NotClosed(text: string, name: string, space: string, rest: string)
    requires CellText.Known(name) && EndsFirst(text, CellText.Close(name)) && Blanks(space) && space != [] &&
             '<' !in rest
    ensures CellText.Index(text + ("</" + (name + (space + (">" + rest)))), CellText.Close(name)).None?
  {
    var close, s := CellText.Close(name), text + ("</" + (name + (space + (">" + rest))));
    forall j: nat ensures !CellText.At(s, j, close) {
      if CellText.At(s, j, close) {
        CloseThere(text, name, space, rest, j);
      }
    }
    CellText.IndexAbsent(s, close);
  }

  lemma CloseThere(text: string, name: string, space: string, rest: string, j: nat)
    requires CellText.Known(name) && EndsFirst(text, CellText.Close(name)) && Blanks(space) && space != [] &&
             '<' !in rest
    ensures !CellText.At(text + ("</" + (name + (space + (">" + rest)))), j, CellText.Close(name))
  {
    var close, behind := CellText.Close(name), "</" + (name + (space + (">" + rest)));
    if j < |text| {
      NotAcrossEnd(text, name, space + (">" + rest), j);
    } else {
      CellText.AtBehind(text, behind, close, j - |text|);
      NotBehindText(name, space, rest, j - |text|);
    }
  }

  lemma NotAcrossEnd(text: string, name: string, rest: string, j: nat)
    requires EndsFirst(text, CellText.Close(name)) && j < |text|
    ensures !CellText.At(text + ("</" + (name + rest)), j, CellText.Close(name))
  {
    var close, s, t := CellText.Close(name), text + ("</" + (name + rest)), text + CellText.Close(name);
    var n := |text| + 2 + |name|;
    assert s[..n] == text + "</" + name == t[..n];
    CellText.IndexFinds(t, close);
    assert !CellText.At(t, j, close);
    assert s[j..j + |close|] == s[..n][j..j + |close|] == t[..n][j..j + |close|] == t[j..j + |close|];
  }

  lemma NotBehindText(name: string, space: string, rest: string, i: nat)
    requires CellText.Known(name) && Blanks(space) && space != [] && '<' !in rest
    ensures !CellText.At("</" + (name + (space + (">" + rest))), i, CellText.Close(name))
  {
    var close, s := CellText.Close(name), "</" + (name + (space + (">" + rest)));
    var k := if i == 0 then 2 + |name| else 0;
    CellText.AtCharacters(s, i, close);
    NoOpeningThere(name, space, rest);
    assert s[2 + |name|] == space[0] && close[2 + |name|] == '>' && close[0] == '<';
    assert i + |close| <= |s| ==> s[i + k] != close[k];
  }

  lemma NoOpeningThere(name: string, space: string, rest: string)
    requires CellText.Known(name) && Blanks(space) && '<' !in rest
    ensures var s := "</" + (name + (space + (">" + rest))); forall i :: 0 < i < |s| ==> s[i] != '<'
  {
    var t := name + (space + (">" + rest));
    assert '<' !in name && '<' !in space && '<' !in ">" && '<' !in t;
    var s := "</" + t;
    assert s[1] == '/' && forall i :: 2 <= i < |s| ==> s[i] == t[i - 2] && t[i - 2] in t;
  }

  /** Where the closing tag is first read behind the start tag. */
  lemma {:induction false} Closing(e: Element, rest: string)
    requires IsElement(e) && e.body.Content? && CellText.Known(e.tag) && OrdinarySlot(e, e.tag) && '<' !in rest
    ensures var close := CellText.Close(e.tag);
      CellText.Index((BodyText(e) + rest)[1..], close) ==
      if SpaceOf(e.body) == "" then Some(|PrintItems(e.body.items)|) else None
  {
    var text, close, space := PrintItems(e.body.items), CellText.Close(e.tag), SpaceOf(e.body);
    ContentText(e, rest);
    var behind := text + ("</" + (e.tag + (space + (">" + rest))));
    assert (BodyText(e) + rest)[1..] == behind;
    if space == "" {
      FirstEnd(close, text, rest);
      assert space + (">" + rest) == ">" + rest;
      assert "</" + (e.tag + (">" + rest)) == close + rest;
    } else {
      NotClosed(text, e.tag, space, rest);
    }
  }

  /** An element called as asked for is matched as a whole just when its end tag is plain. */
  lemma {:induction false} SlotEnds(e: Element, rest: string)
    requires IsElement(e) && CellText.Known(e.tag) && OrdinarySlot(e, e.tag) && '<' !in rest
    ensures CellText.ElementEnd(PrintElement(e) + rest, e.tag) ==
            if SpaceOf(e.body) == "" then Some(|PrintElement(e)|) else None
  {
    SlotBehind(e, rest);
    ReadBehind(PrintElement(e) + rest, e.tag, Inside(e) + (BodyText(e) + rest));
    BehindName(e, rest);
  }

  lemma ReadBehind(s: string, name: string, behind: string)
    requires "<" + name <= s && |s| > |name| + 1 && s[|name| + 1..] == behind
    ensures CellText.ElementEnd(s, name) ==
            CellText.Shifted(CellText.AfterName(behind, CellText.Close(name)), |name| + 1)
  {
    CellText.ElementReads(s, name);
  }

  lemma {:induction false} BehindName(e: Element, rest: string)
    requires IsElement(e) && CellText.Known(e.tag) && OrdinarySlot(e, e.tag) && '<' !in rest
    ensures Inside(e) + (BodyText(e) + rest) != []
    ensures CellText.AfterName(Inside(e) + (BodyText(e) + rest), CellText.Close(e.tag)) ==
            if SpaceOf(e.body) == "" then Some(|Inside(e)| + |BodyText(e)|) else None
  {
    BodyEndsTag(e, rest);
    if Inside(e) == [] {
      assert Inside(e) + (BodyText(e) + rest) == BodyText(e) + rest;
      BareEnds(e, rest);
    } else {
      InsideEnds(e);
      AttributedEnds(e, rest);
    }
  }

  lemma {:induction false} SlotBehind(e: Element, rest: string)
    ensures var s, behind := PrintElement(e) + rest, Inside(e) + (BodyText(e) + rest);
      && "<" + e.tag <= s && |s| > |e.tag| + 1 && s[|e.tag| + 1..] == behind
      && |PrintElement(e)| == |e.tag| + 1 + |Inside(e)| + |BodyText(e)|
  {
    var open := "<" + e.tag;
    ElementSplit(e, rest);
    ElementSplit(e, "");
    BodyEndsTag(e, rest);
    assert PrintElement(e) + "" == PrintElement(e) && BodyText(e) + "" == BodyText(e);
    assert |open| == |e.tag| + 1;
  }

  lemma {:induction false} ElementSplit(e: Element, rest: string)
    ensures PrintElement(e) + rest == ("<" + e.tag) + (Inside(e) + (BodyText(e) + rest))
  {
    ElementParts(e, rest);
    var body := BodyText(e) + rest;
    Collections.Assoc(PrintAttributes(e.attributes), e.gap, body);
    Collections.Assoc("<", e.tag, Inside(e) + body);
  }

  lemma {:induction false} BareEnds(e: Element, rest: string)
    requires IsElement(e) && CellText.Known(e.tag) && OrdinarySlot(e, e.tag) && '<' !in rest
    ensures CellText.AfterName(BodyText(e) + rest, CellText.Close(e.tag)) ==
            if SpaceOf(e.body) == "" then Some(|BodyText(e)|) else None
  {
    BodyEndsTag(e, rest);
    if e.body.Content? {
      Closing(e, rest);
      BodyLength(e);
    }
  }

  lemma {:induction false} AttributedEnds(e: Element, rest: string)
    requires IsElement(e) && CellText.Known(e.tag) && OrdinarySlot(e, e.tag) && '<' !in rest && Inside(e) != []
    requires CellText.IsSpace(Inside(e)[0]) && Inside(e)[|Inside(e)| - 1] != '/'
    ensures CellText.AfterName(Inside(e) + (BodyText(e) + rest), CellText.Close(e.tag)) ==
            if SpaceOf(e.body) == "" then Some(|Inside(e)| + |BodyText(e)|) else None
  {
    if e.body.Content? {
      Closing(e, rest);
      BodyLength(e);
      BodyEndsTag(e, rest);
      BehindOpen(Inside(e), BodyText(e) + rest, CellText.Close(e.tag));
    } else {
      assert BodyText(e) == "/>";
      BehindEmpty(Inside(e), rest, CellText.Close(e.tag));
    }
  }

  lemma BodyLength(e: Element)
    requires e.body.Content?
    ensures SpaceOf(e.body) == "" ==> |BodyText(e)| == 1 + |PrintItems(e.body.items)| + |CellText.Close(e.tag)|
  {
  }

  lemma {:induction false} BehindOpen(inside: string, body: string, close: string)
    requires inside != [] && CellText.IsSpace(inside[0]) && '>' !in inside && inside[|inside| - 1] != '/'
    requires body != [] && body[0] == '>'
    ensures CellText.AfterName(inside + body, close) ==
            CellText.Shifted(CellText.Index(body[1..], close), |inside| + 1 + |close|)
  {
    var s := inside + body;
    assert s[0] == inside[0] && s[|inside| - 1] == inside[|inside| - 1] && s[|inside| + 1..] == body[1..];
    FirstMark(inside, body);
    OpenAt(s, |inside|, close);
  }

  lemma FirstMark(inside: string, body: string)
    requires inside != [] && '>' !in inside && body != [] && body[0] == '>'
    ensures DecimalText.IndexOf((inside + body)[1..], '>') == |inside| - 1
  {
    assert (inside + body)[1..] == inside[1..] + body;
    CellText.IndexOfAppend(inside[1..], body, '>');
  }

  lemma {:induction false} OpenAt(s: string, q: nat, close: string)
    requires 0 < q < |s| && CellText.IsSpace(s[0]) && DecimalText.IndexOf(s[1..], '>') == q - 1 && s[q - 1] != '/'
    ensures CellText.AfterName(s, close) == CellText.Shifted(CellText.Index(s[q + 1..], close), q + 1 + |close|)
  {
  }

  lemma BehindEmpty(inside: string, rest: string, close: string)
    requires inside != [] && CellText.IsSpace(inside[0]) && '>' !in inside
    requires '<' !in rest && close != [] && close[0] == '<'
    ensures CellText.AfterName(inside + ("/>" + rest), close) == Some(|inside| + 2)
  {
    var s, body := inside + ("/>" + rest), "/>" + rest;
    assert s[1..] == inside[1..] + body;
    CellText.IndexOfAppend(inside[1..], body, '>');
    assert body[1..][0] == '>' && DecimalText.IndexOf(body, '>') == 1;
    assert s[|inside| + 2..] == rest && s[|inside|] == '/';
    NoClosing(rest, close);
  }

  lemma {:induction false} NoClosing(s: string, close: string)
    requires '<' !in s && close != [] && close[0] == '<'
    ensures CellText.Index(s, close).None?
  {
    forall j: nat ensures !CellText.At(s, j, close) {
      CellText.AtCharacters(s, j, close);
      assert j < |s| ==> s[j] in s;
    }
    CellText.IndexAbsent(s, close);
  }

  // ----- the content

  predicate OnlyText(items: Items) {
    items.Cons? ==> items.head.Characters? && OnlyText(items.tail)
  }

  lemma {:induction false} TextPrints(items: Items)
    requires AreItems(items) && OnlyText(items)
    ensures '<' !in PrintItems(items)
  {
    if items.Cons? {
      TextPrints(items.tail);
    }
  }

  lemma {:induction false} TextSilent(items: Items, inline: bool)
    requires OnlyText(items)
    ensures WalkItems(items, inline, START) == START
  {
    if items.Cons? {
      TextSilent(items.tail, inline);
    }
  }

  /** Between texts, an element is the only match just when it is matched as a whole. */
  lemma {:induction false} BetweenTexts(a: string, w: string, b: string, name: string)
    requires '<' !in a && '<' !in b && w != []
    ensures OnlyMatch(CellText.Slots(name), a, w, b) <==> CellText.ElementEnd(w + b, name) == Some(|w|)
    ensures CellText.ElementEnd(w + b, name) == Some(|w|) ==> CellText.HasElement(a + w + b, name)
  {
    TextSkipped(a, w + b, name);
    CellText.NoElements(b, name, "");
    CellText.ReplaceIsRewrite(b, name, "");
    Collections.Assoc(a, w, b);
    CellText.PlainAhead(a, w + b, name, "");
  }

  lemma {:induction false} TextSkipped(a: string, x: string, name: string)
    requires '<' !in a
    ensures Place(CellText.Slots(name), a + x) == Shift(Place(CellText.Slots(name), x), |a|)
  {
    forall j: nat | j < |a| ensures !Ends(CellText.Slots(name), a[j..] + x) {
      assert (a[j..] + x)[0] == a[j];
    }
    SkipsText(CellText.Slots(name), "", a, x);
  }

  /** Plain text in a value element is no inline string. */
  lemma {:induction false} NoInline(e: Element, a: string, b: string)
    requires IsElement(e) && e.tag == "v" && OrdinarySlot(e, "v") && '<' !in a && '<' !in b
    ensures !CellText.HasElement(a + PrintElement(e) + b, "is")
  {
    var w := PrintElement(e) + b;
    Collections.Assoc(a, PrintElement(e), b);
    CellText.PlainAhead(a, w, "is", "");
    OtherElement(e, b, "is");
    CellText.HeadTail(w);
    CellText.PlainStep(w[0], w[1..], "is", "");
    NoInlineBehind(e, b);
  }

  lemma {:induction false} EndTagIsNone(end: string)
    requires '<' !in end
    ensures !CellText.HasElement(['<', '/'] + end, "is")
  {
    var rest := ['/'] + end;
    assert ['<', '/'] + end == ['<'] + rest;
    assert (['<'] + rest)[1] == '/' && ("<" + "is")[1] == 'i';
    CellText.PlainStep('<', rest, "is", "");
    CellText.NoElements(rest, "is", "");
  }

  lemma {:induction false} NoTagAtEnd(e: Element, b: string)
    requires IsElement(e) && e.body.Content? && '<' !in b
    ensures '<' !in e.tag + (e.body.space + (">" + b))
  {
    assert '<' !in e.body.space && '<' !in e.tag;
  }

  lemma {:induction false} NoInlineBehind(e: Element, b: string)
    requires IsElement(e) && e.tag == "v" && OrdinarySlot(e, "v") && '<' !in b
    ensures !CellText.HasElement((PrintElement(e) + b)[1..], "is")
  {
    NoTagInAttributes(e.attributes);
    if e.body.Content? {
      var text := e.tag + Inside(e) + ">" + PrintItems(e.body.items);
      NoTagAtEnd(e, b);
      ContentBehind(e, b);
      NoInlineInside(text, e.tag + (e.body.space + (">" + b)));
    } else {
      EmptyBehind(e, b);
      CellText.NoElements(e.tag + Inside(e) + "/>" + b, "is", "");
    }
  }

  lemma {:induction false} NoInlineInside(text: string, end: string)
    requires '<' !in text && '<' !in end
    ensures !CellText.HasElement(text + (['<', '/'] + end), "is")
  {
    CellText.PlainAhead(text, ['<', '/'] + end, "is", "");
    EndTagIsNone(end);
  }

  lemma {:induction false} ContentBehind(e: Element, b: string)
    requires e.body.Content?
    ensures (PrintElement(e) + b)[1..] ==
            e.tag + Inside(e) + ">" + PrintItems(e.body.items) + (['<', '/'] + (e.tag + (e.body.space + (">" + b))))
  {
    ElementParts(e, b);
    ContentText(e, b);
  }

  lemma {:induction false} EmptyBehind(e: Element, b: string)
    requires e.body.Empty?
    ensures (PrintElement(e) + b)[1..] == e.tag + Inside(e) + "/>" + b
  {
    ElementParts(e, b);
  }

  /** The right expression finds the slot just when its tags are plain. */
  lemma {:induction false} SlotFound(e: Element, name: string, kind: string, a: string, b: string)
    requires IsElement(e) && Local(e.tag) == name && OrdinarySlot(e, name) && '<' !in a && '<' !in b
    requires name == "v" || (name == "is" && CellText.IsText(kind))
    ensures CellText.OnlySlot(kind, a, PrintElement(e), b) <==> PlainSlot(e, name)
  {
    var w, other := PrintElement(e), if name == "v" then "is" else "v";
    LocalNames();
    OtherElement(e, b, other);
    BetweenTexts(a, w, b, name);
    BetweenTexts(a, w, b, other);
    if e.tag == name {
      SlotEnds(e, b);
      if name == "v" {
        NoInline(e, a, b);
      }
    } else {
      OtherElement(e, b, name);
    }
  }

  // ----- exactly which ordinary cells take every amount

  predicate OrdinaryContent(items: Items, name: string) {
    if HasTop(items, name) then
      OnlyText(Front(items, name)) && OrdinarySlot(Slot(items, name).element, name) && OnlyText(Back(items, name))
    else OnlyText(items)
  }

  predicate Ordinary(e: Element, kind: string) {
    OrdinaryAttributes(e.attributes) && OrdinaryContent(ItemsOf(e.body), SlotName(kind, ItemsOf(e.body)))
  }

  /** The type as ` t="…"`. */
  predicate TypePlain(attributes: seq<Attribute>) {
    var i := TypeIndex(attributes);
    i < |attributes| ==> IsPlain(attributes[i])
  }

  /** The slot as `<v…>…</v>` or `<is…>…</is>`, a cell without a slot as `<c…>…</c>`. */
  predicate TagsPlain(e: Element, name: string) {
    var items := ItemsOf(e.body);
    if HasTop(items, name) then PlainSlot(Slot(items, name).element, name) else e.tag == "c" && SpaceOf(e.body) == ""
  }

  predicate WrittenPlainly(e: Element, kind: string) {
    (CellText.IsRetyped(kind) ==> TypePlain(e.attributes)) && TagsPlain(e, SlotName(kind, ItemsOf(e.body)))
  }

  lemma TypeOrdinary(e: Element, kind: string)
    requires IsCell(e) && Delivers(e, kind) && CellText.IsRetyped(kind) && OrdinaryAttributes(e.attributes)
    ensures TypeWritten(e, kind) <==> TypePlain(e.attributes)
  {
    if TypeWritten(e, kind) {
      TypeNeeds(e, kind);
    } else if TypePlain(e.attributes) {
      PlainWritten(e, kind);
    }
  }

  lemma PlainWritten(e: Element, kind: string)
    requires IsCell(e) && Delivers(e, kind) && CellText.IsRetyped(kind) && OrdinaryAttributes(e.attributes)
    requires IsPlain(e.attributes[TypeIndex(e.attributes)])
    ensures TypeWritten(e, kind)
  {
    PlainTypeWritten(e.attributes, e.gap);
  }

  lemma ContentOrdinary(e: Element, kind: string)
    requires IsCell(e) && OrdinaryContent(ItemsOf(e.body), SlotName(kind, ItemsOf(e.body)))
    ensures ContentTakes(e, kind) <==> TagsPlain(e, SlotName(kind, ItemsOf(e.body)))
  {
    var items := ItemsOf(e.body);
    var name := SlotName(kind, items);
    if HasTop(items, name) {
      FrontFits(items, name);
      SlotParts(items, name);
      TextPrints(Front(items, name));
      TextPrints(Back(items, name));
      SlotFound(Slot(items, name).element, name, kind, PrintItems(Front(items, name)), PrintItems(Back(items, name)));
    } else {
      TextOnly(e, kind);
    }
  }

  lemma TextOnly(e: Element, kind: string)
    requires IsCell(e) && OnlyText(ItemsOf(e.body))
    ensures CellText.TakesAppended(ShellOf(e), kind) <==> e.tag == "c" && SpaceOf(e.body) == ""
  {
    var text := PrintItems(ItemsOf(e.body));
    TextOfShell(e);
    assert AreItems(Nil);
    TextPrints(ItemsOf(e.body));
    CellText.NoElements(text, "v", "");
    CellText.NoElements(text, "is", "");
    NoClosing(text, CellText.CLOSE);
  }

  lemma TextsSilent(e: Element, kind: string)
    requires OrdinaryContent(ItemsOf(e.body), SlotName(kind, ItemsOf(e.body)))
    ensures OthersSilent(e, kind)
  {
    var items, inline := ItemsOf(e.body), CellText.IsText(kind);
    var name := SlotName(kind, items);
    if HasTop(items, name) {
      TextSilent(Front(items, name), inline);
      TextSilent(Back(items, name), inline);
    } else {
      TextSilent(items, inline);
    }
  }

  /** An ordinary cell comes back holding the amount, whatever the amount, exactly when it is written plainly. */
  lemma OrdinaryExactly(e: Element, kind: string)
    requires IsCell(e) && Delivers(e, kind) && Ordinary(e, kind)
    ensures WrittenPlainly(e, kind) <==> forall amount :: IsAmount(amount) ==> Fills(e, kind, amount)
  {
    FillsExactly(e, kind);
    TextsSilent(e, kind);
    ContentOrdinary(e, kind);
    if CellText.IsRetyped(kind) {
      TypeOrdinary(e, kind);
    }
  }

  // ----- what every cell needs that takes amounts

  /** Up to `n` the text ends with the closing tag, or with a slash and one more character. */
  predicate EndsThere(s: string, n: nat, close: string) {
    n <= |s| && ((2 <= n && s[n - 2] == '/') || (|close| <= n && s[n - |close|..n] == close))
  }

  lemma EndsBehind(s: string, from: nat, m: nat, close: string)
    requires from <= |s| && EndsThere(s[from..], m, close)
    ensures EndsThere(s, from + m, close)
  {
    if |close| <= m && s[from..][m - |close|..m] == close {
      assert s[from + m - |close|..from + m] == close;
    }
  }

  lemma {:induction false} CloseFound(s: string, from: nat, close: string)
    requires from <= |s| && CellText.Index(s[from..], close).Some?
    ensures EndsThere(s, CellText.Index(s[from..], close).value + from + |close|, close)
  {
    CellText.IndexFinds(s[from..], close);
    EndsBehind(s, from, CellText.Index(s[from..], close).value + |close|, close);
  }

  lemma AfterAttributesEnds(rest: string, close: string)
    requires rest != [] && CellText.AfterAttributes(rest, close).Some?
    ensures EndsThere(rest, CellText.AfterAttributes(rest, close).value, close)
  {
    var q := 1 + DecimalText.IndexOf(rest[1..], '>');
    if CellText.Index(rest[q + 1..], close).Some? {
      CloseFound(rest, q + 1, close);
    }
  }

  lemma AfterNameEnds(rest: string, close: string)
    requires rest != [] && CellText.AfterName(rest, close).Some?
    ensures EndsThere(rest, CellText.AfterName(rest, close).value, close)
  {
    if CellText.IsSpace(rest[0]) {
      AfterAttributesEnds(rest, close);
    } else if rest[0] == '>' {
      CloseFound(rest, 1, close);
    }
  }

  /** A match ends with the closing tag, or with `/>`. */
  lemma MatchEnds(s: string, name: string)
    requires CellText.ElementEnd(s, name).Some?
    ensures EndsThere(s, CellText.ElementEnd(s, name).value, CellText.Close(name))
  {
    CellText.ElementReads(s, name);
    EndsBehindName(s, |name| + 1, s[|name| + 1..], CellText.Close(name));
  }

  lemma EndsBehindName(s: string, from: nat, rest: string, close: string)
    requires from < |s| && rest == s[from..] && CellText.AfterName(rest, close).Some?
    ensures EndsThere(s, CellText.AfterName(rest, close).value + from, close)
  {
    AfterNameEnds(rest, close);
    EndsBehind(s, from, CellText.AfterName(rest, close).value, close);
  }

  /** An element matched as a whole is called as asked for, and its end tag is plain. */
  lemma {:induction false} MatchedPlainly(e: Element, rest: string, name: string)
    requires IsElement(e) && CellText.Known(name)
    requires CellText.ElementEnd(PrintElement(e) + rest, name) == Some(|PrintElement(e)|)
    ensures PlainSlot(e, name)
  {
    if e.tag != name {
      OtherElement(e, rest, name);
    } else if SpaceOf(e.body) != "" {
      MatchEnds(PrintElement(e) + rest, name);
      BlankEnd(e, rest);
    }
  }

  lemma {:induction false} BlankEnd(e: Element, rest: string)
    requires IsElement(e) && CellText.Known(e.tag) && SpaceOf(e.body) != ""
    ensures !EndsThere(PrintElement(e) + rest, |PrintElement(e)|, CellText.Close(e.tag))
  {
    var s, n, close, space := PrintElement(e) + rest, |PrintElement(e)|, CellText.Close(e.tag), SpaceOf(e.body);
    ElementSplit(e, "");
    ContentText(e, "");
    var t := PrintElement(e) + "";
    assert t == PrintElement(e) && t[n - 1] == '>' && t[n - 2] == space[|space| - 1];
    assert s[n - 2] == t[n - 2] && IsBlank(s[n - 2]);
    assert close[|close| - 2] == e.tag[|e.tag| - 1];
    assert |close| <= n ==> s[n - |close|..n][|close| - 2] == s[n - 2];
  }

  predicate InItems(item: Item, items: Items) {
    items.Cons? && (items.head == item || InItems(item, items.tail))
  }

  lemma {:induction false} IndexFurther(s: string, rest: string, x: string)
    requires CellText.Index(s, x).Some?
    ensures CellText.Index(s + rest, x).Some?
  {
    CellText.IndexFinds(s, x);
    CellText.IndexFinds(s + rest, x);
    CellText.AtCharacters(s, CellText.Index(s, x).value, x);
    CellText.AtCharacters(s + rest, CellText.Index(s, x).value, x);
  }

  lemma AfterAttributesFurther(s: string, rest: string, close: string)
    requires s != [] && CellText.AfterAttributes(s, close).Some?
    ensures CellText.AfterAttributes(s + rest, close).Some?
  {
    var q := 1 + DecimalText.IndexOf(s[1..], '>');
    assert (s + rest)[1..] == s[1..] + rest;
    CellText.IndexOfAppend(s[1..], rest, '>');
    assert (s + rest)[q + 1..] == s[q + 1..] + rest;
    if CellText.Index(s[q + 1..], close).Some? {
      IndexFurther(s[q + 1..], rest, close);
    }
  }

  lemma AfterNameFurther(s: string, rest: string, close: string)
    requires s != [] && CellText.AfterName(s, close).Some?
    ensures CellText.AfterName(s + rest, close).Some?
  {
    if CellText.IsSpace(s[0]) {
      AfterAttributesFurther(s, rest, close);
    } else if s[0] == '>' {
      assert (s + rest)[1..] == s[1..] + rest;
      IndexFurther(s[1..], rest, close);
    }
  }

  /** What matches does so in front of anything. */
  lemma MatchesFurther(s: string, rest: string, name: string)
    requires CellText.ElementEnd(s, name).Some?
    ensures CellText.ElementEnd(s + rest, name).Some?
  {
    var n := |name| + 1;
    CellText.ElementReads(s, name);
    assert (s + rest)[n..] == s[n..] + rest && "<" + name <= s + rest;
    CellText.ElementReads(s + rest, name);
    AfterNameFurther(s[n..], rest, CellText.Close(name));
  }

  /** A match inside the front of a text makes the first match begin there. */
  lemma {:induction false} FoundInFront(a: string, x: string, name: string)
    requires CellText.HasElement(a, name)
    ensures Place(CellText.Slots(name), a + x).Some? && Place(CellText.Slots(name), a + x).value < |a|
  {
    if CellText.ElementEnd(a, name).Some? {
      MatchesFurther(a, x, name);
    } else {
      assert (a + x)[1..] == a[1..] + x;
      FoundInFront(a[1..], x, name);
    }
  }

  lemma {:induction false} FoundBehind(a: string, x: string, name: string)
    requires CellText.HasElement(x, name)
    ensures CellText.HasElement(a + x, name)
  {
    if a == [] {
      assert a + x == x;
    } else {
      assert (a + x)[1..] == a[1..] + x;
      FoundBehind(a[1..], x, name);
    }
  }

  /** What an item holds, the content holds. */
  lemma {:induction false} FoundInItems(item: Item, items: Items, name: string)
    requires InItems(item, items) && CellText.HasElement(PrintItem(item), name)
    ensures CellText.HasElement(PrintItems(items), name)
  {
    if items.head == item {
      FoundInFront(PrintItem(item), PrintItems(items.tail), name);
      CellText.ReplaceIsRewrite(PrintItems(items), name, "");
    } else {
      FoundInItems(item, items.tail, name);
      FoundBehind(PrintItem(items.head), PrintItems(items.tail), name);
    }
  }

  /** The one match is the slot, written plainly. */
  lemma SlotNeeds(e: Element, kind: string)
    requires IsCell(e) && ContentTakes(e, kind) && HasTop(ItemsOf(e.body), SlotName(kind, ItemsOf(e.body)))
    ensures var items := ItemsOf(e.body); var name := SlotName(kind, items);
      && PlainSlot(Slot(items, name).element, name) && CellText.Expression(kind, PrintItems(items)) == Some(name)
  {
    var items := ItemsOf(e.body);
    var name := SlotName(kind, items);
    var slot, b := Slot(items, name).element, PrintItems(Back(items, name));
    LocalNames();
    FrontFits(items, name);
    SlotParts(items, name);
    SlotText(items, name);
    var found := CellText.Expression(kind, PrintItems(items)).value;
    MatchedPlainly(slot, b, found);
  }

  /** Whatever else a cell holds: a cell that takes amounts is written plainly. */
  lemma PlainlyNeeded(e: Element, kind: string)
    requires IsCell(e) && Delivers(e, kind) && Takes(e, kind)
    ensures WrittenPlainly(e, kind)
  {
    if CellText.IsRetyped(kind) {
      TypeNeeds(e, kind);
    }
    if HasTop(ItemsOf(e.body), SlotName(kind, ItemsOf(e.body))) {
      SlotNeeds(e, kind);
    }
  }

  /** And nothing beside its slot, be it a comment, a section or an element, holds what looks like one. */
  lemma {:induction false} NothingBeside(e: Element, kind: string, item: Item)
    requires IsCell(e) && ContentTakes(e, kind)
    requires var items := ItemsOf(e.body); var name := SlotName(kind, items);
      if HasTop(items, name) then InItems(item, Front(items, name)) || InItems(item, Back(items, name))
      else InItems(item, items)
    ensures !CellText.HasElement(PrintItem(item), SlotName(kind, ItemsOf(e.body)))
  {
    var items := ItemsOf(e.body);
    var name := SlotName(kind, items);
    if CellText.HasElement(PrintItem(item), name) {
      if HasTop(items, name) {
        SlotNeeds(e, kind);
        SlotText(items, name);
        var a, w, b := PrintItems(Front(items, name)), PrintItem(Slot(items, name)), PrintItems(Back(items, name));
        if InItems(item, Front(items, name)) {
          FoundInItems(item, Front(items, name), name);
          FoundInFront(a, w + b, name);
          Collections.Assoc(a, w, b);
        } else {
          FoundInItems(item, Back(items, name), name);
          CellText.ReplaceIsRewrite(b, name, "");
        }
      } else {
        TextOfShell(e);
        FoundInItems(item, items, name);
      }
    }
  }
}

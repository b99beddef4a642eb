/** Cells the walk delivers and the patcher gets wrong, each with the cell it makes of them for every amount. */
module CellInputs {
  import opened Wrappers
  import Collections
  import DecimalText
  import opened Rewriting
  import CellText
  import opened CellReading
  import opened CellFilling
  import opened OrdinaryCells

  predicate IsReference(cell: string) {
    forall i :: 0 <= i < |cell| ==> 'A' <= cell[i] <= 'Z' || DecimalText.IsDigit(cell[i])
  }

  function Reference(cell: string): Attribute {
    Attribute(" ", "r", "", "", '"', cell)
  }

  function Value(text: string): Item {
    Tagged("v", Cons(Characters(text), Nil))
  }

  function CellOf(attributes: seq<Attribute>, items: Items): Element {
    Element("c", attributes, "", Content(items, ""))
  }

  // ----- an element that is matched as written

  lemma ValueText(text: string)
    ensures PrintItem(Value(text)) == "<v>" + text + "</v>" &&
            PrintItems(Cons(Value(text), Nil)) == "<v>" + text + "</v>"
  {
    TaggedText("v", text);
    OnePrints(Value(text));
  }

  /** A value element without markup inside is one match, whatever follows. */
  lemma ValueMatches(text: string, rest: string)
    requires '<' !in text
    ensures CellText.ElementEnd("<v>" + text + "</v>" + rest, "v") == Some(|text| + 7)
  {
    var s, behind := "<v>" + text + "</v>" + rest, ">" + text + ("</v>" + rest);
    assert s == "<v" + behind;
    assert s[2..] == behind && behind[1..] == text + ("</v>" + rest);
    CellText.ElementReads(s, "v");
    FirstClosing(text, rest);
    assert behind[0] == '>' && CellText.Close("v") == "</v>";
    NotClosedThere(behind);
  }

  lemma NotClosedThere(s: string)
    requires s != [] && s[0] == '>'
    ensures !("/>" <= s) && !CellText.IsSpace(s[0])
  {
  }

  lemma {:induction false} FirstClosing(text: string, rest: string)
    requires '<' !in text
    ensures CellText.Index(text + ("</v>" + rest), "</v>") == Some(|text|)
  {
    forall j: nat | j < |text| ensures !CellText.At(text + ("</v>" + rest), j, "</v>") {
      PlainAt(text, "</v>" + rest, j);
    }
    CellText.IndexBehind(text, "</v>" + rest, "</v>");
    CellText.IndexUnique("</v>" + rest, "</v>", 0);
  }

  lemma PlainAt(text: string, rest: string, j: nat)
    requires '<' !in text && j < |text|
    ensures !CellText.At(text + rest, j, "</v>")
  {
    CellText.AtCharacters(text + rest, j, "</v>");
    assert (text + rest)[j] == text[j] && text[j] in text;
    assert "</v>"[0] == '<';
  }

  lemma ReferenceFits(cell: string)
    requires IsReference(cell)
    ensures IsAttribute(Reference(cell)) && PlainValue(Reference(cell)) && !IsPlain(Reference(cell)) &&
            !IsType(Reference(cell))
    ensures IsName("c") && Local("c") == "c" && AreAttributes([Reference(cell)])
  {
    NoColon("c");
    NoColon("r");
  }

  // ----- a comment that looks like a value

  lemma EndsAtDashes(text: string)
    requires '-' !in text
    ensures EndsFirst(text, "--")
  {
    var end := "--";
    forall j: nat | j < |text| ensures !CellText.At(text + end, j, end) {
      CellText.AtCharacters(text + end, j, end);
      assert (text + end)[j] == text[j] && text[j] in text && end[0] == '-';
    }
    CellText.IndexBehind(text, end, end);
    CellText.IndexUnique(end, end, 0);
  }

  lemma SelfClosedMatches(rest: string)
    ensures CellText.ElementEnd("<v/>" + rest, "v") == Some(4)
  {
    var s := "<v/>" + rest;
    assert s == "<v" + ("/>" + rest) && s[2..] == "/>" + rest;
    assert "/>" <= "/>" + rest && ("/>" + rest)[0] == '/';
    CellText.ElementReads(s, "v");
  }

  /** In front of the pseudo element only plain text, behind it too. */
  lemma {:induction false} CommentRewritten(put: string, open: string, rest: string)
    requires open == "!--" && rest == "-->"
    ensures var text := ['<'] + (open + ("<v/>" + rest));
      && CellText.HasElement(text, "v") && !CellText.HasElement(text, "is")
      && Rewrite(CellText.Slots("v"), put, text) == ['<'] + (open + (put + rest))
  {
    var tail := "<v/>" + rest;
    CellText.ReplaceIsRewrite(['<'] + (open + tail), "v", put);
    NoElementThere(open + tail, "v");
    CellText.PlainStep('<', open + tail, "v", put);
    CellText.PlainAhead(open, tail, "v", put);
    SelfClosedRewritten(put, rest);
    NoElementThere(open + tail, "is");
    CellText.PlainStep('<', open + tail, "is", put);
    CellText.PlainAhead(open, tail, "is", put);
  }

  lemma NoElementThere(s: string, name: string)
    requires s != [] && s[0] == '!' && (name == "v" || name == "is")
    ensures CellText.ElementEnd(['<'] + s, name).None?
  {
    assert (['<'] + s)[1] == '!';
    assert ("<" + name)[1] == name[0];
  }

  lemma {:induction false} SelfClosedRewritten(put: string, rest: string)
    requires '<' !in rest
    ensures var s := "<v/>" + rest;
      && CellText.HasElement(s, "v") && CellText.ReplaceElements(s, "v", put) == put + rest &&
         !CellText.HasElement(s, "is")
  {
    var s := "<v/>" + rest;
    SelfClosedMatches(rest);
    assert s[4..] == rest;
    CellText.NoElements(rest, "v", put);
    var plain := "v/>" + rest;
    assert s == ['<'] + plain;
    assert CellText.ElementEnd(['<'] + plain, "is").None? by { assert (['<'] + plain)[1] ==
           'v'; assert ("<" + "is")[1] == 'i'; }
    CellText.PlainStep('<', plain, "is", put);
    CellText.NoElements(plain, "is", put);
  }

  lemma CommentAsText(put: string)
    ensures PrintItem(Comment("<v/>")) == ['<'] + ("!--" + ("<v/>" + "-->"))
    ensures PrintItem(Comment(put)) == ['<'] + ("!--" + (put + "-->"))
  {
    assert "<!--" == ['<'] + "!--";
    Collections.Assoc(['<'], "!--", put + "-->");
  }

  function Commented(cell: string, text: string): Element {
    CellOf([Reference(cell)], Cons(Comment(text), Nil))
  }

  lemma CommentedFits(cell: string, text: string)
    requires IsReference(cell) && '-' !in text
    ensures IsCell(Commented(cell, text)) && ItemsOf(Commented(cell, text).body) == Cons(Comment(text), Nil)
  {
    ReferenceFits(cell);
    EndsAtDashes(text);
  }

  lemma CommentUnread(text: string, inline: bool)
    ensures Seen(Cons(Comment(text), Nil), inline) == ""
  {
    OneWalk(Comment(text), inline, START);
  }

  lemma CommentIsNoSlot(e: Element, text: string, kind: string)
    requires ItemsOf(e.body) == Cons(Comment(text), Nil) && !CellText.IsText(kind)
    requires CellText.HasElement(PrintItem(Comment(text)), "v")
    ensures !Takes(e, kind)
  {
    OnePrints(Comment(text));
    TextOfShell(e);
    assert !HasTop(Cons(Comment(text), Nil), "v");
  }

  /** `<c r="…"><!--<v/>--></c>`: the amount lands in the comment, and the walk reads nothing. */
  lemma CommentedSlotFails(cell: string, kind: string, amount: string, slot: string, put: string)
    requires !CellText.IsText(kind) && IsAmount(amount) && '-' !in amount && IsReference(cell)
    requires slot == "<v/>" && put == "<v>" + amount + "</v>"
    ensures IsCell(Commented(cell, slot)) && !Takes(Commented(cell, slot), kind) &&
            '>' in PrintElement(Commented(cell, slot))
    ensures CellText.PatchedText(kind, PrintElement(Commented(cell, slot)), amount) ==
            PrintElement(Commented(cell, put))
    ensures IsCell(Commented(cell, put)) && Seen(ItemsOf(Commented(cell, put).body), CellText.IsText(kind)) == ""
  {
    CommentedFits(cell, slot);
    CommentedFits(cell, put);
    CommentRewritten(put, "!--", "-->");
    CommentAsText(put);
    CommentReplaced([Reference(cell)], kind, amount, put);
    CommentIsNoSlot(Commented(cell, slot), slot, kind);
    CommentUnread(put, CellText.IsText(kind));
  }

  lemma {:induction false} CommentReplaced(attributes: seq<Attribute>, kind: string, amount: string, put: string)
    requires !CellText.IsText(kind) && put == CellText.Element(kind, amount)
    requires IsCell(CellOf(attributes, Cons(Comment("<v/>"), Nil)))
    requires CellText.HasElement(PrintItem(Comment("<v/>")), "v")
    requires Rewrite(CellText.Slots("v"), put, PrintItem(Comment("<v/>"))) == PrintItem(Comment(put))
    ensures var e := CellOf(attributes, Cons(Comment("<v/>"), Nil));
      '>' in PrintElement(e) &&
      CellText.PatchedText(kind, PrintElement(e), amount) == PrintElement(CellOf(attributes, Cons(Comment(put), Nil)))
  {
    var e, r := CellOf(attributes, Cons(Comment("<v/>"), Nil)), CellOf(attributes, Cons(Comment(put), Nil));
    OnePrints(Comment("<v/>"));
    OnePrints(Comment(put));
    ContentReplaced(e, kind, amount, "v", Cons(Comment(put), Nil));
  }

  /** What the patcher makes of a number cell whose content it rewrites. */
  lemma {:induction false} ContentReplaced(e: Element, kind: string, amount: string, name: string, items: Items)
    requires IsCell(e) && e.body.Content? && !CellText.IsRetyped(kind)
    requires CellText.Expression(kind, PrintItems(e.body.items)) == Some(name)
    requires Rewrite(CellText.Slots(name), CellText.Element(kind, amount), PrintItems(e.body.items)) ==
             PrintItems(items)
    ensures '>' in PrintElement(e)
    ensures CellText.PatchedText(kind, PrintElement(e), amount) ==
            PrintElement(e.(body := Content(items, e.body.space)))
  {
    var r := e.(body := Content(items, e.body.space));
    PatchedCell(e, kind, amount);
    ShellFits(e);
    TextOfShell(e);
    CellText.Replaced(ShellOf(e), PrintAttributes(e.attributes) + e.gap, kind, CellText.Element(kind, amount));
    ShellPrints(r);
  }

  // ----- two values

  function TwoValues(cell: string, x: string, y: string): Element {
    CellOf([Reference(cell)], Cons(Value(x), Cons(Value(y), Nil)))
  }

  lemma ValueFits(text: string)
    requires '<' !in text && text != []
    ensures IsItem(Value(text)) && Named(Value(text), "v")
  {
    LocalNames();
    assert AreItems(Nil) && AreItems(Cons(Characters(text), Nil));
  }

  lemma TwoFit(cell: string, x: string, y: string)
    requires IsReference(cell) && x != [] && y != [] && '<' !in x && '<' !in y
    ensures IsCell(TwoValues(cell, x, y))
    ensures PrintItems(ItemsOf(TwoValues(cell, x, y).body)) == "<v>" + x + "</v>" + ("<v>" + y + "</v>")
  {
    ReferenceFits(cell);
    ValueFits(x);
    ValueFits(y);
    ValueText(x);
    ValueText(y);
    assert AreItems(Nil) && AreItems(Cons(Value(y), Nil)) && AreItems(Cons(Value(x), Cons(Value(y), Nil)));
  }

  lemma {:induction false} TwoRewritten(x: string, y: string, put: string)
    requires '<' !in x && '<' !in y
    ensures var w1, w2 := "<v>" + x + "</v>", "<v>" + y + "</v>";
      && Rewrite(CellText.Slots("v"), put, w1 + w2) == put + put
      && Place(CellText.Slots("v"), w2).Some? && Place(CellText.Slots("v"), w1 + w2).Some?
  {
    var w1, w2 := "<v>" + x + "</v>", "<v>" + y + "</v>";
    ValueMatches(x, w2);
    ValueMatches(y, "");
    assert w2 + "" == w2;
    OneRewritten(CellText.Slots("v"), put, w1, w2);
    OneRewritten(CellText.Slots("v"), put, w2, "");
    assert Rewrite(CellText.Slots("v"), put, "") == "" && put + "" == put;
  }

  lemma {:induction false} OneRewritten(m: Matcher, put: string, w: string, rest: string)
    requires w != [] && m(w + rest) == Some(|w|)
    ensures Place(m, w + rest) == Some(0) && Rewrite(m, put, w + rest) == put + Rewrite(m, put, rest)
  {
    assert (w + rest)[|w|..] == rest;
  }

  lemma TwoSeen(amount: string)
    ensures Seen(Cons(Value(amount), Cons(Value(amount), Nil)), false) == amount + amount
  {
    assert "" != "s" && "" != "inlineStr" && "" != "str";
    assert NewItem("", amount) == Value(amount);
    NewItemSeen("", amount);
    ItemFirst(Value(amount), Cons(Value(amount), Nil), false);
  }

  /** `<c r="…"><v>…</v><v>…</v></c>`: both values are replaced, and the walk reads the amount twice. */
  lemma TwoValuesFail(cell: string, x: string, y: string, kind: string, amount: string)
    requires IsReference(cell) && x != [] && y != [] && '<' !in x && '<' !in y && !CellText.IsText(kind) &&
             IsAmount(amount)
    ensures IsCell(TwoValues(cell, x, y)) && !Takes(TwoValues(cell, x, y), kind) &&
            '>' in PrintElement(TwoValues(cell, x, y))
    ensures CellText.PatchedText(kind, PrintElement(TwoValues(cell, x, y)), amount) ==
            PrintElement(TwoValues(cell, amount, amount))
    ensures Seen(ItemsOf(TwoValues(cell, amount, amount).body), CellText.IsText(kind)) == amount + amount
  {
    var e, items := TwoValues(cell, x, y), ItemsOf(TwoValues(cell, amount, amount).body);
    TwoFit(cell, x, y);
    AmountPlain(amount);
    TwoFit(cell, amount, amount);
    TwoRewritten(x, y, "<v>" + amount + "</v>");
    CellText.ReplaceIsRewrite(PrintItems(ItemsOf(e.body)), "v", "");
    ContentReplaced(e, kind, amount, "v", items);
    TwoSeen(amount);
    SecondValue(cell, x, y, kind);
  }

  lemma AmountPlain(amount: string)
    requires IsAmount(amount)
    ensures '<' !in amount
  {
  }

  lemma SecondValue(cell: string, x: string, y: string, kind: string)
    requires x != [] && y != [] && '<' !in x && '<' !in y && !CellText.IsText(kind)
    ensures !Takes(TwoValues(cell, x, y), kind)
  {
    ValueFits(x);
    ValueText(y);
    TwoRewritten(x, y, "");
    var items := ItemsOf(TwoValues(cell, x, y).body);
    assert Back(items, "v") == Cons(Value(y), Nil);
  }

  // ----- a type that stays

  /** A cell whose content is filled but whose attributes stay as they are. */
  lemma {:induction false} TypeKept(e: Element, kind: string, amount: string)
    requires IsCell(e) && ContentTakes(e, kind) && IsAmount(amount)
    requires CellText.NewAttributes(kind, PrintAttributes(e.attributes) + e.gap) ==
             PrintAttributes(e.attributes) + e.gap
    ensures '>' in PrintElement(e)
    ensures CellText.PatchedText(kind, PrintElement(e), amount) ==
            PrintElement(e.(body := Content(HoldingItems(ItemsOf(e.body), kind, amount), SpaceOf(e.body))))
  {
    PatchedCell(e, kind, amount);
    ContentFilled(e, kind, amount, PrintAttributes(e.attributes) + e.gap);
    ShellPrints(e.(body := Content(HoldingItems(ItemsOf(e.body), kind, amount), SpaceOf(e.body))));
  }

  /** A cell of a shared string, its one value element as plain as it can be. */
  function Shared(attributes: seq<Attribute>, text: string): Element {
    CellOf(attributes, Cons(Value(text), Nil))
  }

  function Inlined(attributes: seq<Attribute>, kind: string, amount: string): Element {
    CellOf(attributes, Cons(NewItem(kind, amount), Nil))
  }

  lemma SharedTakes(attributes: seq<Attribute>, kind: string, text: string, amount: string)
    requires AreAttributes(attributes) && '<' !in text && text != []
    ensures IsCell(Shared(attributes, text)) && ContentTakes(Shared(attributes, text), kind)
    ensures HoldingItems(ItemsOf(Shared(attributes, text).body), kind, amount) == Cons(NewItem(kind, amount), Nil)
  {
    var e := Shared(attributes, text);
    NoColon("c");
    ValueFits(text);
    LocalNames();
    SharedSlot(text, kind);
    PlainEnd(text);
    ContentOrdinary(e, kind);
  }

  lemma SharedSlot(text: string, kind: string)
    requires Named(Value(text), "v")
    ensures var items := Cons(Value(text), Nil);
      && SlotName(kind, items) == "v" && HasTop(items, "v") && Slot(items, "v") == Value(text)
      && Front(items, "v") == Nil && Back(items, "v") == Nil
  {
    assert !HasTop(Nil, "is");
  }

  lemma PlainEnd(text: string)
    requires '<' !in text
    ensures OrdinarySlot(Value(text).element, "v")
  {
    OnePrints(Characters(text));
    FirstClosing(text, "");
    assert "</v>" + "" == "</v>" == CellText.Close("v") && Inside(Value(text).element) == "";
  }

  /** Where the attributes stay, an inline string comes under the old type, and the walk does not read it. */
  lemma {:induction false} SharedKept(attributes: seq<Attribute>, kind: string, text: string, amount: string)
    requires AreAttributes(attributes) && CellText.IsRetyped(kind) && '<' !in text && text != [] && IsAmount(amount)
    requires CellText.NewAttributes(kind, PrintAttributes(attributes) + "") == PrintAttributes(attributes) + ""
    ensures var e, r := Shared(attributes, text), Inlined(attributes, kind, amount);
      && IsCell(e) && '>' in PrintElement(e) && CellText.PatchedText(kind, PrintElement(e), amount) == PrintElement(r)
      && Seen(ItemsOf(r.body), false) == ""
  {
    SharedTakes(attributes, kind, text, amount);
    TypeKept(Shared(attributes, text), kind, amount);
    InlineUnread(kind, amount);
  }

  /** Under a type other than inline string the walk reads nothing from an inline string. */
  lemma InlineUnread(kind: string, amount: string)
    requires CellText.IsText(kind)
    ensures Seen(Cons(NewItem(kind, amount), Nil), false) == ""
  {
    LocalNames();
    var text := Cons(Characters(amount), Nil);
    var inner := Tagged("t", text);
    CharactersWalk(amount, false, START);
    TaggedWalk("t", text, false, START);
    OneWalk(inner, false, START);
    TaggedWalk("is", Cons(inner, Nil), false, START);
    OneWalk(NewItem(kind, amount), false, START);
  }

  lemma {:induction false} NothingTyped(s: string)
    requires 't' !in s
    ensures TypeChanges()(s).None?
  {
    if s != [] {
      var n := CellText.Spaces(s);
      assert s[n..] != [] ==> s[n..][0] in s;
      NothingTyped(s[1..]);
    }
  }

  lemma {:induction false} RetypeNone(s: string)
    requires TypeChanges()(s).None?
    ensures CellText.Retype(s) == s
  {
    NoChange(CellText.Types(), CellText.INLINE, s);
    CellText.RetypeIsRewrite(s);
  }

  function Blanked(cell: string, kind: string): seq<Attribute> {
    [Reference(cell), Attribute(" ", "t", " ", " ", '"', kind)]
  }

  lemma BlankedFits(cell: string, kind: string)
    requires IsReference(cell) && CellText.IsRetyped(kind)
    ensures var a := Blanked(cell, kind);
      && AreAttributes(a) && !IsPlain(a[0]) && !IsPlain(a[1]) && PlainValue(a[0]) && PlainValue(a[1])
      && TypeIndex(a) == 1
  {
    LocalNames();
    ReferenceFits(cell);
    var a := Blanked(cell, kind);
    assert a[1..] == [a[1]] && IsType(a[1]);
  }

  lemma BlankedKept(cell: string, kind: string)
    requires IsReference(cell) && CellText.IsRetyped(kind)
    ensures var s := PrintAttributes(Blanked(cell, kind)) + ""; CellText.NewAttributes(kind, s) == s
  {
    var a := Blanked(cell, kind);
    var s := PrintAttributes(a) + "";
    BlankedFits(cell, kind);
    AttributesSkipped(a);
    RetypeNone(s);
    NoMark(a);
    CellText.NoneFound(s, '>');
    CellText.NewAttributesCut(kind, s);
    assert s[..|s|] == s && s + s[|s|..] == s;
  }

  /** `<c r="…" t = "s"><v>…</v></c>`: the type stays, so the walk does not read the inline string. */
  lemma BlankedTypeFails(cell: string, kind: string, text: string, amount: string)
    requires IsReference(cell) && CellText.IsRetyped(kind) && '<' !in text && text != [] && IsAmount(amount)
    ensures var e, r := Shared(Blanked(cell, kind), text), Inlined(Blanked(cell, kind), kind, amount);
      && IsCell(e) && Delivers(e, kind) && !Takes(e, kind)
      && '>' in PrintElement(e) && CellText.PatchedText(kind, PrintElement(e), amount) == PrintElement(r)
      && TypeOf(r.attributes) == kind && Seen(ItemsOf(r.body), kind == "inlineStr") == ""
  {
    BlankedFits(cell, kind);
    BlankedKept(cell, kind);
    SharedKept(Blanked(cell, kind), kind, text, amount);
    NotBlanked(Shared(Blanked(cell, kind), text), kind);
  }

  lemma NotBlanked(e: Element, kind: string)
    requires IsCell(e) && Delivers(e, kind) && CellText.IsRetyped(kind)
    requires !IsPlain(e.attributes[TypeIndex(e.attributes)])
    ensures !Takes(e, kind)
  {
    if TypeWritten(e, kind) {
      TypeNeeds(e, kind);
    }
  }

  function Marked(cell: string, kind: string): seq<Attribute> {
    [Reference(cell)] + [MARK] + [Attribute(" ", "t", "", "", '"', kind)]
  }

  const MARK := Attribute(" ", "x", "", "", '"', ">")

  lemma MarkText(rest: string)
    ensures PrintAttributes([MARK]) + rest == " x=\"" + (">" + "\"" + rest)
    ensures IsAttribute(MARK) && !IsType(MARK)
  {
    NoColon("x");
    assert PrintAttribute(MARK) == " x=\"" + ">" + "\"";
    assert PrintAttributes([MARK]) == PrintAttribute(MARK) + PrintAttributes([]);
  }

  lemma {:induction false} TypeNext(first: Attribute, attributes: seq<Attribute>)
    requires !IsType(first)
    ensures TypeIndex([first] + attributes) == 1 + TypeIndex(attributes)
  {
    assert ([first] + attributes)[1..] == attributes;
  }

  lemma MarkedFits(cell: string, kind: string)
    requires IsReference(cell) && CellText.IsRetyped(kind)
    ensures AreAttributes(Marked(cell, kind)) && TypeIndex(Marked(cell, kind)) == 2
    ensures '>' in PrintAttributes(Marked(cell, kind)[..2])
  {
    var t := Attribute(" ", "t", "", "", '"', kind);
    LocalNames();
    ReferenceFits(cell);
    MarkText("");
    assert IsAttribute(t) && IsType(t);
    assert Marked(cell, kind) == [Reference(cell)] + ([MARK] + [t]);
    TypeNext(MARK, [t]);
    TypeNext(Reference(cell), [MARK] + [t]);
    MarkSeen(cell, kind);
  }

  lemma MarkSeen(cell: string, kind: string)
    ensures '>' in PrintAttributes(Marked(cell, kind)[..2])
  {
    var front := Marked(cell, kind)[..2];
    assert front[0] == Reference(cell) && front[1..] == [MARK];
    MarkText("");
    var s := PrintAttributes([MARK]);
    assert s + "" == s && (" x=\"" + (">" + "\"" + ""))[4] == '>' && s[4] in s;
  }

  lemma MarkedText(cell: string, kind: string) returns (rest: string)
    ensures PrintAttributes(Marked(cell, kind)) == PrintAttribute(Reference(cell)) + " x=\"" + rest
    ensures rest != [] && rest[0] == '>'
  {
    var a, t := Marked(cell, kind), [Attribute(" ", "t", "", "", '"', kind)];
    rest := ">" + "\"" + PrintAttributes(t);
    assert a[0] == Reference(cell) && a[1..][0] == MARK && a[1..][1..] == t;
    MarkText(PrintAttributes(t));
    assert PrintAttributes([MARK]) == PrintAttribute(MARK) + "" == PrintAttribute(MARK);
    assert PrintAttributes(a[1..]) == PrintAttribute(MARK) + PrintAttributes(t);
    Collections.Assoc(PrintAttribute(Reference(cell)), " x=\"", rest);
  }

  lemma {:induction false} ReferenceSkipped(cell: string, x: string)
    requires IsReference(cell) && 't' !in x && '>' !in x
    ensures CellText.Retype(PrintAttribute(Reference(cell)) + x) == PrintAttribute(Reference(cell)) + x
    ensures '>' !in PrintAttribute(Reference(cell)) + x
  {
    var a := [Reference(cell)];
    ReferenceFits(cell);
    AttributesSkipped(a);
    assert PrintAttributes(a) == PrintAttribute(Reference(cell)) + "" == PrintAttribute(Reference(cell));
    NothingTyped(x);
    RetypeNone(PrintAttribute(Reference(cell)) + x);
    NoMark(a);
  }

  lemma MarkedKept(cell: string, kind: string)
    requires IsReference(cell) && CellText.IsRetyped(kind)
    ensures var s := PrintAttributes(Marked(cell, kind)) + ""; CellText.NewAttributes(kind, s) == s
  {
    var s := PrintAttributes(Marked(cell, kind));
    var rest := MarkedText(cell, kind);
    ReferenceSkipped(cell, " x=\"");
    assert s + "" == s;
    KeptUpTo(kind, PrintAttribute(Reference(cell)) + " x=\"", rest);
  }

  lemma {:induction false} KeptUpTo(kind: string, head: string, rest: string)
    requires CellText.IsRetyped(kind) && '>' !in head && rest != [] && rest[0] == '>' && CellText.Retype(head) == head
    ensures CellText.NewAttributes(kind, head + rest) == head + rest
  {
    CellText.NewAttributesCut(kind, head + rest);
    CellText.IndexOfAppend(head, rest, '>');
    assert (head + rest)[..|head|] == head && (head + rest)[|head|..] == rest;
  }

  lemma MarkedNotTaken(e: Element, kind: string)
    requires IsCell(e) && Delivers(e, kind) && CellText.IsRetyped(kind)
    requires '>' in PrintAttributes(e.attributes[..TypeIndex(e.attributes)])
    ensures !Takes(e, kind)
  {
  }

  /** `<c r="…" x=">" t="s"><v>…</v></c>`: the type behind the `>` stays. */
  lemma MarkedTypeFails(cell: string, kind: string, text: string, amount: string)
    requires IsReference(cell) && CellText.IsRetyped(kind) && '<' !in text && text != [] && IsAmount(amount)
    ensures var e, r := Shared(Marked(cell, kind), text), Inlined(Marked(cell, kind), kind, amount);
      && IsCell(e) && Delivers(e, kind) && !Takes(e, kind)
      && '>' in PrintElement(e) && CellText.PatchedText(kind, PrintElement(e), amount) == PrintElement(r)
      && TypeOf(r.attributes) == kind && Seen(ItemsOf(r.body), kind == "inlineStr") == ""
  {
    MarkedFits(cell, kind);
    MarkedKept(cell, kind);
    SharedKept(Marked(cell, kind), kind, text, amount);
    MarkedNotTaken(Shared(Marked(cell, kind), text), kind);
  }
}

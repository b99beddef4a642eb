/**
 What the walk reads from a cell, what a cell holding an amount looks like, and exactly for which cells the patcher
 makes that of every amount: its own expressions must find the type attribute and the value element, and nothing else.
 */
module CellFilling {
  import opened Wrappers
  import Collections
  import DecimalText
  import opened Rewriting
  import CellText
  import opened CellReading

  // ----- what the walk reads

  /** Text is collected inside `v`, and inside `t` when the cell is an inline string. */
  datatype State = State(value: string, inValue: bool, inText: bool)

  function Collect(s: State, text: string): State {
    if s.inValue || s.inText then s.(value := s.value + text) else s
  }

  function Enter(name: string, inline: bool, s: State): State {
    if name == "v" then s.(inValue := true)
    else if name == "t" && inline then s.(inText := true)
    else s
  }

  function Leave(name: string, s: State): State {
    if name == "v" then s.(inValue := false)
    else if name == "t" then s.(inText := false)
    else s
  }

  function WalkElement(e: Element, inline: bool, s: State): State
    decreases e, 0
  {
    var begun := Enter(Local(e.tag), inline, s);
    Leave(Local(e.tag), match e.body case Empty => begun case Content(items, _) => WalkItems(items, inline, begun))
  }

  function WalkItem(item: Item, inline: bool, s: State): State
    decreases item, 0
  {
    match item
    case Characters(text) => Collect(s, text)
    case Section(text) => Collect(s, text)
    case Comment(_) => s
    case Instruction(_) => s
    case Nested(element) => WalkElement(element, inline, s)
  }

  function WalkItems(items: Items, inline: bool, s: State): State
    decreases items, 0
  {
    match items
    case Nil => s
    case Cons(head, tail) => WalkItems(tail, inline, WalkItem(head, inline, s))
  }

  const START := State("", false, false)

  /** The value the walk collects from the content of a cell. */
  function Seen(items: Items, inline: bool): string {
    WalkItems(items, inline, START).value
  }

  function ItemsOf(body: Body): Items {
    match body case Empty => Nil case Content(items, _) => items
  }

  function SpaceOf(body: Body): string {
    match body case Empty => "" case Content(_, space) => space
  }

  predicate IsType(a: Attribute) {
    Local(a.name) == "t"
  }

  /** Where the first attribute with the local name `t` stands. */
  function TypeIndex(attributes: seq<Attribute>): (i: nat)
    ensures i <= |attributes|
  {
    if attributes == [] || IsType(attributes[0]) then 0 else 1 + TypeIndex(attributes[1..])
  }

  lemma {:induction false} TypeThere(attributes: seq<Attribute>)
    requires TypeIndex(attributes) < |attributes|
    ensures IsType(attributes[TypeIndex(attributes)])
  {
    if !IsType(attributes[0]) {
      TypeThere(attributes[1..]);
    }
  }

  /** The type the walk reads, as written. */
  function TypeOf(attributes: seq<Attribute>): string {
    var i := TypeIndex(attributes);
    if i < |attributes| then attributes[i].value else ""
  }

  // ----- the walk over several items

  lemma {:induction false} ElementAdds(e: Element, inline: bool, s: State)
    ensures var r, bare := WalkElement(e, inline, s), WalkElement(e, inline, s.(value := ""));
      r == bare.(value := s.value + bare.value)
    ensures !s.inValue ==> !WalkElement(e, inline, s).inValue
    ensures !s.inText ==> !WalkElement(e, inline, s).inText
    decreases e, 1
  {
    if e.body.Content? {
      ItemsAdd(e.body.items, inline, Enter(Local(e.tag), inline, s));
    }
  }

  lemma {:induction false} ItemAdds(item: Item, inline: bool, s: State)
    ensures var r, bare := WalkItem(item, inline, s), WalkItem(item, inline, s.(value := ""));
      r == bare.(value := s.value + bare.value)
    ensures !s.inValue ==> !WalkItem(item, inline, s).inValue
    ensures !s.inText ==> !WalkItem(item, inline, s).inText
    decreases item, 1
  {
    match item
    case Characters(text) =>
    case Section(text) =>
    case Comment(_) =>
    case Instruction(_) =>
    case Nested(element) => ElementAdds(element, inline, s);
  }

  /** What is collected does not depend on what was, and the flags are down where they were down before. */
  lemma {:induction false} ItemsAdd(items: Items, inline: bool, s: State)
    ensures var r, bare := WalkItems(items, inline, s), WalkItems(items, inline, s.(value := ""));
      r == bare.(value := s.value + bare.value)
    ensures !s.inValue ==> !WalkItems(items, inline, s).inValue
    ensures !s.inText ==> !WalkItems(items, inline, s).inText
    decreases items, 1
  {
    if items.Cons? {
      ItemAdds(items.head, inline, s);
      var one := WalkItem(items.head, inline, s.(value := ""));
      ItemsAdd(items.tail, inline, WalkItem(items.head, inline, s));
      ItemsAdd(items.tail, inline, one);
    }
  }

  function Append(a: Items, b: Items): Items {
    match a case Nil => b case Cons(head, tail) => Cons(head, Append(tail, b))
  }

  lemma {:induction false} WalkAppend(a: Items, b: Items, inline: bool, s: State)
    ensures WalkItems(Append(a, b), inline, s) == WalkItems(b, inline, WalkItems(a, inline, s))
  {
    if a.Cons? {
      WalkAppend(a.tail, b, inline, WalkItem(a.head, inline, s));
    }
  }

  /** Pieces of a content are read one after the other. */
  lemma {:induction false} SeenAppend(a: Items, b: Items, inline: bool)
    ensures Seen(Append(a, b), inline) == Seen(a, inline) + Seen(b, inline)
  {
    WalkAppend(a, b, inline, START);
    ItemsAdd(a, inline, START);
    ItemsAdd(b, inline, WalkItems(a, inline, START));
    assert WalkItems(a, inline, START).(value := "") == START;
  }

  lemma {:induction false} PrintAppend(a: Items, b: Items)
    ensures PrintItems(Append(a, b)) == PrintItems(a) + PrintItems(b)
  {
    if a.Cons? {
      PrintAppend(a.tail, b);
      Collections.Assoc(PrintItem(a.head), PrintItems(a.tail), PrintItems(b));
    } else {
      assert [] + PrintItems(b) == PrintItems(b);
    }
  }

  // ----- the cell that holds the amount

  predicate IsAmount(s: string) {
    s != [] && forall i :: 0 <= i < |s| ==> DecimalText.IsDigit(s[i]) || s[i] == '.' || s[i] == '-'
  }

  function Tagged(tag: string, items: Items): Item {
    Nested(Element(tag, [], "", Content(items, "")))
  }

  /** The value element of a number, or the inline string of a text. */
  function NewItem(kind: string, amount: string): Item {
    var text := Cons(Characters(amount), Nil);
    if CellText.IsText(kind) then Tagged("is", Cons(Tagged("t", text), Nil)) else Tagged("v", text)
  }

  predicate Named(item: Item, name: string) {
    item.Nested? && Local(item.element.tag) == name
  }

  predicate HasTop(items: Items, name: string) {
    items.Cons? && (Named(items.head, name) || HasTop(items.tail, name))
  }

  function Front(items: Items, name: string): Items {
    if items.Nil? || Named(items.head, name) then Nil else Cons(items.head, Front(items.tail, name))
  }

  function Slot(items: Items, name: string): (item: Item)
    requires HasTop(items, name)
    ensures item.Nested?
  {
    if Named(items.head, name) then items.head else Slot(items.tail, name)
  }

  function Back(items: Items, name: string): Items
    requires HasTop(items, name)
  {
    if Named(items.head, name) then items.tail else Back(items.tail, name)
  }

  /** The element that makes room: the inline string of a text if there is one, else the value element. */
  function SlotName(kind: string, items: Items): string {
    if CellText.IsText(kind) && HasTop(items, "is") then "is" else "v"
  }

  /** The content with the new element in place of the slot, or behind everything when there is none. */
  function HoldingItems(items: Items, kind: string, amount: string): Items {
    var name := SlotName(kind, items);
    if HasTop(items, name) then Append(Front(items, name), Cons(NewItem(kind, amount), Back(items, name)))
    else Append(items, Cons(NewItem(kind, amount), Nil))
  }

  const TYPE := Attribute(" ", "t", "", "", '"', "inlineStr")

  /** The type attribute says inline string where the type changes; every other attribute stays. */
  function HoldingAttributes(attributes: seq<Attribute>, kind: string): seq<Attribute> {
    var i := TypeIndex(attributes);
    if CellText.IsRetyped(kind) && i < |attributes| then attributes[i := TYPE] else attributes
  }

  function Holding(e: Element, kind: string, amount: string): Element {
    e.(attributes := HoldingAttributes(e.attributes, kind),
       body := Content(HoldingItems(ItemsOf(e.body), kind, amount), SpaceOf(e.body)))
  }

  /** The text is the cell with the amount in it, and the walk reads the amount and the right type from it. */
  predicate Holds(e: Element, kind: string, amount: string, text: string) {
    && text == PrintElement(Holding(e, kind, amount))
    && Seen(HoldingItems(ItemsOf(e.body), kind, amount), CellText.IsText(kind)) == amount
    && (CellText.IsRetyped(kind) ==> TypeOf(HoldingAttributes(e.attributes, kind)) == "inlineStr")
  }

  // ----- the condition

  /** A type to be changed comes from an attribute that says something else than inline string. */
  predicate Delivers(e: Element, kind: string) {
    CellText.IsRetyped(kind) ==>
      TypeIndex(e.attributes) < |e.attributes| && e.attributes[TypeIndex(e.attributes)].value != "inlineStr"
  }

  /** In a text up to its first `>`, the type expression changes the type attribute and nothing else. */
  predicate OnlyTypeChanges(before: string, written: string, after: string) {
    '>' !in before && '>' !in written &&
    OnlyChange(CellText.Types(), CellText.INLINE, before, written, after[..DecimalText.IndexOf(after, '>')])
  }

  predicate TypeWritten(e: Element, kind: string) {
    CellText.IsRetyped(kind) && TypeIndex(e.attributes) < |e.attributes| ==>
      var i := TypeIndex(e.attributes);
      OnlyTypeChanges(PrintAttributes(e.attributes[..i]), PrintAttribute(e.attributes[i]),
                      PrintAttributes(e.attributes[i + 1..]) + e.gap)
  }

  function ShellOf(e: Element): CellText.Shell {
    CellText.Shell(e.tag, PrintAttributes(e.attributes) + e.gap,
                   match e.body
                   case Empty => CellText.Empty
                   case Content(items, space) => CellText.Content(PrintItems(items), space))
  }

  /**
   The value expression matches the slot and nothing else; without a slot it matches nothing, and `</c>` ends the cell.
   */
  predicate ContentTakes(e: Element, kind: string) {
    var items := ItemsOf(e.body);
    var name := SlotName(kind, items);
    if HasTop(items, name) then
      CellText.OnlySlot(kind, PrintItems(Front(items, name)), PrintItem(Slot(items, name)),
          PrintItems(Back(items, name)))
    else
      CellText.TakesAppended(ShellOf(e), kind)
  }

  /** Nothing beside the slot is read as part of the value. */
  predicate OthersSilent(e: Element, kind: string) {
    var items, inline := ItemsOf(e.body), CellText.IsText(kind);
    var name := SlotName(kind, items);
    if HasTop(items, name) then Seen(Front(items, name), inline) == "" && Seen(Back(items, name), inline) == ""
    else Seen(items, inline) == ""
  }

  predicate Takes(e: Element, kind: string) {
    TypeWritten(e, kind) && ContentTakes(e, kind) && OthersSilent(e, kind)
  }

  // ----- the holding cell reads back exactly when nothing else is read

  lemma {:induction false} SlotParts(items: Items, name: string)
    requires HasTop(items, name)
    ensures items == Append(Front(items, name), Cons(Slot(items, name), Back(items, name)))
    ensures Named(Slot(items, name), name)
  {
    if !Named(items.head, name) {
      SlotParts(items.tail, name);
    }
  }

  lemma NewItemSeen(kind: string, amount: string)
    ensures Seen(Cons(NewItem(kind, amount), Nil), CellText.IsText(kind)) == amount
  {
    LocalNames();
    var text := Cons(Characters(amount), Nil);
    assert "" + amount == amount;
    if CellText.IsText(kind) {
      var inner := Tagged("t", text);
      TaggedWalk("t", text, true, START);
      CharactersWalk(amount, true, State("", false, true));
      TaggedWalk("is", Cons(inner, Nil), true, START);
      OneWalk(inner, true, START);
    } else {
      TaggedWalk("v", text, false, START);
      CharactersWalk(amount, false, State("", true, false));
    }
    OneWalk(NewItem(kind, amount), CellText.IsText(kind), START);
  }

  lemma {:induction false} TaggedWalk(tag: string, items: Items, inline: bool, s: State)
    ensures WalkItem(Tagged(tag, items), inline, s) ==
            Leave(Local(tag), WalkItems(items, inline, Enter(Local(tag), inline, s)))
  {
  }

  lemma {:induction false} OneWalk(item: Item, inline: bool, s: State)
    ensures WalkItems(Cons(item, Nil), inline, s) == WalkItem(item, inline, s)
  {
  }

  lemma {:induction false} CharactersWalk(text: string, inline: bool, s: State)
    ensures WalkItems(Cons(Characters(text), Nil), inline, s) == Collect(s, text)
  {
    OneWalk(Characters(text), inline, s);
  }

  lemma LocalNames()
    ensures Local("v") == "v" && Local("is") == "is" && Local("t") == "t"
  {
    NoColon("v");
    NoColon("is");
    NoColon("t");
  }

  lemma NoColon(name: string)
    requires ':' !in name
    ensures Local(name) == name
  {
  }

  lemma ItemFirst(item: Item, items: Items, inline: bool)
    ensures Seen(Cons(item, items), inline) == Seen(Cons(item, Nil), inline) + Seen(items, inline)
  {
    assert Append(Cons(item, Nil), items) == Cons(item, items);
    SeenAppend(Cons(item, Nil), items, inline);
  }

  lemma HoldingSeen(e: Element, kind: string, amount: string)
    ensures Seen(HoldingItems(ItemsOf(e.body), kind, amount), CellText.IsText(kind)) == amount <==>
            OthersSilent(e, kind)
  {
    var items, inline := ItemsOf(e.body), CellText.IsText(kind);
    var name := SlotName(kind, items);
    NewItemSeen(kind, amount);
    if HasTop(items, name) {
      SeenAppend(Front(items, name), Cons(NewItem(kind, amount), Back(items, name)), inline);
      ItemFirst(NewItem(kind, amount), Back(items, name), inline);
      Alone(Seen(Front(items, name), inline), amount, Seen(Back(items, name), inline));
    } else {
      SeenAppend(items, Cons(NewItem(kind, amount), Nil), inline);
      Alone(Seen(items, inline), amount, "");
      assert amount + "" == amount;
    }
  }

  lemma Alone(x: string, amount: string, y: string)
    ensures x + (amount + y) == amount <==> x == "" && y == ""
  {
    assert |x + (amount + y)| == |x| + |amount| + |y|;
  }

  lemma {:induction false} AppendFits(front: Items, item: Item, back: Items)
    requires AreItems(front) && AreItems(back) && item.Nested? && IsItem(item)
    ensures AreItems(Append(front, Cons(item, back)))
  {
    if front.Cons? {
      AppendFits(front.tail, item, back);
    }
  }

  lemma {:induction false} FrontFits(items: Items, name: string)
    requires AreItems(items) && HasTop(items, name)
    ensures AreItems(Front(items, name)) && AreItems(Back(items, name)) && IsElement(Slot(items, name).element)
  {
    if !Named(items.head, name) {
      FrontFits(items.tail, name);
      assert Front(items.tail, name).Cons? ==> Front(items.tail, name).head == items.tail.head;
    }
  }

  lemma {:induction false} TaggedFits(tag: string, item: Item)
    requires IsName(tag) && Local(tag) != "c" && IsItem(item)
    ensures IsItem(Tagged(tag, Cons(item, Nil)))
  {
    assert AreItems(Nil) && AreItems(Cons(item, Nil));
  }

  lemma NewItemFits(kind: string, amount: string)
    requires IsAmount(amount)
    ensures NewItem(kind, amount).Nested? && IsItem(NewItem(kind, amount))
  {
    LocalNames();
    if CellText.IsText(kind) {
      TaggedFits("t", Characters(amount));
      TaggedFits("is", Tagged("t", Cons(Characters(amount), Nil)));
    } else {
      TaggedFits("v", Characters(amount));
    }
  }

  /** The cell holding an amount is a cell again. */
  lemma HoldingIsCell(e: Element, kind: string, amount: string)
    requires IsCell(e) && IsAmount(amount)
    ensures IsCell(Holding(e, kind, amount))
  {
    var items := ItemsOf(e.body);
    var name := SlotName(kind, items);
    NewItemFits(kind, amount);
    TypePrints();
    assert AreItems(Nil);
    if HasTop(items, name) {
      FrontFits(items, name);
      AppendFits(Front(items, name), NewItem(kind, amount), Back(items, name));
    } else {
      AppendFits(items, NewItem(kind, amount), Nil);
    }
  }

  /** A text that holds an amount has one reading; under its type the walk reads the amount from it. */
  lemma {:induction false} HeldReadsBack(e: Element, kind: string, amount: string, text: string, read: Element)
    requires IsCell(e) && Delivers(e, kind) && IsAmount(amount) && Holds(e, kind, amount, text)
    requires IsCell(read) && text == PrintElement(read)
    ensures read == Holding(e, kind, amount)
    ensures var walked := if read.attributes == e.attributes then kind else TypeOf(read.attributes);
      && Seen(ItemsOf(read.body), walked == "inlineStr") == amount
      && walked == if kind == "s" || kind == "str" then "inlineStr" else kind
  {
    HoldingIsCell(e, kind, amount);
    ReadingIsUnique(read, Holding(e, kind, amount));
    var i := TypeIndex(e.attributes);
    if i < |e.attributes| {
      assert e.attributes[i := TYPE][i] == TYPE;
    }
  }

  lemma {:induction false} TypeIndexKept(attributes: seq<Attribute>)
    requires TypeIndex(attributes) < |attributes|
    ensures TypeIndex(attributes[TypeIndex(attributes) := TYPE]) == TypeIndex(attributes)
  {
    LocalNames();
    var i := TypeIndex(attributes);
    if i > 0 {
      TypeIndexKept(attributes[1..]);
      assert attributes[i := TYPE][1..] == attributes[1..][i - 1 := TYPE];
    }
  }

  lemma HoldingType(e: Element, kind: string)
    requires Delivers(e, kind) && CellText.IsRetyped(kind)
    ensures TypeOf(HoldingAttributes(e.attributes, kind)) == "inlineStr"
  {
    TypeIndexKept(e.attributes);
  }

  // ----- the cell as its start tag, content and end tag

  lemma {:induction false} NoTagInAttributes(attributes: seq<Attribute>)
    requires forall i :: 0 <= i < |attributes| ==> IsAttribute(attributes[i])
    ensures '<' !in PrintAttributes(attributes)
  {
    if attributes != [] {
      NoTagInAttributes(attributes[1..]);
      NoTagInAttribute(attributes[0]);
    }
  }

  lemma NoTagInAttribute(a: Attribute)
    requires IsAttribute(a)
    ensures '<' !in PrintAttribute(a)
  {
    assert '<' !in a.blank && '<' !in a.name && '<' !in a.before && '<' !in a.after;
  }

  lemma {:induction false} ShellFits(e: Element)
    requires IsCell(e)
    ensures CellText.IsShell(ShellOf(e)) && CellText.PrintShell(ShellOf(e)) == PrintElement(e)
  {
    NoTagInAttributes(e.attributes);
    CellNamed(e.tag);
    assert '<' !in e.gap;
    ShellPrints(e);
  }

  lemma CellNamed(tag: string)
    requires IsName(tag) && Local(tag) == "c"
    ensures CellText.NamesCell(tag)
  {
    var i := DecimalText.IndexOf(tag, ':');
    if 0 < i && i + 1 < |tag| {
      assert tag[i + 1..] == "c";
      assert |tag| == i + 2 && tag[i + 1] == tag[i + 1..][0];
    }
  }

  lemma {:induction false} ShellPrints(e: Element)
    ensures CellText.PrintShell(ShellOf(e)) == PrintElement(e)
  {
    var front := "<" + e.tag + PrintAttributes(e.attributes) + e.gap;
    Collections.Assoc("<" + e.tag, PrintAttributes(e.attributes), e.gap);
    match e.body {
      case Empty =>
      case Content(items, space) =>
        Behind4(front, ">", PrintItems(items), "</" + e.tag + space + ">");
        EndTogether(PrintItems(items), e.tag, space);
    }
  }

  lemma Behind4(a: string, b: string, c: string, d: string)
    ensures a + (b + c + d) == a + b + c + d
  {
  }

  lemma EndTogether(items: string, tag: string, space: string)
    ensures ">" + items + "</" + tag + space + ">" == ">" + items + ("</" + tag + space + ">")
  {
  }

  function StartOf(e: Element, attributes: seq<Attribute>): string {
    CellText.StartTag(e.tag, PrintAttributes(attributes) + e.gap)
  }

  lemma HoldingPrints(e: Element, kind: string, amount: string)
    ensures PrintElement(Holding(e, kind, amount)) ==
            StartOf(e, HoldingAttributes(e.attributes, kind)) +
                PrintItems(HoldingItems(ItemsOf(e.body), kind, amount)) + CellText.EndTag(e.tag, SpaceOf(e.body))
  {
    ShellPrints(Holding(e, kind, amount));
  }

  lemma NewItemPrints(kind: string, amount: string)
    ensures PrintItem(NewItem(kind, amount)) == CellText.Element(kind, amount)
  {
    if CellText.IsText(kind) {
      InlinePrints(amount);
    } else {
      TaggedText("v", amount);
    }
  }

  lemma TaggedText(tag: string, text: string)
    ensures PrintItem(Tagged(tag, Cons(Characters(text), Nil))) == "<" + tag + ">" + text + "</" + tag + ">"
  {
    OnePrints(Characters(text));
    TaggedPrints(tag, Cons(Characters(text), Nil));
  }

  lemma InlinePrints(amount: string)
    ensures PrintItem(Tagged("is", Cons(Tagged("t", Cons(Characters(amount), Nil)), Nil))) ==
            "<is><t>" + amount + "</t></is>"
  {
    var inner := Tagged("t", Cons(Characters(amount), Nil));
    TaggedText("t", amount);
    OnePrints(inner);
    TaggedPrints("is", Cons(inner, Nil));
    Wrapped("<is>", "<t>", amount, "</t>", "</is>");
  }

  lemma Wrapped(a: string, b: string, x: string, c: string, d: string)
    ensures a + (b + x + c) + d == a + b + x + (c + d)
  {
  }

  lemma {:induction false} OnePrints(item: Item)
    ensures PrintItems(Cons(item, Nil)) == PrintItem(item)
  {
  }

  lemma {:induction false} TaggedPrints(tag: string, items: Items)
    ensures PrintItem(Tagged(tag, items)) == "<" + tag + ">" + PrintItems(items) + "</" + tag + ">"
  {
    assert PrintAttributes([]) == [];
  }

  /** The content with the new element, as text. */
  lemma {:induction false} HoldingText(items: Items, kind: string, amount: string)
    ensures var name, put := SlotName(kind, items), CellText.Element(kind, amount);
      PrintItems(HoldingItems(items, kind, amount)) ==
      if HasTop(items, name) then PrintItems(Front(items, name)) + (put + PrintItems(Back(items, name)))
      else PrintItems(items) + put
  {
    var name := SlotName(kind, items);
    NewItemPrints(kind, amount);
    if HasTop(items, name) {
      PrintAppend(Front(items, name), Cons(NewItem(kind, amount), Back(items, name)));
    } else {
      PrintAppend(items, Cons(NewItem(kind, amount), Nil));
      OnePrints(NewItem(kind, amount));
    }
  }

  lemma {:induction false} SlotText(items: Items, name: string)
    requires HasTop(items, name)
    ensures PrintItems(items) ==
            PrintItems(Front(items, name)) + PrintItem(Slot(items, name)) + PrintItems(Back(items, name))
    ensures PrintItem(Slot(items, name)) != [] && PrintItem(Slot(items, name))[0] == '<'
  {
    SlotParts(items, name);
    PrintAppend(Front(items, name), Cons(Slot(items, name), Back(items, name)));
    Collections.Assoc(PrintItems(Front(items, name)), PrintItem(Slot(items, name)), PrintItems(Back(items, name)));
  }

  lemma TextOfShell(e: Element)
    ensures CellText.TextOf(ShellOf(e).body) == PrintItems(ItemsOf(e.body))
    ensures CellText.SpaceOf(ShellOf(e).body) == SpaceOf(e.body)
  {
  }

  // ----- the new element

  lemma UnborderedBy(put: string)
    requires |put| >= 2
    requires forall k :: 1 <= k < |put| ==> put[k] != put[0] || (k + 1 < |put| && put[k + 1] != put[1])
    ensures Unbordered(put)
  {
    forall k | 0 < k < |put| ensures !(put[k..] <= put) {
      assert put[k] != put[0] || (k + 1 < |put| && put[k + 1] != put[1]);
      if put[k..] <= put {
        BorderCharacters(put, k);
      }
    }
  }

  lemma BorderCharacters(put: string, k: nat)
    requires 0 < k < |put| && put[k..] <= put
    ensures put[k] == put[0] && (k + 1 < |put| ==> put[k + 1] == put[1])
  {
    assert put[k..][0] == put[0];
    assert k + 1 < |put| ==> put[k..][1] == put[1];
  }

  lemma NewElementUnbordered(kind: string, amount: string)
    requires IsAmount(amount)
    ensures Unbordered(CellText.Element(kind, amount))
  {
    if CellText.IsText(kind) {
      UnborderedAround("<is><t>", amount, "</t></is>");
    } else {
      UnborderedAround("<v>", amount, "</v>");
    }
  }

  lemma UnborderedAround(open: string, amount: string, close: string)
    requires IsAmount(amount) && |open| >= 2 && |close| >= 2 && open[0] == '<' && open[|open| - 1] == '>'
    requires forall k :: 1 <= k < |open| - 1 ==> open[k] != '<' || open[k + 1] != open[1]
    requires close[|close| - 1] == '>'
    requires forall k :: 0 <= k < |close| - 1 ==> close[k] != '<' || close[k + 1] != open[1]
    ensures Unbordered(open + amount + close)
  {
    var put, m, n := open + amount + close, |open|, |open| + |amount|;
    forall k | 1 <= k < |put| ensures put[k] != put[0] || (k + 1 < |put| && put[k + 1] != put[1]) {
      assert put[0] == open[0] && put[1] == open[1];
      if k < m {
        assert put[k] == open[k] && (k + 1 < m ==> put[k + 1] == open[k + 1]);
      } else if k < n {
        assert put[k] == amount[k - m];
      } else {
        assert put[k] == close[k - n] && (k + 1 < |put| ==> put[k + 1] == close[k - n + 1]);
      }
    }
    UnborderedBy(put);
  }

  // ----- the content

  lemma ContentFilled(e: Element, kind: string, amount: string, attributes: string)
    requires IsCell(e) && '<' !in attributes && IsAmount(amount) && ContentTakes(e, kind)
    ensures CellText.Substituted(kind, CellText.Opened(ShellOf(e), attributes), CellText.Element(kind, amount)) ==
            CellText.StartTag(e.tag, attributes) + PrintItems(HoldingItems(ItemsOf(e.body), kind, amount)) +
                CellText.EndTag(e.tag, SpaceOf(e.body))
  {
    var items, shell, put := ItemsOf(e.body), ShellOf(e), CellText.Element(kind, amount);
    var name := SlotName(kind, items);
    ShellFits(e);
    TextOfShell(e);
    HoldingText(items, kind, amount);
    if HasTop(items, name) {
      SlotText(items, name);
      CellText.SlotFilled(shell, attributes, kind, put, PrintItems(Front(items, name)), PrintItem(Slot(items, name)),
                          PrintItems(Back(items, name)));
    } else {
      CellText.AppendedFilled(shell, attributes, kind, put);
    }
  }

  /** A long amount in the right place came there because the expression matched the slot and nothing else. */
  lemma ContentFilledOnly(e: Element, kind: string, amount: string, attributes: string)
    requires IsCell(e) && '<' !in attributes && IsAmount(amount) && |amount| > |PrintItems(ItemsOf(e.body))|
    requires CellText.Substituted(kind, CellText.Opened(ShellOf(e), attributes), CellText.Element(kind, amount)) ==
             CellText.StartTag(e.tag, attributes) + PrintItems(HoldingItems(ItemsOf(e.body), kind, amount)) +
                 CellText.EndTag(e.tag, SpaceOf(e.body))
    ensures ContentTakes(e, kind)
  {
    var items, shell, put := ItemsOf(e.body), ShellOf(e), CellText.Element(kind, amount);
    var name := SlotName(kind, items);
    ShellFits(e);
    TextOfShell(e);
    HoldingText(items, kind, amount);
    NewElementUnbordered(kind, amount);
    CellText.ElementAmounts(kind, amount);
    if HasTop(items, name) {
      SlotText(items, name);
      CellText.SlotFilledOnly(shell, attributes, kind, put, PrintItems(Front(items, name)),
                              PrintItem(Slot(items, name)), PrintItems(Back(items, name)));
    } else {
      CellText.AppendedFilledOnly(shell, attributes, kind, put);
    }
  }

  /** With or without the amount, the markup of the content begins at the same place. */
  lemma HoldingBegins(e: Element, kind: string, amount: string)
    ensures var y := PrintItems(HoldingItems(ItemsOf(e.body), kind, amount)) + CellText.EndTag(e.tag, SpaceOf(e.body));
      '<' in y && DecimalText.IndexOf(y, '<') == DecimalText.IndexOf(PrintItems(ItemsOf(e.body)), '<')
  {
    var items, put, end := ItemsOf(e.body), CellText.Element(kind, amount), CellText.EndTag(e.tag, SpaceOf(e.body));
    var name := SlotName(kind, items);
    HoldingText(items, kind, amount);
    CellText.ElementAmounts(kind, amount);
    if HasTop(items, name) {
      SlotText(items, name);
      MarkupAround(PrintItems(Front(items, name)), PrintItem(Slot(items, name)), PrintItems(Back(items, name)), put,
          end);
    } else {
      FirstMarkup(PrintItems(items), put, end);
    }
  }

  lemma {:induction false} MarkupAround(a: string, w: string, b: string, put: string, end: string)
    requires w != [] && w[0] == '<' && put != [] && put[0] == '<'
    ensures '<' in a + (put + b) + end
    ensures DecimalText.IndexOf(a + (put + b) + end, '<') == DecimalText.IndexOf(a + w + b, '<')
  {
    FirstMarkup(a, put, b + end);
    FirstMarkup(a, w, b);
    assert a + (put + b) + end == a + put + (b + end);
  }

  lemma {:induction false} FirstMarkup(text: string, markup: string, rest: string)
    requires markup != [] && markup[0] == '<'
    ensures '<' in text + markup + rest
    ensures DecimalText.IndexOf(text + markup + rest, '<') == DecimalText.IndexOf(text, '<')
  {
    CellText.FirstBehind(text, markup, rest);
    if '<' !in text {
      CellText.NoneFound(text, '<');
    }
  }

  // ----- the type

  lemma InlineUnbordered()
    ensures Unbordered(CellText.INLINE)
  {
    UnborderedBy(CellText.INLINE);
  }

  lemma InlineMatches(s: string)
    requires CellText.INLINE <= s
    ensures CellText.TypeEnd(s) == Some(|CellText.INLINE|)
  {
    var rest := s[|CellText.INLINE|..];
    TypePrints();
    assert s == CellText.INLINE + rest;
    AttributeMatches(TYPE, rest);
  }

  lemma TypePrints()
    ensures PrintAttribute(TYPE) == CellText.INLINE && IsAttribute(TYPE) && IsType(TYPE) && IsPlain(TYPE)
  {
    LocalNames();
    TypeTogether();
  }

  lemma TypeTogether()
    ensures " " + "t" + "" + "=" + "" + ['"'] + "inlineStr" + ['"'] == CellText.INLINE
  {
    assert " " + "t" + "" + "=" + "" == " t=";
    InlineParts("");
  }

  /** Written with a blank, without a prefix and without blanks around `=`. */
  predicate IsPlain(a: Attribute) {
    a.blank != [] && a.name == "t" && a.before == [] && a.after == []
  }

  lemma {:induction false} SpacesRun(blank: string, rest: string)
    requires Blanks(blank) && rest != [] && !CellText.IsSpace(rest[0])
    ensures CellText.Spaces(blank + rest) == |blank|
  {
    if blank == [] {
      assert blank + rest == rest;
    } else {
      assert (blank + rest)[1..] == blank[1..] + rest;
      SpacesRun(blank[1..], rest);
    }
  }

  /** The expression matches an attribute just when that is a plainly written type. */
  lemma AttributeMatches(a: Attribute, rest: string)
    requires IsAttribute(a)
    ensures CellText.TypeEnd(PrintAttribute(a) + rest) == if IsPlain(a) then Some(|PrintAttribute(a)|) else None
  {
    var s := PrintAttribute(a) + rest;
    var quoted := [a.quote] + (a.value + ([a.quote] + rest));
    var named := a.name + (a.before + ("=" + (a.after + quoted)));
    AttributeParts(a, rest);
    assert named[0] == a.name[0] && !CellText.IsSpace(named[0]);
    SpacesRun(a.blank, named);
    assert s[|a.blank|..] == named;
    NamedType(a, quoted);
    if a.blank != [] && a.name == "t" && a.before == [] {
      BehindEquals(a, s, rest);
    }
  }

  lemma NamedType(a: Attribute, quoted: string)
    requires IsAttribute(a)
    ensures "t=" <= a.name + (a.before + ("=" + (a.after + quoted))) <==> a.name == "t" && a.before == []
  {
    var named := a.name + (a.before + ("=" + (a.after + quoted)));
    assert |a.name| == 1 ==> named[1] == if a.before == [] then '=' else a.before[0];
    assert |a.name| > 1 ==> named[1] == a.name[1];
    assert "t=" <= named <==> |named| >= 2 && named[0] == 't' && named[1] == '=';
  }

  lemma {:induction false} BehindEquals(a: Attribute, s: string, rest: string)
    requires IsAttribute(a) && a.blank != [] && a.name == "t" && a.before == []
    requires s == PrintAttribute(a) + rest && CellText.Spaces(s) == |a.blank|
    requires "t=" <= s[|a.blank|..]
    ensures CellText.TypeEnd(s) == if a.after == [] then Some(|PrintAttribute(a)|) else None
  {
    TypeBehind(a, s, rest);
    if a.after == [] {
      CellText.IndexOfAppend(a.value, [a.quote] + rest, a.quote);
    }
  }

  lemma TypeBehind(a: Attribute, s: string, rest: string)
    requires IsAttribute(a) && a.name == "t" && a.before == [] && s == PrintAttribute(a) + rest
    ensures var n := |a.blank|;
      && |s| > n + 2 && s[n + 2] == (if a.after == [] then a.quote else a.after[0])
      && (a.after == [] ==> s[n + 3..] == a.value + ([a.quote] + rest) && |PrintAttribute(a)| == n + 4 + |a.value|)
  {
    var n := |a.blank|;
    AttributeParts(a, rest);
    var behind := a.after + ([a.quote] + (a.value + ([a.quote] + rest)));
    assert s == a.blank + "t=" + behind;
    assert s[n + 2..] == behind && s[n + 2] == behind[0];
    assert a.after == [] ==> s[n + 3..] == behind[1..];
  }

  lemma TypeRigid()
    ensures Rigid(CellText.Types(), CellText.INLINE)
  {
    forall s | Ends(CellText.Types(), s) && CellText.INLINE <= s
      ensures s[..CellText.Types()(s).value] == CellText.INLINE
    {
      InlineMatches(s);
    }
  }

  /** A type attribute that says something else neither is nor begins with the new one. */
  lemma NotYetInline(a: Attribute, rest: string)
    requires IsAttribute(a) && IsType(a) && a.value != "inlineStr"
    ensures PrintAttribute(a) != CellText.INLINE && !(CellText.INLINE <= PrintAttribute(a) + rest)
  {
    NotInline(a);
    if CellText.INLINE <= PrintAttribute(a) + rest {
      InlineMatches(PrintAttribute(a) + rest);
      AttributeMatches(a, rest);
      PrefixOfSum(CellText.INLINE, PrintAttribute(a), rest);
    }
  }

  lemma PrefixOfSum(x: string, y: string, rest: string)
    requires x <= y + rest && |x| == |y|
    ensures x == y
  {
    assert x == (y + rest)[..|x|] == y;
  }

  lemma NotInline(a: Attribute)
    requires IsAttribute(a) && a.value != "inlineStr"
    ensures PrintAttribute(a) != CellText.INLINE
  {
    TypePrints();
    if PrintAttribute(a) == CellText.INLINE {
      assert PrintAttribute(a) + "" == PrintAttribute(TYPE) + "";
      AttributeCut(a, "", TYPE, "");
    }
  }

  /** Up to the first `>` lies everything before it. */
  lemma {:induction false} InReach(before: string, written: string, after: string)
    requires '>' !in before && '>' !in written
    ensures var end := DecimalText.IndexOf(after, '>');
      && DecimalText.IndexOf(before + written + after, '>') == |before + written| + end
      && (before + written + after)[..|before + written| + end] == before + written + after[..end]
      && (before + written + after)[|before + written| + end..] == after[end..]
  {
    CellText.IndexOfAppend(before + written, after, '>');
  }

  lemma BehindBoth(x: string, y: string, tail: string)
    ensures x + tail == y + tail <==> x == y
  {
    if x + tail == y + tail {
      assert |x| == |y|;
      assert x == (x + tail)[..|x|] == (y + tail)[..|x|] == y;
    }
  }

  /** In reach, the attributes come out right exactly when only the type changes. */
  lemma ReachedExactly(kind: string, before: string, a: Attribute, after: string)
    requires CellText.IsRetyped(kind)
    requires IsAttribute(a) && IsType(a) && a.value != "inlineStr"
    requires '>' !in before && '>' !in PrintAttribute(a)
    ensures CellText.NewAttributes(kind, before + PrintAttribute(a) + after) == before + (CellText.INLINE + after) <==>
            OnlyTypeChanges(before, PrintAttribute(a), after)
  {
    var w, end := PrintAttribute(a), DecimalText.IndexOf(after, '>');
    var head, tail := after[..end], after[end..];
    InReach(before, w, after);
    CellText.NewAttributesCut(kind, before + w + after);
    HeadExactly(before, a, head);
    Regrouped(before, CellText.INLINE, after, end);
    BehindBoth(CellText.Retype(before + w + head), before + (CellText.INLINE + head), tail);
  }

  lemma Regrouped(before: string, put: string, after: string, end: nat)
    requires end <= |after|
    ensures before + (put + after) == before + (put + after[..end]) + after[end..]
  {
    assert after == after[..end] + after[end..];
  }

  lemma {:induction false} HeadExactly(before: string, a: Attribute, head: string)
    requires IsAttribute(a) && IsType(a) && a.value != "inlineStr"
    ensures CellText.Retype(before + PrintAttribute(a) + head) == before + (CellText.INLINE + head) <==>
            OnlyChange(CellText.Types(), CellText.INLINE, before, PrintAttribute(a), head)
  {
    CellText.RetypeIsRewrite(before + PrintAttribute(a) + head);
    InlineUnbordered();
    TypeRigid();
    NotYetInline(a, head);
    AttributeMatches(a, head);
    AttributeText(a);
    OnlyChangeExactly(CellText.Types(), CellText.INLINE, before, PrintAttribute(a), head);
  }

  lemma AttributeText(a: Attribute)
    ensures PrintAttribute(a) != []
  {
  }

  /** Two texts that end with quotes end with the same quoted value, or one quote stands inside the other's value. */
  lemma LastQuoted(x: string, c: char, v: string, q: char, y: string, d: char, u: string, r: char)
    requires x + [c] + v + [q] == y + [d] + u + [r]
    ensures q == r
    ensures |v| < |u| ==> c in u
    ensures |v| == |u| ==> c == d && v == u
    ensures |v| > |u| ==> d in v
  {
    var z, n := x + [c] + v + [q], |x + [c] + v + [q]|;
    assert z[n - 1] == q && z == y + [d] + u + [r];
    var front := z[..n - 1];
    assert front == x + [c] + v && front == y + [d] + u;
    if |v| < |u| {
      assert front[|x|] == c && front[|x|] == u[|x| - |y| - 1];
    } else if |v| > |u| {
      assert front[|y|] == d && front[|y|] == v[|y| - |x| - 1];
    } else {
      assert v == front[|x| + 1..] == u;
    }
  }

  /**
   A text that ends with a quoted value, or with the part of one behind a `>`, does not end with the new attribute.
   */
  lemma NotInlineEnd(x: string, c: char, v: string, q: char, y: string)
    requires (c == '>' || c == q) && q !in v && (c == q ==> v != "inlineStr")
    ensures x + [c] + v + [q] != y + CellText.INLINE
  {
    if x + [c] + v + [q] == y + CellText.INLINE {
      InlineParts(y);
      LastQuoted(x, c, v, q, y + " t=", '"', "inlineStr", '"');
    }
  }

  lemma InlineParts(y: string)
    ensures y + CellText.INLINE == y + " t=" + ['"'] + "inlineStr" + ['"']
    ensures '>' !in "inlineStr" && '"' !in "inlineStr"
  {
    assert CellText.INLINE == " t=" + ['"'] + "inlineStr" + ['"'];
  }

  /** An attribute up to its opening quote. */
  function Opening(a: Attribute): string {
    a.blank + a.name + a.before + "=" + a.after
  }

  lemma OpeningPlain(a: Attribute)
    requires IsAttribute(a)
    ensures PrintAttribute(a) == Opening(a) + [a.quote] + a.value + [a.quote] && '>' !in Opening(a)
  {
    assert '>' !in a.blank && '>' !in a.name && '>' !in a.before && '>' !in a.after;
  }

  /** A `>` before the end of the type attribute keeps it as it is. */
  lemma OutOfReach(kind: string, before: string, a: Attribute, after: string)
    requires CellText.IsRetyped(kind)
    requires IsAttribute(a) && a.value != "inlineStr" && '>' in before + PrintAttribute(a)
    ensures CellText.NewAttributes(kind, before + PrintAttribute(a) + after) != before + (CellText.INLINE + after)
  {
    var u := before + PrintAttribute(a);
    var k := DecimalText.IndexOf(u, '>');
    CellText.IndexOfAppend(u, after, '>');
    assert k < |u|;
    assert (u + after)[..k] == u[..k] && (u + after)[k..] == u[k..] + after;
    CellText.NewAttributesCut(kind, u + after);
    NotRewritten(before, a, k, CellText.Retype(u[..k]));
    Collections.Assoc(before, CellText.INLINE, after);
    Collections.Assoc(CellText.Retype(u[..k]), u[k..], after);
    BehindBoth(CellText.Retype(u[..k]) + u[k..], before + CellText.INLINE, after);
  }

  lemma {:induction false} NotRewritten(before: string, a: Attribute, k: nat, done: string)
    requires IsAttribute(a) && a.value != "inlineStr"
    requires k == DecimalText.IndexOf(before + PrintAttribute(a), '>') < |before + PrintAttribute(a)|
    ensures done + (before + PrintAttribute(a))[k..] != before + CellText.INLINE
  {
    var x, c, v := QuotedEnd(before, a, k);
    NotInlineEnd(done + x, c, v, a.quote, before);
    assert done + (x + [c] + v + [a.quote]) == done + x + [c] + v + [a.quote];
  }

  /** From its first `>` on, the text ends with the value, or with what follows a `>` in it. */
  lemma QuotedEnd(before: string, a: Attribute, k: nat) returns (x: string, c: char, v: string)
    requires IsAttribute(a) && a.value != "inlineStr"
    requires k == DecimalText.IndexOf(before + PrintAttribute(a), '>') < |before + PrintAttribute(a)|
    ensures (before + PrintAttribute(a))[k..] == x + [c] + v + [a.quote]
    ensures (c == '>' || c == a.quote) && a.quote !in v && (c == a.quote ==> v != "inlineStr")
  {
    var u, open := before + PrintAttribute(a), before + Opening(a) + [a.quote];
    OpeningPlain(a);
    Sum(before, Opening(a), [a.quote], a.value);
    CellText.IndexOfAppend(before, PrintAttribute(a), '>');
    if '>' in before {
      x, c, v := (before + Opening(a))[k..], a.quote, a.value;
      assert u[k..] == x + [c] + v + [a.quote];
    } else {
      MarkInValue(before, a, k);
      var j := k - |open|;
      x, c, v := "", '>', a.value[j + 1..];
      assert u[k..] == a.value[j..] + [a.quote] && a.value[j..] == "" + [c] + v;
    }
  }

  lemma {:induction false} MarkInValue(before: string, a: Attribute, k: nat)
    requires IsAttribute(a) && '>' !in before
    requires k == DecimalText.IndexOf(before + PrintAttribute(a), '>') < |before + PrintAttribute(a)|
    ensures var n := |before + Opening(a) + [a.quote]|; n <= k < n + |a.value| && a.value[k - n] == '>'
  {
    OpeningPlain(a);
    Sum(before, Opening(a), [a.quote], a.value);
    NotInOpening(before, a);
    MarkBetween(before + Opening(a) + [a.quote], a.value, a.quote, k);
  }

  lemma Sum(x: string, y: string, q: string, v: string)
    ensures x + (y + q + v + q) == x + y + q + v + q
  {
  }

  lemma NotInOpening(before: string, a: Attribute)
    requires IsAttribute(a) && '>' !in before
    ensures '>' !in before + Opening(a) + [a.quote]
  {
    OpeningPlain(a);
  }

  lemma {:induction false} MarkBetween(open: string, v: string, q: char, k: nat)
    requires '>' !in open && q != '>' && k == DecimalText.IndexOf(open + v + [q], '>') < |open + v + [q]|
    ensures |open| <= k < |open| + |v| && v[k - |open|] == '>'
  {
    Collections.Assoc(open, v, [q]);
    CellText.IndexOfAppend(open, v + [q], '>');
    CellText.IndexOfAppend(v, [q], '>');
    CellText.NoneFound([q], '>');
  }

  /** The type is rewritten as it should be exactly when the expression reaches it and changes nothing else. */
  lemma TypeExactly(kind: string, before: string, a: Attribute, after: string)
    requires CellText.IsRetyped(kind)
    requires IsAttribute(a) && IsType(a) && a.value != "inlineStr"
    ensures CellText.NewAttributes(kind, before + PrintAttribute(a) + after) == before + (CellText.INLINE + after) <==>
            OnlyTypeChanges(before, PrintAttribute(a), after)
  {
    if '>' in before || '>' in PrintAttribute(a) {
      OutOfReach(kind, before, a, after);
    } else {
      ReachedExactly(kind, before, a, after);
    }
  }

  lemma {:induction false} AttributesAround(attributes: seq<Attribute>, i: nat)
    requires i < |attributes|
    ensures PrintAttributes(attributes) ==
            PrintAttributes(attributes[..i]) + PrintAttribute(attributes[i]) + PrintAttributes(attributes[i + 1..])
  {
    if i == 0 {
      assert attributes[..0] == [] && PrintAttributes(attributes[..0]) == [];
    } else {
      AttributesAround(attributes[1..], i - 1);
      assert attributes[1..][..i - 1] == attributes[..i][1..] && attributes[1..][i..] == attributes[i + 1..];
      assert attributes[..i][0] == attributes[0];
    }
  }

  /** What the patcher makes of the attributes, and what it should make of them. */
  lemma AttributesExactly(e: Element, kind: string)
    requires IsCell(e) && Delivers(e, kind)
    ensures TypeWritten(e, kind) <==>
            CellText.NewAttributes(kind, PrintAttributes(e.attributes) + e.gap) ==
            PrintAttributes(HoldingAttributes(e.attributes, kind)) + e.gap
  {
    if CellText.IsRetyped(kind) {
      var i := TypeIndex(e.attributes);
      TypeThere(e.attributes);
      AttributesWithType(e.attributes, i, e.gap);
      TypeExactly(kind, PrintAttributes(e.attributes[..i]), e.attributes[i], PrintAttributes(e.attributes[i + 1..]) +
          e.gap);
    }
  }

  lemma AttributesWithType(attributes: seq<Attribute>, i: nat, gap: string)
    requires i < |attributes|
    ensures var before, behind := PrintAttributes(attributes[..i]), PrintAttributes(attributes[i + 1..]) + gap;
      && PrintAttributes(attributes) + gap == before + PrintAttribute(attributes[i]) + behind
      && PrintAttributes(attributes[i := TYPE]) + gap == before + (CellText.INLINE + behind)
  {
    var before, behind := PrintAttributes(attributes[..i]), PrintAttributes(attributes[i + 1..]);
    var changed := attributes[i := TYPE];
    AttributesAround(attributes, i);
    AttributesAround(changed, i);
    assert changed[..i] == attributes[..i] && changed[i + 1..] == attributes[i + 1..] && changed[i] == TYPE;
    TypePrints();
    Collections.Assoc(before + PrintAttribute(attributes[i]), behind, gap);
    Collections.Assoc(before + CellText.INLINE, behind, gap);
    Collections.Assoc(before, CellText.INLINE, behind + gap);
  }

  // ----- exactly which cells take every amount

  lemma HoldingPlain(e: Element, kind: string)
    requires IsCell(e)
    ensures '<' !in PrintAttributes(HoldingAttributes(e.attributes, kind)) + e.gap
  {
    TypePrints();
    var held := HoldingAttributes(e.attributes, kind);
    assert forall i :: 0 <= i < |held| ==> IsAttribute(held[i]);
    NoTagInAttributes(held);
    assert '<' !in e.gap;
  }

  lemma {:induction false} PatchedCell(e: Element, kind: string, amount: string)
    requires IsCell(e)
    ensures '>' in PrintElement(e)
    ensures var a := CellText.NewAttributes(kind, PrintAttributes(e.attributes) + e.gap);
      && '<' !in a
      && CellText.PatchedText(kind, PrintElement(e), amount) ==
         CellText.Substituted(kind, CellText.Opened(ShellOf(e), a), CellText.Element(kind, amount))
  {
    ShellFits(e);
    CellText.OpenedUpCell(ShellOf(e));
    CellText.RetypedCell(ShellOf(e), kind);
    CellText.NewAttributesPlain(kind, ShellOf(e).attributes);
  }

  /** A cell that meets the condition takes any amount. */
  lemma {:induction false} TakesAny(e: Element, kind: string, amount: string)
    requires IsCell(e) && Delivers(e, kind) && Takes(e, kind) && IsAmount(amount)
    ensures '>' in PrintElement(e) && Holds(e, kind, amount, CellText.PatchedText(kind, PrintElement(e), amount))
  {
    PatchedCell(e, kind, amount);
    AttributesExactly(e, kind);
    ContentFilled(e, kind, amount, CellText.NewAttributes(kind, PrintAttributes(e.attributes) + e.gap));
    HoldingPrints(e, kind, amount);
    HoldingSeen(e, kind, amount);
    if CellText.IsRetyped(kind) {
      HoldingType(e, kind);
    }
  }

  /** A cell that takes one long amount meets the condition. */
  lemma {:induction false} TakesLong(e: Element, kind: string, amount: string)
    requires IsCell(e) && Delivers(e, kind) && IsAmount(amount) && |amount| > |PrintItems(ItemsOf(e.body))|
    requires '>' in PrintElement(e) && Holds(e, kind, amount, CellText.PatchedText(kind, PrintElement(e), amount))
    ensures Takes(e, kind)
  {
    PatchedCell(e, kind, amount);
    AttributesExactly(e, kind);
    HoldingPrints(e, kind, amount);
    HoldingSeen(e, kind, amount);
    var a := CellText.NewAttributes(kind, PrintAttributes(e.attributes) + e.gap);
    var b := PrintAttributes(HoldingAttributes(e.attributes, kind)) + e.gap;
    if a != b {
      WrongStart(e, kind, amount, a, b);
    } else {
      ContentFilledOnly(e, kind, amount, a);
    }
  }

  lemma WrongStart(e: Element, kind: string, amount: string, a: string, b: string)
    requires IsCell(e) && '<' !in a && a != b
    requires b == PrintAttributes(HoldingAttributes(e.attributes, kind)) + e.gap
    ensures CellText.Substituted(kind, CellText.Opened(ShellOf(e), a), CellText.Element(kind, amount)) !=
            CellText.StartTag(e.tag, b) + PrintItems(HoldingItems(ItemsOf(e.body), kind, amount)) +
                CellText.EndTag(e.tag, SpaceOf(e.body))
  {
    var inner, end := PrintItems(HoldingItems(ItemsOf(e.body), kind, amount)), CellText.EndTag(e.tag, SpaceOf(e.body));
    ShellFits(e);
    TextOfShell(e);
    HoldingPlain(e, kind);
    HoldingBegins(e, kind, amount);
    CellText.ElementAmounts(kind, amount);
    CellText.OtherAttributes(ShellOf(e), a, b, kind, CellText.Element(kind, amount), inner + end);
    Collections.Assoc(CellText.StartTag(e.tag, b), inner, end);
  }

  function Nines(n: nat): (s: string)
    ensures |s| == n && forall i :: 0 <= i < n ==> s[i] == '9'
  {
    seq(n, i => '9')
  }

  predicate Fills(e: Element, kind: string, amount: string) {
    '>' in PrintElement(e) && Holds(e, kind, amount, CellText.PatchedText(kind, PrintElement(e), amount))
  }

  /**
   The patcher turns a cell into the same cell holding the amount, whatever the amount, exactly when its type
   expression changes the type attribute and nothing else, its value expression matches the value element and nothing
   else (or, when there is none, nothing at all, and the cell ends with the first `</c>`), and the walk reads nothing
   beside that element.
   */
  lemma FillsExactly(e: Element, kind: string)
    requires IsCell(e) && Delivers(e, kind)
    ensures Takes(e, kind) <==> forall amount :: IsAmount(amount) ==> Fills(e, kind, amount)
  {
    if Takes(e, kind) {
      forall amount | IsAmount(amount) ensures Fills(e, kind, amount) {
        TakesAny(e, kind, amount);
      }
    }
    if forall amount :: IsAmount(amount) ==> Fills(e, kind, amount) {
      var long := Nines(|PrintItems(ItemsOf(e.body))| + 1);
      assert IsAmount(long) && Fills(e, kind, long);
      TakesLong(e, kind, long);
    }
  }
}

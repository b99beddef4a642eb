/**
 A worksheet cell as XML: attributes as written, content as a list of text, comments, sections and elements. A cell text
 has one reading only, and the walk takes a type and a value from it.
 */
module CellReading {
  import opened Wrappers
  import Collections
  import DecimalText
  import CellText

  // ----- cells

  predicate IsBlank(c: char) {
    c == '\t' || c == '\n' || c == '\r' || c == ' '
  }

  predicate Blanks(s: string) {
    forall i :: 0 <= i < |s| ==> IsBlank(s[i])
  }

  predicate NameCharacter(c: char) {
    !IsBlank(c) && c != '\U{000C}' && c !in "<>/=\"'&!?"
  }

  predicate IsName(s: string) {
    s != [] && forall i :: 0 <= i < |s| ==> NameCharacter(s[i])
  }

  /** The name behind a prefix; a colon at either end belongs to the name. */
  function Local(name: string): string {
    var i := DecimalText.IndexOf(name, ':');
    if 0 < i && i + 1 < |name| then name[i + 1..] else name
  }

  /** `blank name before = after quote value quote`. */
  datatype Attribute =
    Attribute(blank: string, name: string, before: string, after: string, quote: char, value: string)

  datatype Element = Element(tag: string, attributes: seq<Attribute>, gap: string, body: Body)

  datatype Body = Empty | Content(items: Items, space: string)

  datatype Items = Nil | Cons(head: Item, tail: Items)

  datatype Item =
    | Characters(text: string)
    | Comment(text: string)
    | Section(text: string)
    | Instruction(text: string)
    | Nested(element: Element)

  function PrintAttribute(a: Attribute): string {
    a.blank + a.name + a.before + "=" + a.after + [a.quote] + a.value + [a.quote]
  }

  function PrintAttributes(attributes: seq<Attribute>): string {
    if attributes == [] then [] else PrintAttribute(attributes[0]) + PrintAttributes(attributes[1..])
  }

  function PrintElement(e: Element): string
    decreases e, 0
  {
    "<" + e.tag + PrintAttributes(e.attributes) + e.gap +
    match e.body
    case Empty => "/>"
    case Content(items, space) => ">" + PrintItems(items) + "</" + e.tag + space + ">"
  }

  function PrintItem(item: Item): string
    decreases item, 0
  {
    match item
    case Characters(text) => text
    case Comment(text) => "<!--" + text + "-->"
    case Section(text) => "<![CDATA[" + text + "]]>"
    case Instruction(text) => "<?" + text + "?>"
    case Nested(element) => PrintElement(element)
  }

  function PrintItems(items: Items): string
    decreases items, 0
  {
    match items
    case Nil => []
    case Cons(head, tail) => PrintItem(head) + PrintItems(tail)
  }

  // ----- well-formed cells

  predicate IsAttribute(a: Attribute) {
    && Blanks(a.blank) && IsName(a.name) && Blanks(a.before) && Blanks(a.after)
    && (a.quote == '"' || a.quote == '\'') && a.quote !in a.value && '<' !in a.value
  }

  /** A blank stands before the first attribute. */
  predicate AreAttributes(attributes: seq<Attribute>) {
    && (forall i :: 0 <= i < |attributes| ==> IsAttribute(attributes[i]))
    && (attributes != [] ==> attributes[0].blank != [])
  }

  /** The text of a comment, section or instruction ends where its end is first read. */
  predicate EndsFirst(text: string, end: string) {
    CellText.Index(text + end, end) == Some(|text|)
  }

  /** No other cell begins inside a cell: the walk would report that one. */
  predicate IsElement(e: Element)
    decreases e, 0
  {
    && IsName(e.tag) && AreAttributes(e.attributes) && Blanks(e.gap)
    && (e.body.Content? ==> AreItems(e.body.items) && Blanks(e.body.space))
  }

  predicate IsItem(item: Item)
    decreases item, 0
  {
    match item
    case Characters(text) => text != [] && '<' !in text
    case Comment(text) => EndsFirst(text, "--")
    case Section(text) => EndsFirst(text, "]]>")
    case Instruction(text) => EndsFirst(text, "?>")
    case Nested(element) => IsElement(element) && Local(element.tag) != "c"
  }

  /** Texts are as long as they can be. */
  predicate AreItems(items: Items)
    decreases items, 0
  {
    match items
    case Nil => true
    case Cons(head, tail) =>
      IsItem(head) && AreItems(tail) && !(head.Characters? && tail.Cons? && tail.head.Characters?)
  }

  predicate IsCell(e: Element) {
    IsElement(e) && Local(e.tag) == "c"
  }

  // ----- one text, one cell

  lemma RunNotLonger(p: char -> bool, s1: string, r1: string, s2: string, r2: string)
    requires (forall i :: 0 <= i < |s2| ==> p(s2[i])) && r1 != [] && !p(r1[0]) && s1 + r1 == s2 + r2
    ensures |s2| <= |s1|
  {
    var t := s1 + r1;
    assert t[|s1|] == r1[0];
    assert forall i :: 0 <= i < |s2| ==> t[i] == s2[i];
  }

  lemma RunCut(p: char -> bool, s1: string, r1: string, s2: string, r2: string)
    requires (forall i :: 0 <= i < |s1| ==> p(s1[i])) && (forall i :: 0 <= i < |s2| ==> p(s2[i]))
    requires r1 != [] && !p(r1[0]) && r2 != [] && !p(r2[0])
    requires s1 + r1 == s2 + r2
    ensures s1 == s2 && r1 == r2
  {
    RunNotLonger(p, s1, r1, s2, r2);
    RunNotLonger(p, s2, r2, s1, r1);
    var t := s1 + r1;
    assert s1 == t[..|s1|] == s2 && r1 == t[|s1|..] == r2;
  }

  lemma NameCut(s1: string, r1: string, s2: string, r2: string)
    requires IsName(s1) && IsName(s2) && s1 + r1 == s2 + r2
    requires r1 != [] && !NameCharacter(r1[0]) && r2 != [] && !NameCharacter(r2[0])
    ensures s1 == s2 && r1 == r2
  {
    RunCut(c => NameCharacter(c), s1, r1, s2, r2);
  }

  lemma BlankCut(s1: string, r1: string, s2: string, r2: string)
    requires Blanks(s1) && Blanks(s2) && s1 + r1 == s2 + r2
    requires r1 != [] && !IsBlank(r1[0]) && r2 != [] && !IsBlank(r2[0])
    ensures s1 == s2 && r1 == r2
  {
    RunCut(c => IsBlank(c), s1, r1, s2, r2);
  }

  lemma CutUpTo(c: char, s1: string, r1: string, s2: string, r2: string)
    requires c !in s1 && c !in s2 && s1 + ([c] + r1) == s2 + ([c] + r2)
    ensures s1 == s2 && r1 == r2
  {
    assert forall i :: 0 <= i < |s1| ==> s1[i] in s1;
    assert forall i :: 0 <= i < |s2| ==> s2[i] in s2;
    RunCut(x => x != c, s1, [c] + r1, s2, [c] + r2);
    assert ([c] + r1)[1..] == r1 && ([c] + r2)[1..] == r2;
  }

  lemma Headless(front: string, a: string, b: string)
    ensures front + a == front + b <==> a == b
  {
    assert (front + a)[|front|..] == a && (front + b)[|front|..] == b;
  }

  /** The text up to the first `end`. */
  lemma EndCut(end: string, s1: string, r1: string, s2: string, r2: string)
    requires EndsFirst(s1, end) && EndsFirst(s2, end) && s1 + (end + r1) == s2 + (end + r2)
    ensures s1 == s2 && r1 == r2
  {
    FirstEnd(end, s1, r1);
    FirstEnd(end, s2, r2);
    assert |s1| == |s2|;
    assert s1 == (s1 + (end + r1))[..|s1|] == s2;
    assert (s1 + (end + r1))[|s1| + |end|..] == r1 && (s2 + (end + r2))[|s2| + |end|..] == r2;
  }

  lemma {:induction false} FirstEnd(end: string, s: string, r: string)
    requires EndsFirst(s, end)
    ensures CellText.Index(s + (end + r), end) == Some(|s|)
  {
    CellText.AtWithin(s + end, r, end);
    CellText.IndexUnique(s + end + r, end, |s|);
    Collections.Assoc(s, end, r);
  }

  // ----- attributes

  lemma AttributeParts(a: Attribute, rest: string)
    ensures PrintAttribute(a) + rest ==
            a.blank + (a.name + (a.before + ("=" + (a.after + ([a.quote] + (a.value + ([a.quote] + rest)))))))
  {
  }

  lemma AttributeCut(a1: Attribute, rest1: string, a2: Attribute, rest2: string)
    requires IsAttribute(a1) && IsAttribute(a2) && PrintAttribute(a1) + rest1 == PrintAttribute(a2) + rest2
    ensures a1 == a2 && rest1 == rest2
  {
    AttributeParts(a1, rest1);
    AttributeParts(a2, rest2);
    var v1, v2 := [a1.quote] + (a1.value + ([a1.quote] + rest1)), [a2.quote] + (a2.value + ([a2.quote] + rest2));
    FrontCut(a1, v1, a2, v2);
    assert v1[0] == v2[0] && v1[1..] == a1.value + ([a1.quote] + rest1) && v2[1..] == a2.value + ([a2.quote] + rest2);
    CutUpTo(a1.quote, a1.value, rest1, a2.value, rest2);
  }

  /** Everything up to the opening quote. */
  lemma FrontCut(a1: Attribute, v1: string, a2: Attribute, v2: string)
    requires IsAttribute(a1) && IsAttribute(a2) && v1 != [] && v2 != [] && !IsBlank(v1[0]) && !IsBlank(v2[0])
    requires a1.blank + (a1.name + (a1.before + ("=" + (a1.after + v1)))) ==
             a2.blank + (a2.name + (a2.before + ("=" + (a2.after + v2))))
    ensures a1.blank == a2.blank && a1.name == a2.name && a1.before == a2.before && a1.after == a2.after && v1 == v2
  {
    var b1, b2 := a1.before + ("=" + (a1.after + v1)), a2.before + ("=" + (a2.after + v2));
    BlankCut(a1.blank, a1.name + b1, a2.blank, a2.name + b2);
    assert b1[0] == (if a1.before == [] then '=' else a1.before[0]) &&
           b2[0] == (if a2.before == [] then '=' else a2.before[0]);
    NameCut(a1.name, b1, a2.name, b2);
    BlankCut(a1.before, "=" + (a1.after + v1), a2.before, "=" + (a2.after + v2));
    Headless("=", a1.after + v1, a2.after + v2);
    BlankCut(a1.after, v1, a2.after, v2);
  }

  /** What may follow the attributes of a tag. */
  predicate EndsTag(r: string) {
    r != [] && (r[0] == '>' || r[0] == '/')
  }

  lemma NamedBehindBlank(a: Attribute, rest: string) returns (behind: string)
    requires IsAttribute(a)
    ensures PrintAttribute(a) + rest == a.blank + behind && behind != [] && NameCharacter(behind[0])
  {
    AttributeParts(a, rest);
    behind := a.name + (a.before + ("=" + (a.after + ([a.quote] + (a.value + ([a.quote] + rest))))));
    assert behind[0] == a.name[0];
  }

  /** A tag that ends has no attribute in front of its end. */
  lemma NoAttributeThere(gap: string, r: string, a: Attribute, rest: string)
    requires IsAttribute(a) && Blanks(gap) && EndsTag(r)
    ensures gap + r != PrintAttribute(a) + rest
  {
    var behind := NamedBehindBlank(a, rest);
    if gap + r == PrintAttribute(a) + rest {
      BlankCut(gap, r, a.blank, behind);
    }
  }

  lemma {:induction false} AttributesCut(a1: seq<Attribute>, g1: string, r1: string,
                                         a2: seq<Attribute>, g2: string, r2: string)
    requires (forall i :: 0 <= i < |a1| ==> IsAttribute(a1[i])) && (forall i :: 0 <= i < |a2| ==> IsAttribute(a2[i]))
    requires Blanks(g1) && Blanks(g2) && EndsTag(r1) && EndsTag(r2)
    requires PrintAttributes(a1) + (g1 + r1) == PrintAttributes(a2) + (g2 + r2)
    ensures a1 == a2 && g1 == g2 && r1 == r2
    decreases |a1|
  {
    if a1 == [] && a2 == [] {
      assert [] + (g1 + r1) == g1 + r1 && [] + (g2 + r2) == g2 + r2;
      BlankCut(g1, r1, g2, r2);
    } else if a1 == [] {
      assert [] + (g1 + r1) == g1 + r1;
      FirstAttribute(a2, g2 + r2);
      NoAttributeThere(g1, r1, a2[0], PrintAttributes(a2[1..]) + (g2 + r2));
    } else if a2 == [] {
      assert [] + (g2 + r2) == g2 + r2;
      FirstAttribute(a1, g1 + r1);
      NoAttributeThere(g2, r2, a1[0], PrintAttributes(a1[1..]) + (g1 + r1));
    } else {
      FirstAttribute(a1, g1 + r1);
      FirstAttribute(a2, g2 + r2);
      AttributeCut(a1[0], PrintAttributes(a1[1..]) + (g1 + r1), a2[0], PrintAttributes(a2[1..]) + (g2 + r2));
      AttributesCut(a1[1..], g1, r1, a2[1..], g2, r2);
      assert a1 == [a1[0]] + a1[1..] && a2 == [a2[0]] + a2[1..];
    }
  }

  lemma {:induction false} FirstAttribute(attributes: seq<Attribute>, rest: string)
    requires attributes != []
    ensures PrintAttributes(attributes) + rest ==
            PrintAttribute(attributes[0]) + (PrintAttributes(attributes[1..]) + rest)
  {
    Collections.Assoc(PrintAttribute(attributes[0]), PrintAttributes(attributes[1..]), rest);
  }

  // ----- elements

  function BodyText(e: Element): string {
    match e.body
    case Empty => "/>"
    case Content(items, space) => ">" + (PrintItems(items) + ("</" + (e.tag + (space + ">"))))
  }

  lemma {:induction false} ElementParts(e: Element, x: string)
    ensures PrintElement(e) + x == "<" + (e.tag + (PrintAttributes(e.attributes) + (e.gap + (BodyText(e) + x))))
  {
  }

  /** What follows a tag's name cannot belong to it. */
  lemma {:induction false} NameEnds(e: Element, r: string)
    requires IsElement(e) && EndsTag(r)
    ensures var rest := PrintAttributes(e.attributes) + (e.gap + r);
      rest != [] && !NameCharacter(rest[0])
  {
    var rest := PrintAttributes(e.attributes) + (e.gap + r);
    if e.attributes == [] {
      assert rest == e.gap + r;
    } else {
      FirstAttribute(e.attributes, e.gap + r);
      AttributeParts(e.attributes[0], PrintAttributes(e.attributes[1..]) + (e.gap + r));
      assert rest[0] == e.attributes[0].blank[0];
    }
  }

  /** Behind the items stands an end tag. */
  lemma {:induction false} ElementCut(e1: Element, x1: string, e2: Element, x2: string)
    requires IsElement(e1) && IsElement(e2) && PrintElement(e1) + x1 == PrintElement(e2) + x2
    ensures e1 == e2 && x1 == x2
    decreases e1, 1
  {
    TagCut(e1, x1, e2, x2);
    if e1.body.Content? && e2.body.Content? {
      var i1, i2 := e1.body.items, e2.body.items;
      var z1, z2 := e1.tag + (e1.body.space + (">" + x1)), e2.tag + (e2.body.space + (">" + x2));
      ContentText(e1, x1);
      ContentText(e2, x2);
      Headless(">", PrintItems(i1) + ("</" + z1), PrintItems(i2) + ("</" + z2));
      ItemsCut(i1, z1, i2, z2);
      Headless(e1.tag, e1.body.space + (">" + x1), e2.body.space + (">" + x2));
      BlankCut(e1.body.space, ">" + x1, e2.body.space, ">" + x2);
      Headless(">", x1, x2);
    } else {
      EmptyOrNot(e1, x1, e2, x2);
    }
  }

  lemma ContentText(e: Element, x: string)
    requires e.body.Content?
    ensures BodyText(e) + x == ">" + (PrintItems(e.body.items) + ("</" + (e.tag + (e.body.space + (">" + x)))))
  {
  }

  lemma {:induction false} TagCut(e1: Element, x1: string, e2: Element, x2: string)
    requires IsElement(e1) && IsElement(e2) && PrintElement(e1) + x1 == PrintElement(e2) + x2
    ensures e1.tag == e2.tag && e1.attributes == e2.attributes && e1.gap == e2.gap &&
            BodyText(e1) + x1 == BodyText(e2) + x2
  {
    var r1, r2 := BodyText(e1) + x1, BodyText(e2) + x2;
    ElementParts(e1, x1);
    ElementParts(e2, x2);
    BodyEndsTag(e1, x1);
    BodyEndsTag(e2, x2);
    var t1, t2 := PrintAttributes(e1.attributes) + (e1.gap + r1), PrintAttributes(e2.attributes) + (e2.gap + r2);
    Headless("<", e1.tag + t1, e2.tag + t2);
    NameEnds(e1, r1);
    NameEnds(e2, r2);
    NameCut(e1.tag, t1, e2.tag, t2);
    AttributesCut(e1.attributes, e1.gap, r1, e2.attributes, e2.gap, r2);
  }

  lemma BodyEndsTag(e: Element, x: string)
    ensures EndsTag(BodyText(e) + x)
    ensures (BodyText(e) + x)[0] == if e.body.Empty? then '/' else '>'
  {
  }

  lemma EmptyOrNot(e1: Element, x1: string, e2: Element, x2: string)
    requires BodyText(e1) + x1 == BodyText(e2) + x2 && (e1.body.Empty? || e2.body.Empty?)
    ensures e1.body == e2.body && x1 == x2
  {
    BodyEndsTag(e1, x1);
    BodyEndsTag(e2, x2);
    Headless("/>", x1, x2);
  }

  // ----- items

  lemma {:induction false} ItemsCut(i1: Items, z1: string, i2: Items, z2: string)
    requires AreItems(i1) && AreItems(i2) && PrintItems(i1) + ("</" + z1) == PrintItems(i2) + ("</" + z2)
    ensures i1 == i2 && z1 == z2
    decreases i1, 1
  {
    if i1.Nil? && i2.Nil? {
      assert [] + ("</" + z1) == "</" + z1 && [] + ("</" + z2) == "</" + z2;
      Headless("</", z1, z2);
    } else if i1.Nil? {
      Ended(i2, z2, z1);
    } else if i2.Nil? {
      Ended(i1, z1, z2);
    } else {
      var t1, t2 := PrintItems(i1.tail) + ("</" + z1), PrintItems(i2.tail) + ("</" + z2);
      Collections.Assoc(PrintItem(i1.head), PrintItems(i1.tail), "</" + z1);
      Collections.Assoc(PrintItem(i2.head), PrintItems(i2.tail), "</" + z2);
      Behind(i1, z1);
      Behind(i2, z2);
      ItemCut(i1.head, t1, i2.head, t2);
      ItemsCut(i1.tail, z1, i2.tail, z2);
    }
  }

  /** After an item comes markup, unless the item is markup itself. */
  lemma {:induction false} Behind(items: Items, z: string)
    requires AreItems(items) && items.Cons?
    ensures var t := PrintItems(items.tail) + ("</" + z);
      t != [] && (items.head.Characters? ==> t[0] == '<')
  {
    var tail := items.tail;
    if tail.Nil? {
      assert [] + ("</" + z) == "</" + z;
    } else {
      Begins(tail.head, PrintItems(tail.tail) + ("</" + z));
      Collections.Assoc(PrintItem(tail.head), PrintItems(tail.tail), "</" + z);
    }
  }

  /** How an item begins, whatever follows it. */
  lemma {:induction false} Begins(item: Item, t: string)
    requires IsItem(item)
    ensures var s := PrintItem(item) + t;
      match item
      case Characters(_) => s != [] && s[0] != '<'
      case Comment(_) => "<!--" <= s
      case Section(_) => "<![" <= s
      case Instruction(_) => "<?" <= s
      case Nested(e) => |s| >= 2 && s[0] == '<' && NameCharacter(s[1])
    ensures item.Characters? || (|PrintItem(item) + t| >= 2 && (PrintItem(item) + t)[0] == '<' &&
            (PrintItem(item) + t)[1] != '/')
  {
    match item {
      case Nested(e) => ElementParts(e, t); assert (PrintElement(e) + t)[1] == e.tag[0];
      case _ =>
    }
  }

  lemma {:induction false} Ended(items: Items, z: string, y: string)
    requires AreItems(items) && items.Cons?
    ensures PrintItems(items) + ("</" + z) != "</" + y
  {
    Collections.Assoc(PrintItem(items.head), PrintItems(items.tail), "</" + z);
    Begins(items.head, PrintItems(items.tail) + ("</" + z));
    assert ("</" + y)[0] == '<' && ("</" + y)[1] == '/';
  }

  lemma {:induction false} ItemCut(a: Item, t1: string, b: Item, t2: string)
    requires IsItem(a) && IsItem(b) && PrintItem(a) + t1 == PrintItem(b) + t2
    requires t1 != [] && (a.Characters? ==> t1[0] == '<') && t2 != [] && (b.Characters? ==> t2[0] == '<')
    ensures a == b && t1 == t2
    decreases a, 1
  {
    Begins(a, t1);
    Begins(b, t2);
    SameSort(a, t1, b, t2);
    match a {
      case Characters(x) => RunCut(c => c != '<', x, t1, b.text, t2);
      case Comment(x) =>
        CommentText(x, t1);
        CommentText(b.text, t2);
        WrappedCut("<!--", x, "--", ">" + t1, b.text, ">" + t2);
        Headless(">", t1, t2);
      case Section(x) => WrappedCut("<![CDATA[", x, "]]>", t1, b.text, t2);
      case Instruction(x) => WrappedCut("<?", x, "?>", t1, b.text, t2);
      case Nested(e) => ElementCut(e, t1, b.element, t2);
    }
  }

  lemma CommentText(x: string, t: string)
    ensures "<!--" + x + "-->" + t == "<!--" + x + "--" + (">" + t)
  {
    assert "-->" + t == "--" + (">" + t);
    Collections.Assoc("<!--" + x, "-->", t);
    Collections.Assoc("<!--" + x, "--", ">" + t);
  }

  lemma WrappedCut(open: string, x: string, end: string, t1: string, y: string, t2: string)
    requires EndsFirst(x, end) && EndsFirst(y, end)
    requires open + x + end + t1 == open + y + end + t2
    ensures x == y && t1 == t2
  {
    assert open + x + end + t1 == open + (x + (end + t1)) && open + y + end + t2 == open + (y + (end + t2));
    Headless(open, x + (end + t1), y + (end + t2));
    EndCut(end, x, t1, y, t2);
  }

  lemma {:induction false} SameSort(a: Item, t1: string, b: Item, t2: string)
    requires IsItem(a) && IsItem(b) && PrintItem(a) + t1 == PrintItem(b) + t2
    ensures a.Characters? == b.Characters? && a.Comment? == b.Comment? && a.Section? == b.Section?
    ensures a.Instruction? == b.Instruction? && a.Nested? == b.Nested?
  {
    Begins(a, t1);
    Begins(b, t2);
    var s := PrintItem(a) + t1;
    assert a.Comment? || b.Comment? ==> s[2] == '-';
    assert a.Section? || b.Section? ==> s[2] == '[';
  }

  /** A text is the text of one cell at most. */
  lemma {:induction false} ReadingIsUnique(a: Element, b: Element)
    requires IsCell(a) && IsCell(b) && PrintElement(a) == PrintElement(b)
    ensures a == b
  {
    assert PrintElement(a) + "" == PrintElement(a) && PrintElement(b) + "" == PrintElement(b);
    ElementCut(a, "", b, "");
  }
}

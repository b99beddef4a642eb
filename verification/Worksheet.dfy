/**
 Writing account values into a worksheet part. The part is a byte string; the row and cell spans are those the XML walk
 delivers. A row is read as a list of cells, each with the text in front of it, and the patched part must be the part
 printed back from rows in which the two target cells were put.
 */
module Worksheet {
  import Collections
  import opened Splice

  // ----- column letters

  predicate IsLetter(c: char) {
    'A' <= c <= 'Z'
  }

  predicate IsColumn(s: string) {
    s != [] && forall i :: 0 <= i < |s| ==> IsLetter(s[i])
  }

  function Index(letters: string): (index: nat)
    requires forall i :: 0 <= i < |letters| ==> IsLetter(letters[i])
    ensures letters == [] <==> index == 0
  {
    if letters == [] then 0
    else
      assert IsLetter(letters[|letters| - 1]);
      Index(letters[..|letters| - 1]) * 26 + (letters[|letters| - 1] as int - 'A' as int + 1)
  }

  method ColumnIndex(letters: string) returns (index: nat)
    requires forall i :: 0 <= i < |letters| ==> IsLetter(letters[i])
    ensures index == Index(letters)
  {
    index := 0;
    for i := 0 to |letters|
      invariant index == Index(letters[..i])
    {
      index := index * 26 + (letters[i] as int - 'A' as int + 1);
      assert letters[..i + 1][..i] == letters[..i];
    }
    assert letters[..|letters|] == letters;
  }

  lemma LastLetter(a: nat, b: nat, x: nat, y: nat)
    requires 1 <= x <= 26 && 1 <= y <= 26 && a * 26 + x == b * 26 + y
    ensures a == b && x == y
  {
  }

  /** Different letters, different index: comparing indices is comparing columns. */
  lemma {:induction false} IndexInjective(a: string, b: string)
    requires forall i :: 0 <= i < |a| ==> IsLetter(a[i])
    requires forall i :: 0 <= i < |b| ==> IsLetter(b[i])
    requires Index(a) == Index(b)
    ensures a == b
    decreases |a|
  {
    if a != [] {
      assert b != [];
      var p, q := a[..|a| - 1], b[..|b| - 1];
      var x, y := a[|a| - 1], b[|b| - 1];
      LastLetter(Index(p), Index(q), x as int - 'A' as int + 1, y as int - 'A' as int + 1);
      IndexInjective(p, q);
      assert a == p + [x] && b == q + [y];
    }
  }

  /** Of two columns of one length, the one with the smaller letter at the first difference. */
  predicate Alphabetical(a: string, b: string)
    requires |a| == |b|
  {
    a != [] && (a[0] < b[0] || (a[0] == b[0] && Alphabetical(a[1..], b[1..])))
  }

  lemma {:induction false} AlphabeticalLast(a: string, b: string, x: char, y: char)
    requires |a| == |b|
    ensures Alphabetical(a + [x], b + [y]) <==> Alphabetical(a, b) || (a == b && x < y)
  {
    if a == [] {
      assert a + [x] == [x] && b + [y] == [y];
    } else {
      assert (a + [x])[1..] == a[1..] + [x] && (b + [y])[1..] == b[1..] + [y];
      AlphabeticalLast(a[1..], b[1..], x, y);
      assert a == [a[0]] + a[1..] && b == [b[0]] + b[1..];
    }
  }

  /** Columns are ordered A, B, …, Z, AA, AB, …: by length, then alphabetically. */
  lemma {:induction false} IndexOrder(a: string, b: string)
    requires forall i :: 0 <= i < |a| ==> IsLetter(a[i])
    requires forall i :: 0 <= i < |b| ==> IsLetter(b[i])
    ensures Index(a) < Index(b) <==> |a| < |b| || (|a| == |b| && Alphabetical(a, b))
    decreases |a| + |b|
  {
    if a != [] && b != [] {
      var p, q := a[..|a| - 1], b[..|b| - 1];
      IndexOrder(p, q);
      if Index(p) == Index(q) {
        IndexInjective(p, q);
      }
      assert a == p + [a[|a| - 1]] && b == q + [b[|b| - 1]];
      if |a| == |b| {
        AlphabeticalLast(p, q, a[|a| - 1], b[|b| - 1]);
      }
    }
  }

  /** The letters are digits 1 to 26: a column's index is one more than that of the column before it. */
  lemma {:induction false} IndexOfLetters(letter: char, letters: string)
    requires IsLetter(letter) && forall i :: 0 <= i < |letters| ==> IsLetter(letters[i])
    ensures Index([letter]) == letter as int - 64
    ensures Index(letters + [letter]) == 26 * Index(letters) + Index([letter])
  {
    var s := letters + [letter];
    assert s[..|s| - 1] == letters && [letter][..0] == [];
    assert s[|s| - 1] == letter;
  }

  // ----- what the XML walk delivers

  datatype Cell = Cell(column: string, kind: string, formula: bool, start: nat, end: nat)
  datatype SheetRow = SheetRow(number: nat, cells: seq<Cell>, end: nat)

  /** Cell spans in document order, each ending with a tag. */
  ghost predicate CellsAt(data: string, from: nat, cells: seq<Cell>, end: nat)
    decreases |cells|
  {
    if cells == [] then from <= end <= |data|
    else
      && from <= cells[0].start < cells[0].end <= end <= |data|
      && data[cells[0].end - 1] == '>' && IsColumn(cells[0].column)
      && CellsAt(data, cells[0].end, cells[1..], end)
  }

  ghost predicate RowsAt(data: string, from: nat, rows: seq<SheetRow>)
    decreases |rows|
  {
    if rows == [] then from <= |data|
    else CellsAt(data, from, rows[0].cells, rows[0].end) && RowsAt(data, rows[0].end, rows[1..])
  }

  // ----- rows as lists of cells

  /** A cell and the text between it and what comes before. */
  datatype Node = Node(gap: string, column: string, kind: string, formula: bool, body: string)
  datatype Line = Line(nodes: seq<Node>, tail: string)

  function Text(line: Line): string
    decreases |line.nodes|
  {
    if line.nodes == [] then line.tail
    else line.nodes[0].gap + line.nodes[0].body + Text(line.(nodes := line.nodes[1..]))
  }

  function NodeAt(data: string, from: nat, cell: Cell): Node
    requires from <= cell.start <= cell.end <= |data|
  {
    Node(data[from..cell.start], cell.column, cell.kind, cell.formula, data[cell.start..cell.end])
  }

  function Cons(node: Node, line: Line): Line {
    line.(nodes := [node] + line.nodes)
  }

  ghost function LineAt(data: string, from: nat, cells: seq<Cell>, end: nat): Line
    requires CellsAt(data, from, cells, end)
    decreases |cells|
  {
    if cells == [] then Line([], data[from..end])
    else Cons(NodeAt(data, from, cells[0]), LineAt(data, cells[0].end, cells[1..], end))
  }

  lemma {:induction false} TextCons(node: Node, line: Line)
    ensures Text(Cons(node, line)) == node.gap + node.body + Text(line)
  {
    assert Cons(node, line).nodes[1..] == line.nodes;
  }

  lemma Adjacent(data: string, a: nat, b: nat, c: nat)
    requires a <= b <= c <= |data|
    ensures data[a..b] + data[b..c] == data[a..c]
  {
  }

  /** Reading a row and printing it gives the bytes back. */
  lemma {:induction false} LineIsTheText(data: string, from: nat, cells: seq<Cell>, end: nat)
    requires CellsAt(data, from, cells, end)
    ensures from <= end <= |data| && Text(LineAt(data, from, cells, end)) == data[from..end]
    decreases |cells|
  {
    if cells != [] {
      var c := cells[0];
      LineIsTheText(data, c.end, cells[1..], end);
      TextCons(NodeAt(data, from, c), LineAt(data, c.end, cells[1..], end));
      Adjacent(data, from, c.start, c.end);
      Adjacent(data, from, c.end, end);
    }
  }

  // ----- putting a cell into a row

  /** Text for a column: `replace` says that the row already has the cell. */
  datatype Target = Target(column: string, replace: bool, text: string)

  ghost predicate Acts(t: Target, column: string)
    requires IsColumn(t.column) && IsColumn(column)
  {
    if t.replace then column == t.column else Index(column) > Index(t.column)
  }

  ghost predicate Lettered(line: Line) {
    forall i :: 0 <= i < |line.nodes| ==> IsColumn(line.nodes[i].column)
  }

  function NewNode(gap: string, t: Target): Node {
    Node(gap, t.column, "", false, t.text)
  }

  ghost function Act(t: Target, node: Node, rest: Line): Line {
    if t.replace then Cons(node.(body := t.text), rest)
    else Cons(NewNode(node.gap, t), Cons(node.(gap := ""), rest))
  }

  /** The target at its place: in its own cell, else before the first greater column, else at the end of the row. */
  ghost function PutTarget(line: Line, t: Target): Line
    requires Lettered(line) && IsColumn(t.column)
    decreases |line.nodes|
  {
    if line.nodes == [] then Line([NewNode(line.tail, t)], "")
    else
      var rest := line.(nodes := line.nodes[1..]);
      if Acts(t, line.nodes[0].column) then Act(t, line.nodes[0], rest) else Cons(line.nodes[0], PutTarget(rest, t))
  }

  ghost function EditOf(cells: seq<Cell>, end: nat, t: Target): Edit<char>
    requires IsColumn(t.column) && forall i :: 0 <= i < |cells| ==>
             IsColumn(cells[i].column) && cells[i].start <= cells[i].end
  {
    if cells == [] then Edit(end, end, t.text)
    else if Acts(t, cells[0].column) then
        Edit(cells[0].start, if t.replace then cells[0].end else cells[0].start, t.text)
    else EditOf(cells[1..], end, t)
  }

  lemma {:induction false} CellsLettered(data: string, from: nat, cells: seq<Cell>, end: nat)
    requires CellsAt(data, from, cells, end)
    ensures forall i :: 0 <= i < |cells| ==> IsColumn(cells[i].column) && from <= cells[i].start < cells[i].end <= end
    ensures from <= end <= |data|
    decreases |cells|
  {
    if cells != [] {
      CellsLettered(data, cells[0].end, cells[1..], end);
      assert cells == [cells[0]] + cells[1..];
    }
  }

  lemma {:induction false} LineLettered(data: string, from: nat, cells: seq<Cell>, end: nat)
    requires CellsAt(data, from, cells, end)
    ensures Lettered(LineAt(data, from, cells, end)) && |LineAt(data, from, cells, end).nodes| == |cells|
    decreases |cells|
  {
    if cells != [] {
      LineLettered(data, cells[0].end, cells[1..], end);
    }
  }

  lemma {:induction false} PutCons(node: Node, line: Line, t: Target)
    requires IsColumn(node.column) && Lettered(line) && IsColumn(t.column)
    ensures Lettered(Cons(node, line))
    ensures PutTarget(Cons(node, line), t) == if Acts(t, node.column) then
            Act(t, node, line) else Cons(node, PutTarget(line, t))
  {
    assert Cons(node, line).nodes[1..] == line.nodes;
  }

  lemma {:induction false} TextReplaced(t: Target, node: Node, rest: Line)
    requires t.replace
    ensures Text(Act(t, node, rest)) == node.gap + (t.text + Text(rest))
  {
    TextCons(node.(body := t.text), rest);
    Collections.Assoc(node.gap, t.text, Text(rest));
  }

  lemma {:induction false} TextInserted(t: Target, node: Node, rest: Line)
    requires !t.replace
    ensures Text(Act(t, node, rest)) == node.gap + (t.text + (node.body + Text(rest)))
  {
    TextCons(node.(gap := ""), rest);
    assert "" + node.body == node.body;
    TextCons(NewNode(node.gap, t), Cons(node.(gap := ""), rest));
    Collections.Assoc(node.gap, t.text, node.body + Text(rest));
  }

  /** What a row reads after one target was put into it. */
  ghost function With(data: string, from: nat, e: Edit<char>, end: nat): string
    requires from <= e.start <= e.end <= end <= |data|
  {
    data[from..e.start] + (e.text + data[e.end..end])
  }

  lemma WithLater(data: string, from: nat, c: Cell, e: Edit<char>, end: nat)
    requires from <= c.start <= c.end <= e.start <= e.end <= end <= |data|
    ensures With(data, from, e, end) == data[from..c.start] + data[c.start..c.end] + With(data, c.end, e, end)
  {
    assert data[from..e.start] == data[from..c.start] + data[c.start..c.end] + data[c.end..e.start];
    Collections.Assoc(data[from..c.start] + data[c.start..c.end], data[c.end..e.start], e.text + data[e.end..end]);
  }

  lemma {:induction false} PutOne(data: string, from: nat, cells: seq<Cell>, end: nat, t: Target)
    requires CellsAt(data, from, cells, end) && IsColumn(t.column)
    ensures Lettered(LineAt(data, from, cells, end))
    ensures forall i :: 0 <= i < |cells| ==> IsColumn(cells[i].column) && cells[i].start <= cells[i].end
    ensures from <= EditOf(cells, end, t).start <= EditOf(cells, end, t).end <= end <= |data|
    ensures EditOf(cells, end, t).text == t.text
    ensures Text(PutTarget(LineAt(data, from, cells, end), t)) == With(data, from, EditOf(cells, end, t), end)
    decreases |cells|
  {
    LineLettered(data, from, cells, end);
    CellsLettered(data, from, cells, end);
    if cells == [] {
      PutAtEnd(data[from..end], t);
      assert data[end..end] == [];
    } else {
      var c, node := cells[0], NodeAt(data, from, cells[0]);
      var rest := LineAt(data, c.end, cells[1..], end);
      LineLettered(data, c.end, cells[1..], end);
      PutCons(node, rest, t);
      if Acts(t, c.column) {
        ActHere(data, from, cells, end, t);
      } else {
        PutOne(data, c.end, cells[1..], end, t);
        TextCons(node, PutTarget(rest, t));
        WithLater(data, from, c, EditOf(cells, end, t), end);
      }
    }
  }

  lemma {:induction false} ActHere(data: string, from: nat, cells: seq<Cell>, end: nat, t: Target)
    requires CellsAt(data, from, cells, end) && IsColumn(t.column) && cells != [] && Acts(t, cells[0].column)
    requires forall i :: 0 <= i < |cells| ==> IsColumn(cells[i].column) && cells[i].start <= cells[i].end
    ensures from <= EditOf(cells, end, t).start <= EditOf(cells, end, t).end <= end <= |data|
    ensures Text(Act(t, NodeAt(data, from, cells[0]), LineAt(data, cells[0].end, cells[1..], end))) ==
            With(data, from, EditOf(cells, end, t), end)
  {
    var c, node := cells[0], NodeAt(data, from, cells[0]);
    var rest := LineAt(data, c.end, cells[1..], end);
    LineIsTheText(data, c.end, cells[1..], end);
    if t.replace {
      TextReplaced(t, node, rest);
    } else {
      TextInserted(t, node, rest);
      Adjacent(data, c.start, c.end, end);
    }
  }

  lemma {:induction false} PutAtEnd(tail: string, t: Target)
    requires IsColumn(t.column)
    ensures Text(PutTarget(Line([], tail), t)) == tail + (t.text + "")
  {
    TextCons(NewNode(tail, t), Line([], ""));
    assert PutTarget(Line([], tail), t) == Cons(NewNode(tail, t), Line([], ""));
  }

  // ----- two targets in one row

  ghost predicate Apart(e1: Edit<char>, e2: Edit<char>) {
    if e2.start < e1.start then e2.end <= e1.start else e1.end <= e2.start
  }

  /** The two edits by start offset, as a stable sort leaves them. */
  function InPair(e1: Edit<char>, e2: Edit<char>): seq<Edit<char>> {
    if e2.start < e1.start then [e2, e1] else [e1, e2]
  }

  ghost function With2(data: string, from: nat, edits: seq<Edit<char>>, end: nat): string
    requires |edits| == 2
    requires from <= edits[0].start <= edits[0].end <= edits[1].start <= edits[1].end <= end <= |data|
  {
    data[from..edits[0].start] + (edits[0].text + With(data, edits[0].end, edits[1], end))
  }

  /** Both edits lie in the row and apart, and the row with both targets put reads as those edits say. */
  ghost predicate PutsBoth(data: string, from: nat, cells: seq<Cell>, end: nat, t1: Target, t2: Target)
    requires CellsAt(data, from, cells, end) && IsColumn(t1.column) && IsColumn(t2.column)
    requires forall i :: 0 <= i < |cells| ==> IsColumn(cells[i].column) && cells[i].start <= cells[i].end
  {
    var e1, e2 := EditOf(cells, end, t1), EditOf(cells, end, t2);
    var line := LineAt(data, from, cells, end);
    && from <= e1.start <= e1.end <= end <= |data| && from <= e2.start <= e2.end <= end && Apart(e1, e2)
    && Lettered(line) && Lettered(PutTarget(line, t1))
    && Text(PutTarget(PutTarget(line, t1), t2)) == With2(data, from, InPair(e1, e2), end)
  }

  lemma {:induction false} PutLettered(line: Line, t: Target)
    requires Lettered(line) && IsColumn(t.column)
    ensures Lettered(PutTarget(line, t))
    decreases |line.nodes|
  {
    if line.nodes != [] {
      PutLettered(line.(nodes := line.nodes[1..]), t);
    }
  }

  lemma PutTwoAtEnd(data: string, from: nat, end: nat, t1: Target, t2: Target)
    requires from <= end <= |data| && IsColumn(t1.column) && IsColumn(t2.column) && Index(t1.column) < Index(t2.column)
    ensures PutsBoth(data, from, [], end, t1, t2)
  {
    var tail := data[from..end];
    var first := NewNode(tail, t1);
    assert PutTarget(Line([], tail), t1) == Cons(first, Line([], ""));
    PutCons(first, Line([], ""), t2);
    PutAtEnd("", t2);
    TextCons(first, PutTarget(Line([], ""), t2));
    Collections.Assoc(tail, t1.text, t2.text);
    assert data[end..end] == "";
  }

  /** The first target replaces the head cell: the second one goes further right. */
  lemma {:induction false} PutTwoReplacing(data: string, from: nat, cells: seq<Cell>, end: nat, t1: Target, t2: Target)
    requires CellsAt(data, from, cells, end) && IsColumn(t1.column) && IsColumn(t2.column) &&
             Index(t1.column) < Index(t2.column)
    requires cells != [] && t1.replace && cells[0].column == t1.column
    ensures forall i :: 0 <= i < |cells| ==> IsColumn(cells[i].column) && cells[i].start <= cells[i].end
    ensures PutsBoth(data, from, cells, end, t1, t2)
  {
    CellsLettered(data, from, cells, end);
    var c, node := cells[0], NodeAt(data, from, cells[0]);
    var rest := LineAt(data, c.end, cells[1..], end);
    var first := node.(body := t1.text);
    PutOne(data, c.end, cells[1..], end, t2);
    PutCons(node, rest, t1);
    PutCons(first, rest, t2);
    TextCons(first, PutTarget(rest, t2));
    Collections.Assoc(node.gap, t1.text, Text(PutTarget(rest, t2)));
  }

  /** The first target goes in front of the head cell: the second one sees the same cells, starting at that cell. */
  lemma {:induction false} PutTwoInserting(data: string, from: nat, cells: seq<Cell>, end: nat, t1: Target, t2: Target)
    requires CellsAt(data, from, cells, end) && IsColumn(t1.column) && IsColumn(t2.column) &&
             Index(t1.column) < Index(t2.column)
    requires cells != [] && !t1.replace && Index(cells[0].column) > Index(t1.column)
    ensures forall i :: 0 <= i < |cells| ==> IsColumn(cells[i].column) && cells[i].start <= cells[i].end
    ensures PutsBoth(data, from, cells, end, t1, t2)
  {
    CellsLettered(data, from, cells, end);
    var c, node := cells[0], NodeAt(data, from, cells[0]);
    var rest := LineAt(data, c.end, cells[1..], end);
    var first, again := NewNode(node.gap, t1), LineAt(data, c.start, cells, end);
    assert again == Cons(node.(gap := ""), rest) by { assert data[c.start..c.start] == ""; }
    PutOne(data, c.start, cells, end, t2);
    LineLettered(data, c.end, cells[1..], end);
    PutCons(node, rest, t1);
    PutCons(first, again, t2);
    TextCons(first, PutTarget(again, t2));
    Collections.Assoc(node.gap, t1.text, Text(PutTarget(again, t2)));
  }

  /** The second target takes the head cell, or the place before it: the first one goes further right. */
  lemma {:induction false} PutTwoCrossed(data: string, from: nat, cells: seq<Cell>, end: nat, t1: Target, t2: Target)
    requires CellsAt(data, from, cells, end) && IsColumn(t1.column) && IsColumn(t2.column)
    requires cells != [] && IsColumn(cells[0].column) && !Acts(t1, cells[0].column) && Acts(t2, cells[0].column)
    ensures forall i :: 0 <= i < |cells| ==> IsColumn(cells[i].column) && cells[i].start <= cells[i].end
    ensures PutsBoth(data, from, cells, end, t1, t2)
  {
    CellsLettered(data, from, cells, end);
    var c, node := cells[0], NodeAt(data, from, cells[0]);
    var rest := LineAt(data, c.end, cells[1..], end);
    PutOne(data, c.end, cells[1..], end, t1);
    PutCons(node, rest, t1);
    PutLettered(rest, t1);
    PutCons(node, PutTarget(rest, t1), t2);
    CrossedText(data, from, c, EditOf(cells, end, t1), end, t2, node, PutTarget(rest, t1));
  }

  lemma {:induction false} CrossedText(data: string, from: nat, c: Cell, e1: Edit<char>, end: nat, t2: Target,
                                       node: Node, put: Line)
    requires from <= c.start < c.end <= e1.start <= e1.end <= end <= |data| && node == NodeAt(data, from, c)
    requires Text(put) == With(data, c.end, e1, end)
    ensures var e2 := Edit(c.start, if t2.replace then c.end else c.start, t2.text);
      Text(Act(t2, node, put)) == With2(data, from, [e2, e1], end)
  {
    if t2.replace {
      TextReplaced(t2, node, put);
    } else {
      TextInserted(t2, node, put);
      WithLater(data, c.start, c, e1, end);
    }
  }

  lemma With2Later(data: string, from: nat, c: Cell, edits: seq<Edit<char>>, end: nat)
    requires |edits| == 2 && from <= c.start <= c.end <= edits[0].start
    requires edits[0].start <= edits[0].end <= edits[1].start <= edits[1].end <= end <= |data|
    ensures With2(data, from, edits, end) == data[from..c.start] + data[c.start..c.end] + With2(data, c.end, edits, end)
  {
    var a := edits[0];
    assert data[from..a.start] == data[from..c.start] + data[c.start..c.end] + data[c.end..a.start];
    Collections.Assoc(data[from..c.start] + data[c.start..c.end], data[c.end..a.start],
                      a.text + With(data, a.end, edits[1], end));
  }

  lemma {:induction false} PutTwo(data: string, from: nat, cells: seq<Cell>, end: nat, t1: Target, t2: Target)
    requires CellsAt(data, from, cells, end) && IsColumn(t1.column) && IsColumn(t2.column) &&
             Index(t1.column) < Index(t2.column)
    ensures forall i :: 0 <= i < |cells| ==> IsColumn(cells[i].column) && cells[i].start <= cells[i].end
    ensures PutsBoth(data, from, cells, end, t1, t2)
    decreases |cells|
  {
    CellsLettered(data, from, cells, end);
    if cells == [] {
      PutTwoAtEnd(data, from, end, t1, t2);
    } else if Acts(t1, cells[0].column) && t1.replace {
      PutTwoReplacing(data, from, cells, end, t1, t2);
    } else if Acts(t1, cells[0].column) {
      PutTwoInserting(data, from, cells, end, t1, t2);
    } else if Acts(t2, cells[0].column) {
      PutTwoCrossed(data, from, cells, end, t1, t2);
    } else {
      PutTwo(data, cells[0].end, cells[1..], end, t1, t2);
      PutTwoFurther(data, from, cells, end, t1, t2);
    }
  }

  lemma {:induction false} PutTwoFurther(data: string, from: nat, cells: seq<Cell>, end: nat, t1: Target, t2: Target)
    requires CellsAt(data, from, cells, end) && IsColumn(t1.column) && IsColumn(t2.column)
    requires cells != [] && forall i :: 0 <= i < |cells| ==> IsColumn(cells[i].column) && cells[i].start <= cells[i].end
    requires !Acts(t1, cells[0].column) && !Acts(t2, cells[0].column)
    requires PutsBoth(data, cells[0].end, cells[1..], end, t1, t2)
    ensures PutsBoth(data, from, cells, end, t1, t2)
  {
    var c, node := cells[0], NodeAt(data, from, cells[0]);
    var rest := LineAt(data, c.end, cells[1..], end);
    PutCons(node, rest, t1);
    PutCons(node, PutTarget(rest, t1), t2);
    TextCons(node, PutTarget(PutTarget(rest, t1), t2));
    With2Later(data, from, c, InPair(EditOf(cells, end, t1), EditOf(cells, end, t2)), end);
  }

  predicate Has(nodes: seq<Node>, column: string) {
    nodes != [] && (nodes[0].column == column || Has(nodes[1..], column))
  }

  /** Which target is put first makes no difference. */
  lemma {:induction false} PutCommutes(line: Line, t1: Target, t2: Target)
    requires Lettered(line) && IsColumn(t1.column) && IsColumn(t2.column) && Index(t1.column) < Index(t2.column)
    requires t1.replace ==> Has(line.nodes, t1.column)
    ensures Commutes(line, t1, t2)
    decreases |line.nodes|
  {
    if line.nodes == [] {
      CommutesAtEnd(line.tail, t1, t2);
    } else {
      var node, rest := line.nodes[0], line.(nodes := line.nodes[1..]);
      assert line == Cons(node, rest);
      if Acts(t1, node.column) {
        CommutesFirst(node, rest, t1, t2);
      } else {
        PutCommutes(rest, t1, t2);
        CommutesAt(node, rest, t1, t2);
      }
    }
  }

  lemma CommutesAtEnd(tail: string, t1: Target, t2: Target)
    requires IsColumn(t1.column) && IsColumn(t2.column) && Index(t1.column) < Index(t2.column) && !t1.replace
    ensures Commutes(Line([], tail), t1, t2)
  {
    var none := Line([], "");
    var l1, l2 := NewNode(tail, t1), NewNode(tail, t2);
    PutCons(l1, none, t2);
    PutCons(l2, none, t1);
    assert PutTarget(Line([], tail), t1) == Cons(l1, none) && PutTarget(Line([], tail), t2) == Cons(l2, none);
    assert PutTarget(none, t2) == Cons(NewNode("", t2), none);
  }

  ghost predicate Commutes(line: Line, t1: Target, t2: Target)
    requires IsColumn(t1.column) && IsColumn(t2.column)
  {
    && Lettered(line) && Lettered(PutTarget(line, t1)) && Lettered(PutTarget(line, t2))
    && PutTarget(PutTarget(line, t1), t2) == PutTarget(PutTarget(line, t2), t1)
  }

  lemma CommutesAt(node: Node, rest: Line, t1: Target, t2: Target)
    requires IsColumn(node.column) && IsColumn(t1.column) && IsColumn(t2.column) && Index(t1.column) < Index(t2.column)
    requires Commutes(rest, t1, t2) && !Acts(t1, node.column)
    ensures Commutes(Cons(node, rest), t1, t2)
  {
    if Acts(t2, node.column) {
      CommutesCrossed(node, rest, t1, t2);
    } else {
      PutCons(node, rest, t1);
      PutCons(node, rest, t2);
      PutCons(node, PutTarget(rest, t1), t2);
      PutCons(node, PutTarget(rest, t2), t1);
    }
  }

  lemma CommutesFirst(node: Node, rest: Line, t1: Target, t2: Target)
    requires IsColumn(node.column) && IsColumn(t1.column) && IsColumn(t2.column) && Index(t1.column) < Index(t2.column)
    requires Lettered(rest) && Acts(t1, node.column)
    ensures Commutes(Cons(node, rest), t1, t2)
  {
    var bare := node.(gap := "");
    PutLettered(rest, t2);
    PutCons(node, rest, t1);
    PutCons(node, rest, t2);
    PutCons(node, PutTarget(rest, t2), t1);
    PutCons(bare, rest, t2);
    if t1.replace {
      PutCons(node.(body := t1.text), rest, t2);
    } else {
      PutCons(NewNode(node.gap, t1), Cons(bare, rest), t2);
      if Acts(t2, node.column) {
        PutCons(node.(body := t2.text), rest, t1);
        PutCons(bare, rest, t1);
        PutCons(NewNode(node.gap, t2), Cons(bare, rest), t1);
      }
    }
  }

  lemma CommutesCrossed(node: Node, rest: Line, t1: Target, t2: Target)
    requires IsColumn(node.column) && IsColumn(t1.column) && IsColumn(t2.column) && Index(t1.column) < Index(t2.column)
    requires Commutes(rest, t1, t2) && !Acts(t1, node.column) && Acts(t2, node.column)
    ensures Commutes(Cons(node, rest), t1, t2)
  {
    var bare := node.(gap := "");
    PutCons(node, rest, t1);
    PutCons(node, rest, t2);
    PutCons(node, PutTarget(rest, t1), t2);
    PutCons(bare, rest, t1);
    PutCons(node.(body := t2.text), rest, t1);
    PutCons(NewNode(node.gap, t2), Cons(bare, rest), t1);
  }
}

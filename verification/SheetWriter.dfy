/**
 Patching the account rows of a worksheet: each account row gets its balance and its rate, in the cell of the target
 column or in a new cell; all patches are collected, sorted by offset, and spliced into the part in one pass.
 */
module SheetWriter {
  import opened Wrappers
  import opened Splice
  import opened Sorting
  import opened Worksheet
  import CellText
  import CellReading
  import CellFilling
  import Collections
  import DecimalText
  import SlikStore

  datatype AccountRow = AccountRow(number: nat, account: string)
  datatype Workbook = Workbook(balanceColumn: string, rateColumn: string, rows: seq<AccountRow>)
  type Values = SlikStore.Values

  datatype SheetError = MissingResult(row: nat) | FormulaCell(row: nat) | UnsupportedCell(row: nat) | Overlapping

  // ----- one cell

  /** The text of a patched cell; a formula, or a cell of another type, is refused. */
  function PatchCell(node: Node, row: nat, amount: string): Outcome<string, SheetError>
    requires '>' in node.body
  {
    if node.formula then Err(FormulaCell(row))
    else if node.kind == "" || node.kind == "n" ||
        CellText.IsText(node.kind) then Ok(CellText.PatchedText(node.kind, node.body, amount))
    else Err(UnsupportedCell(row))
  }

  function NewCell(column: string, row: nat, amount: string): string {
    "<c r=\"" + column + DecimalText.Digits(row) + "\"><v>" + amount + "</v></c>"
  }

  // ----- one target column of a row

  ghost predicate Closed(nodes: seq<Node>) {
    forall i :: 0 <= i < |nodes| ==> '>' in nodes[i].body
  }

  /** The text the target column shall read: the patched first cell of that column, or a new cell. */
  ghost function TextFor(nodes: seq<Node>, row: nat, column: string, amount: string): Outcome<string, SheetError>
    requires Closed(nodes)
  {
    if nodes == [] then Ok(NewCell(column, row, amount))
    else if nodes[0].column == column then PatchCell(nodes[0], row, amount)
    else TextFor(nodes[1..], row, column, amount)
  }

  ghost function EditFor(data: string, from: nat, row: SheetRow, column: string, amount: string)
      : Outcome<Edit<char>, SheetError>
    requires CellsAt(data, from, row.cells, row.end) && IsColumn(column)
  {
    var nodes := LineAt(data, from, row.cells, row.end).nodes;
    CellsLettered(data, from, row.cells, row.end);
    LineClosed(data, from, row.cells, row.end);
    match TextFor(nodes, row.number, column, amount)
    case Err(e) => Err(e)
    case Ok(text) => Ok(EditOf(row.cells, row.end, Target(column, Has(nodes, column), text)))
  }

  lemma {:induction false} LineClosed(data: string, from: nat, cells: seq<Cell>, end: nat)
    requires CellsAt(data, from, cells, end)
    ensures Closed(LineAt(data, from, cells, end).nodes)
    decreases |cells|
  {
    if cells != [] {
      var c := cells[0];
      LineClosed(data, c.end, cells[1..], end);
      assert data[c.start..c.end][c.end - c.start - 1] == '>';
    }
  }

  /** The nodes of a row are its cells. */
  lemma {:induction false} NodeIsCell(data: string, from: nat, cells: seq<Cell>, end: nat, i: nat)
    requires CellsAt(data, from, cells, end) && i < |cells|
    ensures cells[i].start <= cells[i].end <= |data| && IsColumn(cells[i].column)
    ensures var nodes := LineAt(data, from, cells, end).nodes;
      i < |nodes| &&
      exists gap ::
        nodes[i] == Node(gap, cells[i].column, cells[i].kind, cells[i].formula, data[cells[i].start..cells[i].end])
    decreases |cells|
  {
    var c := cells[0];
    if i == 0 {
      assert LineAt(data, from, cells, end).nodes[0] == NodeAt(data, from, c);
    } else {
      NodeIsCell(data, c.end, cells[1..], end, i - 1);
      assert LineAt(data, from, cells, end).nodes ==
             [NodeAt(data, from, c)] + LineAt(data, c.end, cells[1..], end).nodes;
    }
  }

  lemma PatchIgnoresGap(node: Node, gap: string, row: nat, amount: string)
    requires '>' in node.body
    ensures PatchCell(node, row, amount) == PatchCell(node.(gap := gap), row, amount)
  {
  }

  /** The scan for the target's own cell. */
  method FindCell(ghost nodes: seq<Node>, cells: seq<Cell>, column: string) returns (index: nat)
    requires |nodes| == |cells| && forall i :: 0 <= i < |cells| ==> nodes[i].column == cells[i].column
    ensures index <= |cells| && (index < |cells| <==> Has(nodes, column))
    ensures index < |cells| ==> cells[index].column == column
    ensures forall i :: 0 <= i < index ==> cells[i].column != column
  {
    index := 0;
    assert nodes[0..] == nodes;
    while index < |cells|
      invariant index <= |cells|
      invariant Has(nodes, column) <==> Has(nodes[index..], column)
      invariant forall i :: 0 <= i < index ==> cells[i].column != column
    {
      if cells[index].column == column {
        return;
      }
      assert nodes[index..][1..] == nodes[index + 1..];
      index := index + 1;
    }
  }

  lemma {:induction false} TextForAt(nodes: seq<Node>, row: nat, column: string, amount: string, index: nat)
    requires Closed(nodes) && index <= |nodes| && forall i :: 0 <= i < index ==> nodes[i].column != column
    ensures TextFor(nodes, row, column, amount) == TextFor(nodes[index..], row, column, amount)
  {
    if index == 0 {
      assert nodes[0..] == nodes;
    } else {
      TextForAt(nodes[1..], row, column, amount, index - 1);
      assert nodes[1..][index - 1..] == nodes[index..];
    }
  }

  lemma {:induction false} EditOfAt(cells: seq<Cell>, end: nat, t: Target, index: nat)
    requires IsColumn(t.column) && forall i :: 0 <= i < |cells| ==>
             IsColumn(cells[i].column) && cells[i].start <= cells[i].end
    requires index <= |cells| && forall i :: 0 <= i < index ==> !Acts(t, cells[i].column)
    ensures EditOf(cells, end, t) == EditOf(cells[index..], end, t)
  {
    if index == 0 {
      assert cells[0..] == cells;
    } else {
      EditOfAt(cells[1..], end, t, index - 1);
      assert cells[1..][index - 1..] == cells[index..];
    }
  }

  /** Where a new cell goes: before the first cell with a greater column, else at the end of the row. */
  method InsertionPoint(row: SheetRow, column: string, text: string) returns (position: nat)
    requires IsColumn(column)
    requires forall i :: 0 <= i < |row.cells| ==>
             IsColumn(row.cells[i].column) && row.cells[i].start <= row.cells[i].end
    ensures EditOf(row.cells, row.end, Target(column, false, text)) == Edit(position, position, text)
    ensures (position == row.end && forall i :: 0 <= i < |row.cells| ==> Index(row.cells[i].column) <= Index(column)) ||
            exists k :: 0 <= k < |row.cells| && position == row.cells[k].start &&
                        Index(row.cells[k].column) > Index(column) &&
                        forall i :: 0 <= i < k ==> Index(row.cells[i].column) <= Index(column)
  {
    var cells, t := row.cells, Target(column, false, text);
    for i := 0 to |cells|
      invariant forall j :: 0 <= j < i ==> !Acts(t, cells[j].column)
    {
      var existing := ColumnIndex(cells[i].column);
      var wanted := ColumnIndex(column);
      if existing > wanted {
        EditOfAt(cells, row.end, t, i);
        return cells[i].start;
      }
    }
    EditOfAt(cells, row.end, t, |cells|);
    return row.end;
  }

  lemma {:induction false} ColumnsOfLine(data: string, from: nat, cells: seq<Cell>, end: nat, column: string)
    requires CellsAt(data, from, cells, end)
    ensures Has(LineAt(data, from, cells, end).nodes, column) <==>
            exists i :: 0 <= i < |cells| && cells[i].column == column
    decreases |cells|
  {
    if cells != [] {
      ColumnsOfLine(data, cells[0].end, cells[1..], end, column);
      var nodes := LineAt(data, from, cells, end).nodes;
      assert nodes[1..] == LineAt(data, cells[0].end, cells[1..], end).nodes;
      if i :| 0 <= i < |cells| && cells[i].column == column {
        assert i == 0 || cells[1..][i - 1].column == column;
      }
      if j :| 0 <= j < |cells[1..]| && cells[1..][j].column == column {
        assert cells[j + 1].column == column;
      }
    }
  }

  /** The edit of a target whose column the row has spans the first cell of that column. */
  lemma {:induction false} EditReplacesCell(data: string, from: nat, row: SheetRow, column: string, amount: string,
                                            k: nat)
    requires CellsAt(data, from, row.cells, row.end) && IsColumn(column) && EditFor(data, from, row, column, amount).Ok?
    requires k < |row.cells| && row.cells[k].column == column
    requires forall i :: 0 <= i < k ==> row.cells[i].column != column
    ensures var edit := EditFor(data, from, row, column, amount).value;
            edit.start == row.cells[k].start && edit.end == row.cells[k].end
  {
    ColumnsOfLine(data, from, row.cells, row.end, column);
    CellsLettered(data, from, row.cells, row.end);
    LineClosed(data, from, row.cells, row.end);
    var text := TextFor(LineAt(data, from, row.cells, row.end).nodes, row.number, column, amount).value;
    EditOfAt(row.cells, row.end, Target(column, true, text), k);
  }

  method TargetEdit(data: string, ghost from: nat, row: SheetRow, column: string, amount: string)
    returns (r: Outcome<Edit<char>, SheetError>)
    requires CellsAt(data, from, row.cells, row.end) && IsColumn(column)
    ensures r == EditFor(data, from, row, column, amount)
  {
    var cells := row.cells;
    ghost var nodes := LineAt(data, from, cells, row.end).nodes;
    LineLettered(data, from, cells, row.end);
    LineClosed(data, from, cells, row.end);
    CellsLettered(data, from, cells, row.end);
    forall i | 0 <= i < |cells| ensures nodes[i].column == cells[i].column {
      NodeIsCell(data, from, cells, row.end, i);
    }
    var index := FindCell(nodes, cells, column);
    TextForAt(nodes, row.number, column, amount, index);
    if index < |cells| {
      r := PatchSpan(data, from, row, column, index, amount);
    } else {
      assert nodes[index..] == [];
      var text := NewCell(column, row.number, amount);
      var position := InsertionPoint(row, column, text);
      r := Ok(Edit(position, position, text));
    }
  }

  method PatchSpan(data: string, ghost from: nat, row: SheetRow, column: string, index: nat, amount: string)
    returns (r: Outcome<Edit<char>, SheetError>)
    requires CellsAt(data, from, row.cells, row.end) && IsColumn(column)
    requires index < |row.cells| && row.cells[index].column == column
    requires forall i :: 0 <= i < index ==> row.cells[i].column != column
    requires Has(LineAt(data, from, row.cells, row.end).nodes, column)
    requires Closed(LineAt(data, from, row.cells, row.end).nodes) &&
             |LineAt(data, from, row.cells, row.end).nodes| == |row.cells|
    requires TextFor(LineAt(data, from, row.cells, row.end).nodes, row.number, column, amount) ==
             TextFor(LineAt(data, from, row.cells, row.end).nodes[index..], row.number, column, amount)
    ensures r == EditFor(data, from, row, column, amount)
  {
    var cell := row.cells[index];
    ghost var nodes := LineAt(data, from, row.cells, row.end).nodes;
    CellsLettered(data, from, row.cells, row.end);
    NodeIsCell(data, from, row.cells, row.end, index);
    var found := Node("", cell.column, cell.kind, cell.formula, data[cell.start..cell.end]);
    assert found == nodes[index].(gap := "") && nodes[index..][0] == nodes[index];
    PatchIgnoresGap(nodes[index], "", row.number, amount);
    var patched := PatchCell(found, row.number, amount);
    match patched
    case Err(e) => r := Err(e);
    case Ok(text) =>
      r := Ok(Edit(cell.start, cell.end, text));
      EditOfAt(row.cells, row.end, Target(column, true, text), index);
  }

  // ----- one row

  datatype Wanted = Wanted(column: string, amount: string)

  predicate Ready(wb: Workbook) {
    IsColumn(wb.balanceColumn) && IsColumn(wb.rateColumn) && wb.balanceColumn != wb.rateColumn
  }

  /**
   The two targets by column index; `Inspect` finds the headers in different cells of one row, so the columns differ.
   */
  function Targets(wb: Workbook, values: Values): (w: (Wanted, Wanted))
    requires Ready(wb)
    ensures IsColumn(w.0.column) && IsColumn(w.1.column) && Index(w.0.column) < Index(w.1.column)
    ensures {w.0, w.1} == {Wanted(wb.balanceColumn, values.balance), Wanted(wb.rateColumn, values.rate)}
  {
    var balance, rate := Wanted(wb.balanceColumn, values.balance), Wanted(wb.rateColumn, values.rate);
    if Index(rate.column) < Index(balance.column) then (rate, balance)
    else
      assert Index(balance.column) != Index(rate.column) by {
        if Index(balance.column) == Index(rate.column) { IndexInjective(balance.column, rate.column); }
      }
      (balance, rate)
  }

  ghost function TargetFor(nodes: seq<Node>, row: nat, w: Wanted): Outcome<Target, SheetError>
    requires Closed(nodes)
  {
    match TextFor(nodes, row, w.column, w.amount)
    case Err(e) => Err(e)
    case Ok(text) => Ok(Target(w.column, Has(nodes, w.column), text))
  }

  /** The row with both targets put. */
  ghost function PatchedLine(line: Line, row: nat, w: (Wanted, Wanted)): Outcome<Line, SheetError>
    requires Closed(line.nodes) && Lettered(line) && IsColumn(w.0.column) && IsColumn(w.1.column)
  {
    match TargetFor(line.nodes, row, w.0)
    case Err(e) => Err(e)
    case Ok(t1) =>
      match TargetFor(line.nodes, row, w.1)
      case Err(e) => Err(e)
      case Ok(t2) => PutLettered(line, t1); Ok(PutTarget(PutTarget(line, t1), t2))
  }

  ghost function RowEdits(data: string, from: nat, row: SheetRow, w: (Wanted, Wanted))
      : Outcome<seq<Edit<char>>, SheetError>
    requires CellsAt(data, from, row.cells, row.end) && IsColumn(w.0.column) && IsColumn(w.1.column)
  {
    match EditFor(data, from, row, w.0.column, w.0.amount)
    case Err(e) => Err(e)
    case Ok(e1) =>
      match EditFor(data, from, row, w.1.column, w.1.amount)
      case Err(e) => Err(e)
      case Ok(e2) => Ok([e1, e2])
  }

  function StartKey(e: Edit<char>): Key {
    (e.start, 0)
  }

  lemma SortPair(e1: Edit<char>, e2: Edit<char>)
    ensures StableSort([e1, e2], StartKey) == InPair(e1, e2)
  {
    assert [e1, e2][1..] == [e2];
    assert StableSort([e2], StartKey) == [e2] by {
      assert StableSort([e2][1..], StartKey) == [];
    }
    assert [e2][1..] == [];
    assert Insert(e1, [], StartKey) == [e1];
  }

  lemma {:induction false} PairSpliced(data: string, from: nat, e: seq<Edit<char>>, end: nat)
    requires |e| == 2 && from <= e[0].start <= e[0].end <= e[1].start <= e[1].end <= end <= |data|
    ensures InOrder(e, from, end) && Spliced(data[..end], from, e) == With2(data, from, e, end)
  {
    var a, b, cut := e[0], e[1], data[..end];
    assert e[1..] == [b] && e[1..][1..] == [];
    assert InOrder<char>([], b.end, end) && InOrder([b], a.end, end);
    assert cut[from..a.start] == data[from..a.start] && cut[a.end..b.start] == data[a.end..b.start] &&
           cut[b.end..] == data[b.end..end];
    assert Spliced(cut, b.end, []) == cut[b.end..];
    assert Spliced(cut, a.end, [b]) ==
           cut[a.end..b.start] + b.text + Spliced(cut, b.end, []) by { assert [b][1..] == []; }
    Collections.Assoc(data[a.end..b.start], b.text, data[b.end..end]);
    Collections.Assoc(data[from..a.start], a.text, Spliced(cut, a.end, [b]));
  }

  /** What a row's sorted edits splice into it: the row as the outcome says. */
  ghost predicate SplicesTo(data: string, from: nat, end: nat, edits: Outcome<seq<Edit<char>>, SheetError>,
                            line: Outcome<Line, SheetError>) {
    match edits
    case Err(e) => line == Err(e)
    case Ok(list) =>
      var sorted := StableSort(list, StartKey);
      && line.Ok? && from <= end <= |data| && InOrder(sorted, from, end) &&
         Spliced(data[..end], from, sorted) == Text(line.value)
      && forall i :: 0 <= i < |list| ==> from <= list[i].start <= end
  }

  lemma {:induction false} RowSpliced(data: string, from: nat, row: SheetRow, w: (Wanted, Wanted))
    requires CellsAt(data, from, row.cells, row.end) && IsColumn(w.0.column) && IsColumn(w.1.column)
    requires Index(w.0.column) < Index(w.1.column)
    ensures Closed(LineAt(data, from, row.cells, row.end).nodes) && Lettered(LineAt(data, from, row.cells, row.end))
    ensures SplicesTo(data, from, row.end, RowEdits(data, from, row, w),
                      PatchedLine(LineAt(data, from, row.cells, row.end), row.number, w))
  {
    var line := LineAt(data, from, row.cells, row.end);
    LineLettered(data, from, row.cells, row.end);
    LineClosed(data, from, row.cells, row.end);
    CellsLettered(data, from, row.cells, row.end);
    var r1, r2 := TargetFor(line.nodes, row.number, w.0), TargetFor(line.nodes, row.number, w.1);
    if r1.Ok? && r2.Ok? {
      BothSpliced(data, from, row, r1.value, r2.value);
    }
  }

  lemma {:induction false} BothSpliced(data: string, from: nat, row: SheetRow, t1: Target, t2: Target)
    requires CellsAt(data, from, row.cells, row.end) && IsColumn(t1.column) && IsColumn(t2.column)
    requires Index(t1.column) < Index(t2.column)
    ensures forall i :: 0 <= i < |row.cells| ==> IsColumn(row.cells[i].column) && row.cells[i].start <= row.cells[i].end
    ensures var line := LineAt(data, from, row.cells, row.end);
      && Lettered(line) && Lettered(PutTarget(line, t1))
      && SplicesTo(data, from, row.end, Ok([EditOf(row.cells, row.end, t1), EditOf(row.cells, row.end, t2)]),
                   Ok(PutTarget(PutTarget(line, t1), t2)))
  {
    PutTwo(data, from, row.cells, row.end, t1, t2);
    PairSplices(data, from, row.end, EditOf(row.cells, row.end, t1), EditOf(row.cells, row.end, t2),
                PutTarget(PutTarget(LineAt(data, from, row.cells, row.end), t1), t2));
  }

  lemma {:induction false} PairSplices(data: string, from: nat, end: nat, e1: Edit<char>, e2: Edit<char>, put: Line)
    requires from <= e1.start <= e1.end <= end <= |data| && from <= e2.start <= e2.end <= end && Apart(e1, e2)
    requires Text(put) == With2(data, from, InPair(e1, e2), end)
    ensures SplicesTo(data, from, end, Ok([e1, e2]), Ok(put))
  {
    SortPair(e1, e2);
    PairSpliced(data, from, InPair(e1, e2), end);
  }

  // ----- the whole part

  /** `byRow`: the last row with that number names the account; no account reads as the empty one. */
  function Account(rows: seq<AccountRow>, number: nat): string {
    if rows == [] then ""
    else if rows[|rows| - 1].number == number then rows[|rows| - 1].account
    else Account(rows[..|rows| - 1], number)
  }

  /** A row number names the account of its last row in the workbook. */
  lemma {:induction false} AccountIsLast(rows: seq<AccountRow>, number: nat, k: nat)
    requires k < |rows| && rows[k].number == number && forall i :: k < i < |rows| ==> rows[i].number != number
    ensures Account(rows, number) == rows[k].account
  {
    if k < |rows| - 1 {
      AccountIsLast(rows[..|rows| - 1], number, k);
    }
  }

  /** Or none. */
  lemma {:induction false} AccountIsNone(rows: seq<AccountRow>, number: nat)
    requires forall i :: 0 <= i < |rows| ==> rows[i].number != number
    ensures Account(rows, number) == ""
  {
    if rows != [] {
      AccountIsNone(rows[..|rows| - 1], number);
    }
  }

  function Lookup(byRow: map<nat, string>, number: nat): string {
    if number in byRow then byRow[number] else ""
  }

  method ByRow(rows: seq<AccountRow>) returns (byRow: map<nat, string>)
    ensures forall n: nat :: Lookup(byRow, n) == Account(rows, n)
  {
    byRow := map[];
    for i := 0 to |rows|
      invariant forall n: nat :: Lookup(byRow, n) == Account(rows[..i], n)
    {
      assert rows[..i + 1][..i] == rows[..i];
      byRow := byRow[rows[i].number := rows[i].account];
    }
    assert rows[..|rows|] == rows;
  }

  ghost function RowOutcome(data: string, from: nat, row: SheetRow, wb: Workbook, results: map<string, Values>)
    : Outcome<seq<Edit<char>>, SheetError>
    requires CellsAt(data, from, row.cells, row.end) && Ready(wb)
  {
    var account := Account(wb.rows, row.number);
    if account == "" then Ok([])
    else if account !in results then Err(MissingResult(row.number))
    else RowEdits(data, from, row, Targets(wb, results[account]))
  }

  /** The row as it must be written: untouched without an account, with both values put otherwise. */
  ghost function LineOutcome(line: Line, number: nat, wb: Workbook, results: map<string, Values>)
      : Outcome<Line, SheetError>
    requires Closed(line.nodes) && Lettered(line) && Ready(wb)
  {
    var account := Account(wb.rows, number);
    if account == "" then Ok(line)
    else if account !in results then Err(MissingResult(number))
    else PatchedLine(line, number, Targets(wb, results[account]))
  }

  /** All edits in the order they are collected, or the first failure. */
  ghost function Changes(data: string, from: nat, rows: seq<SheetRow>, wb: Workbook, results: map<string, Values>)
    : Outcome<seq<Edit<char>>, SheetError>
    requires RowsAt(data, from, rows) && Ready(wb)
    decreases |rows|
  {
    if rows == [] then Ok([])
    else
      match RowOutcome(data, from, rows[0], wb, results)
      case Err(e) => Err(e)
      case Ok(edits) => After(edits, Changes(data, rows[0].end, rows[1..], wb, results))
  }

  function After<T>(done: seq<T>, rest: Outcome<seq<T>, SheetError>): Outcome<seq<T>, SheetError> {
    match rest case Err(e) => Err(e) case Ok(list) => Ok(done + list)
  }

  /** The part printed row by row, each row as it must be written, then whatever follows the last row. */
  ghost function Patched(data: string, from: nat, rows: seq<SheetRow>, wb: Workbook, results: map<string, Values>)
    : Outcome<string, SheetError>
    requires RowsAt(data, from, rows) && Ready(wb)
    decreases |rows|
  {
    if rows == [] then Ok(data[from..])
    else
      var row := rows[0];
      LineLettered(data, from, row.cells, row.end);
      LineClosed(data, from, row.cells, row.end);
      match LineOutcome(LineAt(data, from, row.cells, row.end), row.number, wb, results)
      case Err(e) => Err(e)
      case Ok(line) => After(Text(line), Patched(data, row.end, rows[1..], wb, results))
  }

  lemma {:induction false} RowMeets(data: string, from: nat, row: SheetRow, wb: Workbook, results: map<string, Values>)
    requires CellsAt(data, from, row.cells, row.end) && Ready(wb)
    ensures Closed(LineAt(data, from, row.cells, row.end).nodes) && Lettered(LineAt(data, from, row.cells, row.end))
    ensures SplicesTo(data, from, row.end, RowOutcome(data, from, row, wb, results),
                      LineOutcome(LineAt(data, from, row.cells, row.end), row.number, wb, results))
  {
    LineLettered(data, from, row.cells, row.end);
    LineClosed(data, from, row.cells, row.end);
    var account := Account(wb.rows, row.number);
    if account == "" {
      CellsLettered(data, from, row.cells, row.end);
      LineIsTheText(data, from, row.cells, row.end);
      assert data[..row.end][from..] == data[from..row.end];
    } else if account in results {
      RowSpliced(data, from, row, Targets(wb, results[account]));
    }
  }

  ghost predicate PartSplices(data: string, from: nat, edits: Outcome<seq<Edit<char>>, SheetError>,
                              text: Outcome<string, SheetError>) {
    match edits
    case Err(e) => text == Err(e)
    case Ok(list) =>
      var sorted := StableSort(list, StartKey);
      && InOrder(sorted, from, |data|) && text == Ok(Spliced(data, from, sorted))
      && forall i :: 0 <= i < |list| ==> from <= list[i].start
  }

  /** The collected edits, sorted by offset, never overlap, and splicing them writes every row as it must be. */
  lemma {:induction false} PartSpliced(data: string, from: nat, rows: seq<SheetRow>, wb: Workbook,
                                       results: map<string, Values>)
    requires RowsAt(data, from, rows) && Ready(wb)
    ensures PartSplices(data, from, Changes(data, from, rows, wb, results), Patched(data, from, rows, wb, results))
    decreases |rows|
  {
    if rows != [] {
      var row := rows[0];
      RowMeets(data, from, row, wb, results);
      PartSpliced(data, row.end, rows[1..], wb, results);
      var head := RowOutcome(data, from, row, wb, results);
      var tail := Changes(data, row.end, rows[1..], wb, results);
      if head.Ok? && tail.Ok? {
        var line := LineOutcome(LineAt(data, from, row.cells, row.end), row.number, wb, results).value;
        JoinParts(data, from, row.end, head.value, line, tail.value,
            Patched(data, row.end, rows[1..], wb, results).value);
      }
    }
  }

  lemma {:induction false} JoinParts(data: string, from: nat, mid: nat, a: seq<Edit<char>>, line: Line,
                                     b: seq<Edit<char>>, text: string)
    requires SplicesTo(data, from, mid, Ok(a), Ok(line)) && PartSplices(data, mid, Ok(b), Ok(text))
    ensures PartSplices(data, from, Ok(a + b), Ok(Text(line) + text))
  {
    SortAppend(a, b, StartKey);
    SplicedSplit(data, StableSort(a, StartKey), StableSort(b, StartKey), from, mid);
  }

  // ----- the code

  method CollectRow(data: string, ghost from: nat, row: SheetRow, w: (Wanted, Wanted))
    returns (r: Outcome<seq<Edit<char>>, SheetError>)
    requires CellsAt(data, from, row.cells, row.end) && IsColumn(w.0.column) && IsColumn(w.1.column)
    ensures r == RowEdits(data, from, row, w)
  {
    var first := TargetEdit(data, from, row, w.0.column, w.0.amount);
    match first
    case Err(e) => r := Err(e);
    case Ok(e1) =>
      var second := TargetEdit(data, from, row, w.1.column, w.1.amount);
      match second
      case Err(e) => r := Err(e);
      case Ok(e2) => r := Ok([e1, e2]);
  }

  method VisitRow(data: string, ghost from: nat, row: SheetRow, byRow: map<nat, string>, wb: Workbook,
                  results: map<string, Values>)
    returns (r: Outcome<seq<Edit<char>>, SheetError>)
    requires CellsAt(data, from, row.cells, row.end) && Ready(wb)
    requires Lookup(byRow, row.number) == Account(wb.rows, row.number)
    ensures r == RowOutcome(data, from, row, wb, results)
  {
    var account := Lookup(byRow, row.number);
    if account == "" {
      return Ok([]);
    }
    if account !in results {
      return Err(MissingResult(row.number));
    }
    r := CollectRow(data, from, row, Targets(wb, results[account]));
  }

  /** The splice loop: it fails only when an edit starts before the end of the one written last. */
  method WriteChanges(data: string, changes: seq<Edit<char>>) returns (r: Outcome<string, SheetError>)
    requires forall i :: 0 <= i < |changes| ==> changes[i].start <= changes[i].end <= |data|
    ensures r == if InOrder(changes, 0, |data|) then Ok(Spliced(data, 0, changes)) else Err(Overlapping)
  {
    var written, offset := "", 0;
    assert changes[0..] == changes;
    for i := 0 to |changes|
      invariant 0 <= offset <= |data|
      invariant InOrder(changes[i..], offset, |data|) <==> InOrder(changes, 0, |data|)
      invariant InOrder(changes, 0, |data|) ==>
                written + Spliced(data, offset, changes[i..]) == Spliced(data, 0, changes)
    {
      var change := changes[i];
      assert changes[i..][0] == change && changes[i..][1..] == changes[i + 1..];
      if change.start < offset {
        return Err(Overlapping);
      }
      written := written + data[offset..change.start] + change.text;
      offset := change.end;
    }
    assert changes[|changes|..] == [];
    r := Ok(written + data[offset..]);
  }

  method CollectChanges(data: string, rows: seq<SheetRow>, wb: Workbook, results: map<string, Values>)
    returns (r: Outcome<seq<Edit<char>>, SheetError>)
    requires RowsAt(data, 0, rows) && Ready(wb)
    ensures r == Changes(data, 0, rows, wb, results)
  {
    var byRow := ByRow(wb.rows);
    var changes := [];
    ghost var from: nat := 0;
    assert rows[0..] == rows;
    AfterNothing(Changes(data, 0, rows, wb, results));
    var i := 0;
    while i < |rows|
      invariant i <= |rows|
      invariant RowsAt(data, from, rows[i..])
      invariant Changes(data, 0, rows, wb, results) == After(changes, Changes(data, from, rows[i..], wb, results))
    {
      assert rows[i..][0] == rows[i] && rows[i..][1..] == rows[i + 1..];
      var edits := VisitRow(data, from, rows[i], byRow, wb, results);
      if edits.Err? {
        return Err(edits.error);
      }
      AfterTwice(changes, edits.value, Changes(data, rows[i].end, rows[i + 1..], wb, results));
      changes := changes + edits.value;
      from := rows[i].end;
      i := i + 1;
    }
    assert rows[|rows|..] == [] && changes + [] == changes;
    r := Ok(changes);
  }

  /**
   Without a missing result or a target cell that cannot be patched, the part is written with every account row
   patched.
   */
  method WriteSheet(data: string, rows: seq<SheetRow>, wb: Workbook, results: map<string, Values>)
    returns (r: Outcome<string, SheetError>)
    requires RowsAt(data, 0, rows) && Ready(wb)
    ensures r == Patched(data, 0, rows, wb, results) && r != Err(Overlapping)
  {
    NeverOverlapping(data, 0, rows, wb, results);
    var changes := CollectChanges(data, rows, wb, results);
    PartSpliced(data, 0, rows, wb, results);
    match changes
    case Err(e) => r := Err(e);
    case Ok(list) => r := SortAndWrite(data, list);
  }

  lemma AfterNothing<T>(rest: Outcome<seq<T>, SheetError>)
    ensures After([], rest) == rest
  {
    if rest.Ok? { assert [] + rest.value == rest.value; }
  }

  lemma AfterTwice<T>(a: seq<T>, b: seq<T>, rest: Outcome<seq<T>, SheetError>)
    ensures After(a, After(b, rest)) == After(a + b, rest)
  {
    if rest.Ok? { assert a + (b + rest.value) == a + b + rest.value; }
  }

  lemma {:induction false} InOrderBounds(edits: seq<Edit<char>>, from: nat, length: nat)
    requires InOrder(edits, from, length)
    ensures forall i :: 0 <= i < |edits| ==> edits[i].start <= edits[i].end <= length
    decreases |edits|
  {
    if edits != [] {
      InOrderBounds(edits[1..], edits[0].end, length);
      assert edits == [edits[0]] + edits[1..];
    }
  }

  method SortAndWrite(data: string, changes: seq<Edit<char>>) returns (r: Outcome<string, SheetError>)
    requires InOrder(StableSort(changes, StartKey), 0, |data|)
    ensures r == Ok(Spliced(data, 0, StableSort(changes, StartKey)))
  {
    InOrderBounds(StableSort(changes, StartKey), 0, |data|);
    r := WriteChanges(data, StableSort(changes, StartKey));
  }

  // ----- what it means for a row

  /** The body of the first cell of a column. */
  function BodyOf(nodes: seq<Node>, column: string): Option<string> {
    if nodes == [] then None
    else if nodes[0].column == column then Some(nodes[0].body)
    else BodyOf(nodes[1..], column)
  }

  /** The cells of the other columns, without the text between them. */
  function Others(nodes: seq<Node>, column: string): seq<Node> {
    if nodes == [] then []
    else (if nodes[0].column == column then [] else [nodes[0].(gap := "")]) + Others(nodes[1..], column)
  }

  ghost predicate Rising(nodes: seq<Node>, above: nat) {
    nodes == [] || (IsColumn(nodes[0].column) && above < Index(nodes[0].column) &&
        Rising(nodes[1..], Index(nodes[0].column)))
  }

  ghost predicate Holds(line: Line, put: Line, t: Target) {
    && BodyOf(put.nodes, t.column) == Some(t.text)
    && Others(put.nodes, t.column) == Others(line.nodes, t.column)
  }

  lemma {:induction false} NodesCons(node: Node, line: Line, column: string)
    ensures BodyOf(Cons(node, line).nodes, column) == if node.column == column then
            Some(node.body) else BodyOf(line.nodes, column)
    ensures Others(Cons(node, line).nodes, column) ==
            (if node.column == column then [] else [node.(gap := "")]) + Others(line.nodes, column)
  {
    assert Cons(node, line).nodes[1..] == line.nodes;
  }

  /** Putting a target makes its column read the text and leaves every other cell and their order alone. */
  lemma {:induction false} PutHolds(line: Line, t: Target)
    requires Lettered(line) && IsColumn(t.column) && t.replace == Has(line.nodes, t.column)
    ensures Holds(line, PutTarget(line, t), t)
    decreases |line.nodes|
  {
    if line.nodes == [] {
      NodesCons(NewNode(line.tail, t), Line([], ""), t.column);
      assert PutTarget(line, t) == Cons(NewNode(line.tail, t), Line([], ""));
    } else {
      var node, rest := line.nodes[0], line.(nodes := line.nodes[1..]);
      assert line == Cons(node, rest);
      NodesCons(node, rest, t.column);
      if Acts(t, node.column) {
        ActHolds(node, rest, t);
      } else {
        PutHolds(rest, t);
        NodesCons(node, PutTarget(rest, t), t.column);
      }
    }
  }

  lemma ActHolds(node: Node, rest: Line, t: Target)
    requires IsColumn(t.column) && IsColumn(node.column) && Acts(t, node.column)
    ensures Holds(Cons(node, rest), Act(t, node, rest), t)
  {
    NodesCons(node, rest, t.column);
    if t.replace {
      NodesCons(node.(body := t.text), rest, t.column);
    } else {
      NodesCons(node.(gap := ""), rest, t.column);
      NodesCons(NewNode(node.gap, t), Cons(node.(gap := ""), rest), t.column);
    }
  }

  lemma {:induction false} FoundIsAbove(nodes: seq<Node>, above: nat, column: string)
    requires Rising(nodes, above) && Has(nodes, column) && IsColumn(column)
    ensures above < Index(column)
    decreases |nodes|
  {
    if nodes[0].column != column {
      FoundIsAbove(nodes[1..], Index(nodes[0].column), column);
    }
  }

  lemma {:induction false} RisingCons(node: Node, line: Line, above: nat)
    ensures Rising(Cons(node, line).nodes, above) <==>
            (IsColumn(node.column) && above < Index(node.column) && Rising(line.nodes, Index(node.column)))
  {
    assert Cons(node, line).nodes[1..] == line.nodes;
  }

  /** A row with ascending columns stays ascending. */
  lemma {:induction false} PutKeepsRising(line: Line, t: Target, above: nat)
    requires Lettered(line) && IsColumn(t.column) && t.replace == Has(line.nodes, t.column)
    requires Rising(line.nodes, above) && above < Index(t.column)
    ensures Rising(PutTarget(line, t).nodes, above)
    decreases |line.nodes|
  {
    if line.nodes == [] {
      RisingCons(NewNode(line.tail, t), Line([], ""), above);
    } else {
      var node, rest := line.nodes[0], line.(nodes := line.nodes[1..]);
      assert line == Cons(node, rest);
      RisingCons(node, rest, above);
      if Acts(t, node.column) {
        if t.replace {
          RisingCons(node.(body := t.text), rest, above);
        } else {
          RisingCons(node.(gap := ""), rest, Index(t.column));
          RisingCons(NewNode(node.gap, t), Cons(node.(gap := ""), rest), above);
        }
      } else {
        TargetIsFurther(node, rest, t);
        PutKeepsRising(rest, t, Index(node.column));
        RisingCons(node, PutTarget(rest, t), above);
      }
    }
  }

  lemma TargetIsFurther(node: Node, rest: Line, t: Target)
    requires IsColumn(t.column) && IsColumn(node.column) && !Acts(t, node.column)
    requires t.replace == Has(Cons(node, rest).nodes, t.column) && Rising(rest.nodes, Index(node.column))
    ensures Index(node.column) < Index(t.column) && t.replace == Has(rest.nodes, t.column)
  {
    assert Cons(node, rest).nodes[1..] == rest.nodes;
    if t.replace {
      FoundIsAbove(rest.nodes, Index(node.column), t.column);
    } else if Index(node.column) == Index(t.column) {
      IndexInjective(node.column, t.column);
    }
  }

  // ----- both targets of an account row

  lemma {:induction false} SeenInOthers(nodes: seq<Node>, left: string, column: string)
    requires left != column
    ensures Has(nodes, column) <==> Has(Others(nodes, left), column)
    ensures BodyOf(nodes, column) == BodyOf(Others(nodes, left), column)
  {
    if nodes != [] {
      SeenInOthers(nodes[1..], left, column);
      OthersHead(nodes, left);
      if nodes[0].column != left {
        assert Others(nodes, left)[1..] == Others(nodes[1..], left);
      }
    }
  }

  lemma {:induction false} OthersHead(nodes: seq<Node>, column: string)
    requires nodes != []
    ensures Others(nodes, column) ==
            if nodes[0].column == column then
                Others(nodes[1..], column) else [nodes[0].(gap := "")] + Others(nodes[1..], column)
  {
  }

  lemma {:induction false} OthersCommute(nodes: seq<Node>, a: string, b: string)
    ensures Others(Others(nodes, a), b) == Others(Others(nodes, b), a)
  {
    if nodes != [] {
      OthersCommute(nodes[1..], a, b);
      OthersHead(nodes, a);
      OthersHead(nodes, b);
      var bare := nodes[0].(gap := "");
      OthersOfCons(bare, Others(nodes[1..], a), b);
      OthersOfCons(bare, Others(nodes[1..], b), a);
    }
  }

  lemma {:induction false} OthersOfCons(node: Node, rest: seq<Node>, column: string)
    requires node.gap == ""
    ensures Others([node] + rest, column) == (if node.column == column then [] else [node]) + Others(rest, column)
  {
    assert ([node] + rest)[1..] == rest;
    assert node.(gap := "") == node;
  }

  /** The text between the cells. */
  function Between(nodes: seq<Node>, tail: string): string {
    if nodes == [] then tail else nodes[0].gap + Between(nodes[1..], tail)
  }

  /** No byte between the cells is lost or moved past another. */
  lemma {:induction false} PutKeepsBetween(line: Line, t: Target)
    requires Lettered(line) && IsColumn(t.column)
    ensures Between(PutTarget(line, t).nodes, PutTarget(line, t).tail) == Between(line.nodes, line.tail)
    decreases |line.nodes|
  {
    if line.nodes == [] {
      assert PutTarget(line, t).nodes[1..] == [];
      assert line.tail + "" == line.tail;
    } else {
      var node, rest := line.nodes[0], line.(nodes := line.nodes[1..]);
      if Acts(t, node.column) {
        ActKeepsBetween(t, node, rest);
      } else {
        PutKeepsBetween(rest, t);
        BetweenCons(node, PutTarget(rest, t));
      }
    }
  }

  lemma BetweenCons(node: Node, line: Line)
    ensures Between(Cons(node, line).nodes, line.tail) == node.gap + Between(line.nodes, line.tail)
  {
    assert Cons(node, line).nodes[1..] == line.nodes;
  }

  lemma ActKeepsBetween(t: Target, node: Node, rest: Line)
    ensures Between(Act(t, node, rest).nodes, rest.tail) == node.gap + Between(rest.nodes, rest.tail)
  {
    if t.replace {
      BetweenCons(node.(body := t.text), rest);
    } else {
      BetweenCons(node.(gap := ""), rest);
      BetweenCons(NewNode(node.gap, t), Cons(node.(gap := ""), rest));
      assert "" + Between(rest.nodes, rest.tail) == Between(rest.nodes, rest.tail);
    }
  }

  /** Both columns read their texts; the other cells, the text between cells and the column order are kept. */
  ghost predicate CarriesBoth(line: Line, put: Line, t1: Target, t2: Target) {
    && BodyOf(put.nodes, t1.column) == Some(t1.text) && BodyOf(put.nodes, t2.column) == Some(t2.text)
    && Others(Others(put.nodes, t1.column), t2.column) == Others(Others(line.nodes, t1.column), t2.column)
    && Between(put.nodes, put.tail) == Between(line.nodes, line.tail)
    && (Rising(line.nodes, 0) ==> Rising(put.nodes, 0))
  }

  lemma {:induction false} BothPut(line: Line, t1: Target, t2: Target)
    requires Lettered(line) && IsColumn(t1.column) && IsColumn(t2.column) && t1.column != t2.column
    requires t1.replace == Has(line.nodes, t1.column) && t2.replace == Has(line.nodes, t2.column)
    ensures Lettered(PutTarget(line, t1)) && CarriesBoth(line, PutTarget(PutTarget(line, t1), t2), t1, t2)
  {
    PutLettered(line, t1);
    var one := PutTarget(line, t1);
    var two := PutTarget(one, t2);
    PutHolds(line, t1);
    SeenInOthers(line.nodes, t1.column, t2.column);
    SeenInOthers(one.nodes, t1.column, t2.column);
    PutHolds(one, t2);
    SeenInOthers(two.nodes, t2.column, t1.column);
    SeenInOthers(one.nodes, t2.column, t1.column);
    OthersCommute(two.nodes, t1.column, t2.column);
    OthersCommute(one.nodes, t1.column, t2.column);
    PutKeepsBetween(line, t1);
    PutKeepsBetween(one, t2);
    if Rising(line.nodes, 0) {
      PutKeepsRising(line, t1, 0);
      PutKeepsRising(one, t2, 0);
    }
  }

  /** An account row that is written carries its account's balance and rate, whichever column comes first. */
  lemma {:induction false} AccountRowCarriesBoth(line: Line, number: nat, wb: Workbook, results: map<string, Values>)
    requires Closed(line.nodes) && Lettered(line) && Ready(wb)
    requires Account(wb.rows, number) != "" && LineOutcome(line, number, wb, results).Ok?
    ensures Account(wb.rows, number) in results
    ensures var values := results[Account(wb.rows, number)];
      var balance := TargetFor(line.nodes, number, Wanted(wb.balanceColumn, values.balance));
      var rate := TargetFor(line.nodes, number, Wanted(wb.rateColumn, values.rate));
      && balance.Ok? && rate.Ok?
      && CarriesBoth(line, LineOutcome(line, number, wb, results).value, balance.value, rate.value)
  {
    var values := results[Account(wb.rows, number)];
    var b, r := Wanted(wb.balanceColumn, values.balance), Wanted(wb.rateColumn, values.rate);
    var w := Targets(wb, values);
    assert w == (b, r) || w == (r, b) by {
      assert b in {w.0, w.1} && r in {w.0, w.1};
    }
    var balance, rate := TargetFor(line.nodes, number, b), TargetFor(line.nodes, number, r);
    BothPut(line, balance.value, rate.value);
    BothPut(line, rate.value, balance.value);
    OthersCommute(line.nodes, b.column, r.column);
    OthersCommute(LineOutcome(line, number, wb, results).value.nodes, b.column, r.column);
  }

  // ----- when it fails, and what a patched cell reads

  predicate Patchable(node: Node) {
    !node.formula && (node.kind == "" || node.kind == "n" || node.kind == "s" || node.kind == "inlineStr" ||
        node.kind == "str")
  }

  /** The first cell of the column, if the row has one, can be patched. */
  predicate Takes(nodes: seq<Node>, column: string) {
    nodes != [] ==> if nodes[0].column == column then Patchable(nodes[0]) else Takes(nodes[1..], column)
  }

  lemma {:induction false} TakesExactly(nodes: seq<Node>, row: nat, column: string, amount: string)
    requires Closed(nodes)
    ensures TextFor(nodes, row, column, amount).Ok? <==> Takes(nodes, column)
  {
    if nodes != [] && nodes[0].column != column {
      TakesExactly(nodes[1..], row, column, amount);
    }
  }

  predicate RowCanBeWritten(nodes: seq<Node>, number: nat, wb: Workbook, results: map<string, Values>) {
    var account := Account(wb.rows, number);
    account == "" || (account in results && Takes(nodes, wb.balanceColumn) && Takes(nodes, wb.rateColumn))
  }

  ghost predicate CanBeWritten(data: string, from: nat, rows: seq<SheetRow>, wb: Workbook, results: map<string, Values>)
    requires RowsAt(data, from, rows)
    decreases |rows|
  {
    rows != [] ==>
      && RowCanBeWritten(LineAt(data, from, rows[0].cells, rows[0].end).nodes, rows[0].number, wb, results)
      && CanBeWritten(data, rows[0].end, rows[1..], wb, results)
  }

  /**
   The part is written exactly when every account row has a result and no target cell is a formula or of another type.
   */
  lemma {:induction false} WrittenExactly(data: string, from: nat, rows: seq<SheetRow>, wb: Workbook,
                                          results: map<string, Values>)
    requires RowsAt(data, from, rows) && Ready(wb)
    ensures Patched(data, from, rows, wb, results).Ok? <==> CanBeWritten(data, from, rows, wb, results)
    decreases |rows|
  {
    if rows != [] {
      var row := rows[0];
      LineLettered(data, from, row.cells, row.end);
      LineClosed(data, from, row.cells, row.end);
      RowWrittenExactly(LineAt(data, from, row.cells, row.end), row.number, wb, results);
      WrittenExactly(data, row.end, rows[1..], wb, results);
    }
  }

  lemma RowWrittenExactly(line: Line, number: nat, wb: Workbook, results: map<string, Values>)
    requires Closed(line.nodes) && Lettered(line) && Ready(wb)
    ensures LineOutcome(line, number, wb, results).Ok? <==> RowCanBeWritten(line.nodes, number, wb, results)
  {
    var account := Account(wb.rows, number);
    if account in results {
      var values := results[account];
      TakesExactly(line.nodes, number, wb.balanceColumn, values.balance);
      TakesExactly(line.nodes, number, wb.rateColumn, values.rate);
      var w := Targets(wb, values);
      assert Wanted(wb.balanceColumn, values.balance) in {w.0, w.1} && Wanted(wb.rateColumn, values.rate) in {w.0, w.1};
    }
  }

  /** Why a cell is refused: a formula before anything else, then its type. */
  ghost predicate RefusedCell(node: Node, row: nat, e: SheetError) {
    if node.formula then e == FormulaCell(row) else !Patchable(node) && e == UnsupportedCell(row)
  }

  lemma {:induction false} TextRefused(nodes: seq<Node>, row: nat, column: string, amount: string)
    requires Closed(nodes) && TextFor(nodes, row, column, amount).Err?
    ensures exists node :: node in nodes && node.column == column &&
                           RefusedCell(node, row, TextFor(nodes, row, column, amount).error)
  {
    if nodes[0].column != column {
      TextRefused(nodes[1..], row, column, amount);
    } else {
      assert nodes[0] in nodes;
    }
  }

  /**
   A row without an account stays as it is; a row is refused for a missing result, or for a cell of a target column.
   */
  lemma {:induction false} RowRefusedWhy(line: Line, number: nat, wb: Workbook, results: map<string, Values>)
    requires Closed(line.nodes) && Lettered(line) && Ready(wb)
    ensures var r, account := LineOutcome(line, number, wb, results), Account(wb.rows, number);
      && (account == "" ==> r == Ok(line))
      && (r.Err? ==>
           (account !in results && r.error == MissingResult(number)) ||
           exists node :: node in line.nodes && node.column in {wb.balanceColumn, wb.rateColumn} &&
                          RefusedCell(node, number, r.error))
  {
    var r, account := LineOutcome(line, number, wb, results), Account(wb.rows, number);
    if account != "" && account in results && r.Err? {
      var w := Targets(wb, results[account]);
      assert w.0.column in {wb.balanceColumn, wb.rateColumn} && w.1.column in {wb.balanceColumn, wb.rateColumn} by {
        assert w.0 in {w.0, w.1} && w.1 in {w.0, w.1};
      }
      if TextFor(line.nodes, number, w.0.column, w.0.amount).Err? {
        TextRefused(line.nodes, number, w.0.column, w.0.amount);
      } else {
        TextRefused(line.nodes, number, w.1.column, w.1.amount);
      }
    }
  }

  lemma {:induction false} NoOverlapInText(nodes: seq<Node>, row: nat, column: string, amount: string)
    requires Closed(nodes)
    ensures TextFor(nodes, row, column, amount) != Err(Overlapping)
  {
    if nodes != [] && nodes[0].column != column {
      NoOverlapInText(nodes[1..], row, column, amount);
    }
  }

  /** Ordered cell spans and different target columns never give overlapping edits. */
  lemma {:induction false} NeverOverlapping(data: string, from: nat, rows: seq<SheetRow>, wb: Workbook,
                                            results: map<string, Values>)
    requires RowsAt(data, from, rows) && Ready(wb)
    ensures Patched(data, from, rows, wb, results) != Err(Overlapping)
    decreases |rows|
  {
    if rows != [] {
      var row, account := rows[0], Account(wb.rows, rows[0].number);
      LineLettered(data, from, row.cells, row.end);
      LineClosed(data, from, row.cells, row.end);
      var nodes := LineAt(data, from, row.cells, row.end).nodes;
      if account in results {
        var w := Targets(wb, results[account]);
        NoOverlapInText(nodes, row.number, w.0.column, w.0.amount);
        NoOverlapInText(nodes, row.number, w.1.column, w.1.amount);
      }
      NeverOverlapping(data, row.end, rows[1..], wb, results);
    }
  }

  // ----- what the two cells of an account row read

  function FirstNode(nodes: seq<Node>, column: string): Option<Node> {
    if nodes == [] then None
    else if nodes[0].column == column then Some(nodes[0])
    else FirstNode(nodes[1..], column)
  }

  lemma {:induction false} TextForFirst(nodes: seq<Node>, row: nat, column: string, amount: string)
    requires Closed(nodes)
    ensures match FirstNode(nodes, column)
      case None => TextFor(nodes, row, column, amount) == Ok(NewCell(column, row, amount))
      case Some(node) => node in nodes && TextFor(nodes, row, column, amount) == PatchCell(node, row, amount)
  {
    if nodes != [] && nodes[0].column != column {
      TextForFirst(nodes[1..], row, column, amount);
    }
  }

  /** The text for the column is the cell holding the amount. */
  ghost predicate HoldsHere(nodes: seq<Node>, row: nat, column: string, e: CellReading.Element, kind: string,
                            amount: string)
    requires Closed(nodes)
  {
    var text := TextFor(nodes, row, column, amount);
    text.Ok? && CellFilling.Holds(e, kind, amount, text.value)
  }

  /** The node's text as a cell, its type to be changed or not. */
  ghost predicate ReadAs(node: Node, e: CellReading.Element) {
    CellReading.IsCell(e) && node.body == CellReading.PrintElement(e) && CellFilling.Delivers(e, node.kind)
  }

  /** A cell at this place with the default type, from which the walk reads the amount. */
  ghost predicate AsNew(e: CellReading.Element, column: string, row: nat, amount: string) {
    && e.tag == "c" && |e.attributes| == 1 && e.attributes[0].name == "r"
    && e.attributes[0].value == column + DecimalText.Digits(row)
    && CellFilling.TypeOf(e.attributes) == "" && CellFilling.Seen(CellFilling.ItemsOf(e.body), false) == amount
  }

  /** The text is the text of such a cell, and of no other. */
  ghost predicate ReadsAsNew(text: string, column: string, row: nat, amount: string) {
    && (exists e: CellReading.Element :: CellReading.IsCell(e) && text == CellReading.PrintElement(e))
    && (forall e: CellReading.Element :: CellReading.IsCell(e) && text == CellReading.PrintElement(e) ==>
                                         AsNew(e, column, row, amount))
  }

  function NewElement(column: string, row: nat, amount: string): CellReading.Element {
    CellReading.Element("c", [CellReading.Attribute(" ", "r", "", "", '"', column + DecimalText.Digits(row))], "",
                        CellReading.Content(CellReading.Cons(CellFilling.NewItem("", amount), CellReading.Nil), ""))
  }

  lemma NewElementPrints(column: string, row: nat, amount: string)
    ensures CellReading.PrintElement(NewElement(column, row, amount)) == NewCell(column, row, amount)
  {
    var e, place := NewElement(column, row, amount), column + DecimalText.Digits(row);
    var a := e.attributes[0];
    CellFilling.NewItemPrints("", amount);
    CellFilling.OnePrints(CellFilling.NewItem("", amount));
    assert CellText.Element("", amount) == "<v>" + amount + "</v>";
    assert e.attributes[1..] == [];
    assert CellReading.PrintAttributes(e.attributes) == CellReading.PrintAttribute(a);
    PlacePrints(place);
    NewCellPieces(column, DecimalText.Digits(row), amount);
  }

  lemma PlacePrints(place: string)
    ensures CellReading.PrintAttribute(CellReading.Attribute(" ", "r", "", "", '"', place)) == " r=\"" + place + "\""
  {
  }

  lemma NewCellPieces(column: string, digits: string, amount: string)
    ensures "<" + "c" + (" r=\"" + (column + digits) + "\"") + "" +
            (">" + ("<v>" + amount + "</v>") + "</" + "c" + "" + ">") ==
            "<c r=\"" + column + digits + "\"><v>" + amount + "</v></c>"
  {
  }

  lemma NewElementIsCell(column: string, row: nat, amount: string)
    requires IsColumn(column) && CellFilling.IsAmount(amount)
    ensures CellReading.IsCell(NewElement(column, row, amount))
  {
    CellFilling.NewItemFits("", amount);
    CellFilling.NoColon("c");
    PlaceFits(column, DecimalText.Digits(row));
    assert CellReading.AreItems(CellReading.Nil);
  }

  lemma PlaceFits(column: string, digits: string)
    requires IsColumn(column) && DecimalText.AllDigits(digits)
    ensures CellReading.IsAttribute(CellReading.Attribute(" ", "r", "", "", '"', column + digits))
  {
    var place := column + digits;
    assert forall i :: 0 <= i < |place| ==> IsLetter(place[i]) || DecimalText.IsDigit(place[i]);
    assert '"' !in place && '<' !in place;
  }

  lemma NewElementAsNew(column: string, row: nat, amount: string)
    ensures AsNew(NewElement(column, row, amount), column, row, amount)
  {
    CellFilling.NewItemSeen("", amount);
    CellFilling.NoColon("r");
    assert CellText.IsText("") == false;
  }

  /** A new cell stands at its place and holds the amount, for every column, row number and amount. */
  lemma NewCellReads(column: string, row: nat, amount: string)
    requires IsColumn(column) && CellFilling.IsAmount(amount)
    ensures ReadsAsNew(NewCell(column, row, amount), column, row, amount)
  {
    var e := NewElement(column, row, amount);
    NewElementPrints(column, row, amount);
    NewElementIsCell(column, row, amount);
    NewElementAsNew(column, row, amount);
    forall r: CellReading.Element | CellReading.IsCell(r) && NewCell(column, row, amount) == CellReading.PrintElement(r)
      ensures AsNew(r, column, row, amount)
    {
      CellReading.ReadingIsUnique(r, e);
    }
  }

  /**
   A new cell holds the amount; a cell the row already had holds it when it takes amounts, and it takes them exactly
   when every amount would be held.
   */
  ghost predicate ReadsAmount(line: Line, put: Line, row: nat, column: string, amount: string)
    requires Closed(line.nodes)
  {
    var body := BodyOf(put.nodes, column);
    match FirstNode(line.nodes, column)
    case None => body.Some? && (CellFilling.IsAmount(amount) ==> ReadsAsNew(body.value, column, row, amount))
    case Some(node) =>
      forall e: CellReading.Element :: ReadAs(node, e) ==>
        && (CellFilling.Takes(e, node.kind) && CellFilling.IsAmount(amount) ==>
              body.Some? && CellFilling.Holds(e, node.kind, amount, body.value))
        && (CellFilling.Takes(e, node.kind) <==>
            forall a :: CellFilling.IsAmount(a) ==> HoldsHere(line.nodes, row, column, e, node.kind, a))
  }

  lemma {:induction false} TextOfFirst(nodes: seq<Node>, row: nat, column: string, node: Node, e: CellReading.Element,
                                       amount: string)
    requires Closed(nodes) && FirstNode(nodes, column) == Some(node) && Patchable(node) && ReadAs(node, e)
    ensures '>' in node.body
    ensures TextFor(nodes, row, column, amount) == Ok(CellText.PatchedText(node.kind, node.body, amount))
    ensures HoldsHere(nodes, row, column, e, node.kind, amount) <==> CellFilling.Fills(e, node.kind, amount)
  {
    TextForFirst(nodes, row, column, amount);
  }

  lemma {:induction false} FirstFilled(nodes: seq<Node>, row: nat, column: string, node: Node, e: CellReading.Element)
    requires Closed(nodes) && FirstNode(nodes, column) == Some(node) && Patchable(node) && ReadAs(node, e)
    ensures CellFilling.Takes(e, node.kind) <==>
            forall a :: CellFilling.IsAmount(a) ==> HoldsHere(nodes, row, column, e, node.kind, a)
  {
    CellFilling.FillsExactly(e, node.kind);
    forall a ensures HoldsHere(nodes, row, column, e, node.kind, a) <==> CellFilling.Fills(e, node.kind, a) {
      TextOfFirst(nodes, row, column, node, e, a);
    }
  }

  lemma {:induction false} PutReads(line: Line, put: Line, row: nat, column: string, amount: string)
    requires IsColumn(column) && Closed(line.nodes) && TextFor(line.nodes, row, column, amount).Ok?
    requires BodyOf(put.nodes, column) == Some(TextFor(line.nodes, row, column, amount).value)
    ensures ReadsAmount(line, put, row, column, amount)
  {
    TextForFirst(line.nodes, row, column, amount);
    var first := FirstNode(line.nodes, column);
    if first.None? && CellFilling.IsAmount(amount) {
      NewCellReads(column, row, amount);
    }
    if first.Some? {
      var node := first.value;
      forall e: CellReading.Element | ReadAs(node, e)
        ensures CellFilling.Takes(e, node.kind) && CellFilling.IsAmount(amount) ==>
                  CellFilling.Holds(e, node.kind, amount, BodyOf(put.nodes, column).value)
        ensures CellFilling.Takes(e, node.kind) <==>
                forall a :: CellFilling.IsAmount(a) ==> HoldsHere(line.nodes, row, column, e, node.kind, a)
      {
        FirstFilled(line.nodes, row, column, node, e);
      }
    }
  }

  /** Both cells of a written account row: exactly when they hold the account's balance and rate. */
  lemma {:induction false} AccountRowReadsExactly(line: Line, number: nat, wb: Workbook, results: map<string, Values>)
    requires Closed(line.nodes) && Lettered(line) && Ready(wb)
    requires Account(wb.rows, number) != "" && LineOutcome(line, number, wb, results).Ok?
    ensures Account(wb.rows, number) in results
    ensures var values, put := results[Account(wb.rows, number)], LineOutcome(line, number, wb, results).value;
      && ReadsAmount(line, put, number, wb.balanceColumn, values.balance)
      && ReadsAmount(line, put, number, wb.rateColumn, values.rate)
  {
    AccountRowCarriesBoth(line, number, wb, results);
    var values, put := results[Account(wb.rows, number)], LineOutcome(line, number, wb, results).value;
    PutReads(line, put, number, wb.balanceColumn, values.balance);
    PutReads(line, put, number, wb.rateColumn, values.rate);
  }

  /** The row stands in the text as its outcome, between what comes before and after it. */
  ghost predicate Stands(data: string, start: nat, row: SheetRow, wb: Workbook, results: map<string, Values>,
                         text: string, before: string, after: string)
    requires Ready(wb)
  {
    && CellsAt(data, start, row.cells, row.end)
    && var line := LineAt(data, start, row.cells, row.end);
      && Closed(line.nodes) && Lettered(line) && LineOutcome(line, row.number, wb, results).Ok?
      && text == before + (Text(LineOutcome(line, row.number, wb, results).value) + after)
  }

  lemma StandsFurther(data: string, start: nat, row: SheetRow, wb: Workbook, results: map<string, Values>,
                      text: string, before: string, after: string, ahead: string)
    requires Ready(wb) && Stands(data, start, row, wb, results, text, before, after)
    ensures Stands(data, start, row, wb, results, ahead + text, ahead + before, after)
  {
    Collections.Assoc(ahead, before, text[|before|..]);
  }

  /** Every row of the written part stands there as its outcome. */
  lemma {:induction false} RowIsWritten(data: string, from: nat, rows: seq<SheetRow>, wb: Workbook,
                                        results: map<string, Values>, i: nat)
    returns (start: nat, before: string, after: string)
    requires RowsAt(data, from, rows) && Ready(wb) && i < |rows| && Patched(data, from, rows, wb, results).Ok?
    ensures start == if i == 0 then from else rows[i - 1].end
    ensures Stands(data, start, rows[i], wb, results, Patched(data, from, rows, wb, results).value, before, after)
    decreases |rows|
  {
    var text, rest := FirstRowIsWritten(data, from, rows, wb, results);
    if i == 0 {
      start, before, after := from, "", rest;
    } else {
      var begun;
      start, begun, after := RowIsWritten(data, rows[0].end, rows[1..], wb, results, i - 1);
      before := text + begun;
      StandsFurther(data, start, rows[i], wb, results, rest, begun, after, text);
    }
  }

  lemma FirstRowIsWritten(data: string, from: nat, rows: seq<SheetRow>, wb: Workbook, results: map<string, Values>)
    returns (text: string, rest: string)
    requires RowsAt(data, from, rows) && Ready(wb) && rows != [] && Patched(data, from, rows, wb, results).Ok?
    ensures RowsAt(data, rows[0].end, rows[1..]) && Patched(data, rows[0].end, rows[1..], wb, results) == Ok(rest)
    ensures Patched(data, from, rows, wb, results).value == text + rest
    ensures Stands(data, from, rows[0], wb, results, text + rest, "", rest)
  {
    LineLettered(data, from, rows[0].cells, rows[0].end);
    LineClosed(data, from, rows[0].cells, rows[0].end);
    text := Text(LineOutcome(LineAt(data, from, rows[0].cells, rows[0].end), rows[0].number, wb, results).value);
    rest := Patched(data, rows[0].end, rows[1..], wb, results).value;
    assert "" + (text + rest) == text + rest;
  }
}

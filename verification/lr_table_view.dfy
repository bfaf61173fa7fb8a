/** The LR(1) table view (`LRTable` in frontend/src/components/LRTable.jsx).

    Cells arrive as text, already encoded as the legend shows: `sN` for a shift to state N,
    `rN` for a reduce by rule N, `acc` for accept and a bare `N` for a GOTO entry. A missing
    entry is `undefined`, modelled as `None`. Conflicts arrive as a list of records keyed by
    state and terminal. */
module LrTableView {
  import opened Wrappers
  import opened Strings
  import Table

  /** One record of `table_data.conflicts`. */
  datatype ConflictRecord = ConflictRecord(state: int, terminal: String, kind: String, action1: String, action2: String)

  /** The CSS class of a cell: the ones `getCellClassName` chooses, and the state column's. */
  datatype CellClass = ConflictCell | Plain | AcceptCell | ShiftCell | ReduceCell | GotoCell | StateCell

  /** The class names of the cells. */
  function ClassName(c: CellClass): String {
    match c
    case ConflictCell => "table-cell-conflict conflict-cell"
    case Plain => ""
    case AcceptCell => "table-cell-accept"
    case ShiftCell => "table-cell-shift"
    case ReduceCell => "table-cell-reduce"
    case GotoCell => "table-cell-goto"
    case StateCell => "table-cell-state"
  }

  /** Some record of `conflicts` sits at `(state, symbol)`. */
  predicate ConflictAt(conflicts: seq<ConflictRecord>, state: int, symbol: String) {
    exists i | 0 <= i < |conflicts| :: conflicts[i].state == state && conflicts[i].terminal == symbol
  }

  /** JavaScript truthiness of a cell value: `undefined` and `''` are falsy. */
  predicate Present(value: Option<String>) {
    value.Some? && value.value != ""
  }

  /** `getCellClassName(value, state, symbol, conflicts)`; `conflicts` is `None` when the
      argument is left out, as for GOTO cells. */
  function CellClassOf(value: Option<String>, state: int, symbol: String, conflicts: Option<seq<ConflictRecord>>): (r: CellClass)
    ensures r == ConflictCell <==> conflicts.Some? && ConflictAt(conflicts.value, state, symbol)
    ensures r != StateCell
    ensures r != ConflictCell ==> (r == Plain <==> !Present(value))
    ensures r != ConflictCell && Present(value) ==>
      && (r == AcceptCell <==> value.value == "acc")
      && (r == ShiftCell <==> value.value != "acc" && StartsWith(value.value, "s"))
      && (r == ReduceCell <==> value.value != "acc" && !StartsWith(value.value, "s") && StartsWith(value.value, "r"))
      && (r == GotoCell <==> value.value != "acc" && !StartsWith(value.value, "s") && !StartsWith(value.value, "r"))
  {
    if conflicts.Some? && ConflictAt(conflicts.value, state, symbol) then ConflictCell
    else if !Present(value) then Plain
    else if value.value == "acc" then AcceptCell
    else if StartsWith(value.value, "s") then ShiftCell
    else if StartsWith(value.value, "r") then ReduceCell
    else GotoCell
  }

  /** A GOTO cell is classified from its value alone, so it is never a conflict cell. */
  function GotoCellClass(value: Option<String>): (r: CellClass)
    ensures r != ConflictCell
    ensures r == Plain <==> !Present(value)
    ensures forall conflicts: seq<ConflictRecord>, state, symbol | !ConflictAt(conflicts, state, symbol) ::
      r == CellClassOf(value, state, symbol, Some(conflicts))
  {
    CellClassOf(value, 0, "", None)
  }

  /** Away from conflicts, the classifier depends on the value only: the coordinates matter
      only through a conflict record. */
  lemma ClassIndependentOfPlace(value: Option<String>, s1: int, x1: String, s2: int, x2: String, conflicts: seq<ConflictRecord>)
    requires !ConflictAt(conflicts, s1, x1) && !ConflictAt(conflicts, s2, x2)
    ensures CellClassOf(value, s1, x1, Some(conflicts)) == CellClassOf(value, s2, x2, None)
  {
  }

  // ---------------------------------------------------------------- the legend's encoding

  /** The text of an ACTION entry, as the legend writes it. */
  function ActionCellText(a: Table.Action): String {
    match a.kind
    case Shift => "s" + IntToString(a.value)
    case Reduce => "r" + IntToString(a.value)
    case Accept => "acc"
  }

  /** The text of a GOTO entry: the bare state number. */
  function GotoCellText(target: int): String {
    IntToString(target)
  }

  /** Away from conflicts, the classifier recovers the kind of every encoded ACTION entry, and
      every GOTO entry is classified as one. */
  lemma ClassOfEncodedCells(a: Table.Action, target: int, state: int, symbol: String, conflicts: seq<ConflictRecord>)
    requires !ConflictAt(conflicts, state, symbol)
    ensures a.kind == Table.Shift ==> CellClassOf(Some(ActionCellText(a)), state, symbol, Some(conflicts)) == ShiftCell
    ensures a.kind == Table.Reduce ==> CellClassOf(Some(ActionCellText(a)), state, symbol, Some(conflicts)) == ReduceCell
    ensures a.kind == Table.Accept ==> CellClassOf(Some(ActionCellText(a)), state, symbol, Some(conflicts)) == AcceptCell
    ensures GotoCellClass(Some(GotoCellText(target))) == GotoCell
  {
    var t := ActionCellText(a);
    if a.kind != Table.Accept {
      assert t[0] == (if a.kind == Table.Shift then 's' else 'r');
      assert t != "acc";
    }
    var g := GotoCellText(target);
    assert g[0] in "-0123456789";
    assert g != "acc" by {
      assert "acc"[0] !in "-0123456789";
    }
  }

  // ---------------------------------------------------------------- tooltip

  /** `conflicts.find(c => c.state === state && c.terminal === symbol)`. */
  function FirstConflict(conflicts: seq<ConflictRecord>, state: int, symbol: String): (r: Option<nat>)
    ensures r.Some? <==> ConflictAt(conflicts, state, symbol)
    ensures r.Some? ==> r.value < |conflicts| && conflicts[r.value].state == state && conflicts[r.value].terminal == symbol
    ensures r.Some? ==> forall i | 0 <= i < r.value :: !(conflicts[i].state == state && conflicts[i].terminal == symbol)
  {
    if conflicts == [] then None
    else if conflicts[0].state == state && conflicts[0].terminal == symbol then Some(0)
    else match FirstConflict(conflicts[1..], state, symbol)
      case None =>
        assert !ConflictAt(conflicts, state, symbol) by {
          forall i | 0 < i < |conflicts| ensures !(conflicts[i].state == state && conflicts[i].terminal == symbol) {
            assert conflicts[i] == conflicts[1..][i - 1];
          }
        }
        None
      case Some(k) =>
        assert conflicts[k + 1] == conflicts[1..][k];
        forall i | 1 <= i < k + 1 ensures !(conflicts[i].state == state && conflicts[i].terminal == symbol) {
          assert conflicts[i] == conflicts[1..][i - 1];
        }
        Some(k + 1)
  }

  /** The tooltip text of a conflicting cell. */
  function TooltipText(c: ConflictRecord): String {
    "Conflicto " + c.kind + ": " + c.action1 + " vs " + c.action2
  }

  // ---------------------------------------------------------------- status

  datatype Status = Success | ErrorStatus | Warning

  /** `getStatusColor`: success when the grammar is LR(1), else error when conflicts were
      counted, else warning. */
  function StatusOf(isLr1: bool, conflicts: int): (r: Status)
    ensures r == Success <==> isLr1
    ensures r == ErrorStatus <==> !isLr1 && conflicts > 0
    ensures r == Warning <==> !isLr1 && conflicts <= 0
  {
    if isLr1 then Success else if conflicts > 0 then ErrorStatus else Warning
  }

  /** With the statistics a table reports (`is_lr1 = not has_conflicts()` and
      `conflicts = len(conflicts)`), the status is success exactly for a conflict-free table
      and error otherwise: the warning branch is never taken. */
  lemma StatusOfTable(tb: Table.LrTable)
    ensures StatusOf(!Table.HasConflicts(tb), Table.ConflictCount(tb)) == (if Table.HasConflicts(tb) then ErrorStatus else Success)
    ensures StatusOf(!Table.HasConflicts(tb), Table.ConflictCount(tb)) != Warning
  {
  }

  // ---------------------------------------------------------------- rows

  /** One row of `table_data.table.rows`. */
  datatype RowRecord = RowRecord(state: int, action: map<String, String>, goto: map<String, String>)

  /** A rendered cell: its text (`value || '—'`), its class, and the tooltip of a conflict cell. */
  datatype Cell = Cell(text: String, cls: CellClass, tooltip: Option<String>)

  function Lookup(m: map<String, String>, k: String): Option<String> {
    if k in m then Some(m[k]) else None
  }

  function CellText(value: Option<String>): String {
    if Present(value) then value.value else "—"
  }

  /** `renderTableCell` for an ACTION cell. */
  function ActionCell(value: Option<String>, state: int, symbol: String, conflicts: seq<ConflictRecord>): (r: Cell)
    ensures r.cls == CellClassOf(value, state, symbol, Some(conflicts))
    ensures r.tooltip.Some? <==> ConflictAt(conflicts, state, symbol)
    ensures r.tooltip.Some? ==> r.tooltip.value == TooltipText(conflicts[FirstConflict(conflicts, state, symbol).value])
  {
    var tip := match FirstConflict(conflicts, state, symbol)
      case None => None
      case Some(i) => Some(TooltipText(conflicts[i]));
    Cell(CellText(value), CellClassOf(value, state, symbol, Some(conflicts)), tip)
  }

  /** The cells of one body row: the state (class `table-cell-state`), then one ACTION cell per action header, then one
      GOTO cell per goto header, in header order. */
  function RowCells(row: RowRecord, actionHeaders: seq<String>, gotoHeaders: seq<String>, conflicts: seq<ConflictRecord>): (r: seq<Cell>)
    ensures |r| == 1 + |actionHeaders| + |gotoHeaders|
    ensures r[0] == Cell(IntToString(row.state), StateCell, None)
    ensures forall i | 0 <= i < |actionHeaders| ::
      r[1 + i] == ActionCell(Lookup(row.action, actionHeaders[i]), row.state, actionHeaders[i], conflicts)
    ensures forall j | 0 <= j < |gotoHeaders| ::
      && r[1 + |actionHeaders| + j].cls == GotoCellClass(Lookup(row.goto, gotoHeaders[j]))
      && r[1 + |actionHeaders| + j].text == CellText(Lookup(row.goto, gotoHeaders[j]))
      && r[1 + |actionHeaders| + j].cls != ConflictCell && r[1 + |actionHeaders| + j].tooltip.None?
  {
    var actions := seq(|actionHeaders|, i requires 0 <= i < |actionHeaders| =>
                         ActionCell(Lookup(row.action, actionHeaders[i]), row.state, actionHeaders[i], conflicts));
    var gotos := seq(|gotoHeaders|, j requires 0 <= j < |gotoHeaders| =>
                       Cell(CellText(Lookup(row.goto, gotoHeaders[j])), GotoCellClass(Lookup(row.goto, gotoHeaders[j])), None));
    [Cell(IntToString(row.state), StateCell, None)] + actions + gotos
  }

  /** The header row: `Estado`, then the action headers, then the goto headers. */
  function HeaderCells(actionHeaders: seq<String>, gotoHeaders: seq<String>): (r: seq<String>)
    ensures |r| == 1 + |actionHeaders| + |gotoHeaders|
    ensures r[0] == "Estado" && r[1..1 + |actionHeaders|] == actionHeaders && r[1 + |actionHeaders|..] == gotoHeaders
  {
    ["Estado"] + actionHeaders + gotoHeaders
  }
}

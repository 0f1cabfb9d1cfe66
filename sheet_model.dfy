/**
 * The shapes of the spreadsheet service's sheets, rows, columns, cells, folders and
 * cell-history entries, as far as the reconstruction workflow reads them.
 *
 * Identifiers are strings; an identifier the service did not send is the empty
 * string, which the source treats exactly like a missing one (both are falsy).
 * Timestamps are integers on one clock.
 */
module SheetModel {
  import opened JsValues

  type Id = string

  /** The state of one cell at one moment, every property optional (None = undefined). */
  datatype CellFields = CellFields(
    value: Option<Json>,
    displayValue: Option<Json>,
    formula: Option<Json>,
    format: Option<Json>,
    conditionalFormat: Option<Json>,
    hyperlink: Option<Json>,
    image: Option<Json>,
    linkInFromCell: Option<Json>,
    linksOutToCells: Option<Json>,
    objectValue: Option<Json>,
    overrideValidation: Option<Json>,
    strict: Option<Json>,
    columnType: Option<Json>)

  /** One entry of a cell's change history: when it was made and what the cell then held. */
  datatype HistoryEntry = HistoryEntry(modifiedAt: int, fields: CellFields)

  /** A cell of the live sheet. */
  datatype Cell = Cell(
    columnId: Id,
    value: Option<Json>,
    formula: Option<Json>,
    format: Option<Json>,
    hyperlink: Option<Json>,
    image: Option<Json>,
    objectValue: Option<Json>)

  datatype Row = Row(id: Id, rowNumber: int, createdAt: Option<int>, cells: seq<Cell>)

  datatype Column = Column(
    id: Id,
    title: string,
    columnType: Option<Json>,
    systemColumnType: Option<Json>,
    systemColumnId: Option<Json>,
    format: Option<Json>)

  /** `workspaceId` is "" when the sheet is not inside a workspace. */
  datatype Sheet = Sheet(id: Id, name: string, workspaceId: Id, columns: seq<Column>, rows: seq<Row>)

  datatype Folder = Folder(id: Id, name: string)

  /** A (row, column) pair naming one cell of the source sheet. */
  datatype CellRef = CellRef(rowId: Id, columnId: Id)

  /** The four column titles the service fills in by itself. */
  predicate IsSystemTitle(title: string)
  {
    title == "Modified By" || title == "Modified Date" || title == "Created By" || title == "Created Date"
  }

  /** The position of the first element whose key is the id, |s| when there is none. */
  function FirstIndex<T>(s: seq<T>, key: T -> Id, id: Id): (k: nat)
    ensures k <= |s|
    ensures k < |s| ==> key(s[k]) == id
    ensures forall j :: 0 <= j < k ==> key(s[j]) != id
  {
    if s == [] then 0 else if key(s[0]) == id then 0 else 1 + FirstIndex(s[1..], key, id)
  }

  function IdOfRow(row: Row): Id
  {
    row.id
  }

  function ColumnIdOfCell(cell: Cell): Id
  {
    cell.columnId
  }

  /** `rows.find(row => row.id === id)`: the first row with the id. */
  function FindRow(rows: seq<Row>, id: Id): (r: Option<Row>)
    ensures r.Some? ==> r.value in rows && r.value.id == id
    ensures r.Some? ==> FirstIndex(rows, IdOfRow, id) < |rows| && r.value == rows[FirstIndex(rows, IdOfRow, id)]
    ensures r.None? ==> forall i :: 0 <= i < |rows| ==> rows[i].id != id
  {
    if rows == [] then None else if rows[0].id == id then Some(rows[0]) else FindRow(rows[1..], id)
  }

  /** `cells.find(cell => cell.columnId === columnId)`: the first cell with the column id. */
  function FindCell(cells: seq<Cell>, columnId: Id): (r: Option<Cell>)
    ensures r.Some? ==> r.value in cells && r.value.columnId == columnId
    ensures r.Some? ==>
              FirstIndex(cells, ColumnIdOfCell, columnId) < |cells|
              && r.value == cells[FirstIndex(cells, ColumnIdOfCell, columnId)]
    ensures r.None? ==> forall i :: 0 <= i < |cells| ==> cells[i].columnId != columnId
  {
    if cells == [] then None
    else if cells[0].columnId == columnId then Some(cells[0])
    else FindCell(cells[1..], columnId)
  }

  /** `sheet.rows.find(row => row.id === rowId)?.cells.find(c => c.columnId === columnId)` */
  function SourceCell(rows: seq<Row>, rowId: Id, columnId: Id): Option<Cell>
  {
    match FindRow(rows, rowId)
    case None => None
    case Some(row) => FindCell(row.cells, columnId)
  }
}

/**
 * The decisions createVersionBackup (src/smartsheet-workflows.ts) takes once it has
 * the source sheet, the freshly copied archive sheet and the historical cell values:
 * which source row corresponds to which archive row, how many rows the update pass
 * touches, and which rows and cells are written to the archive.
 */
module ArchiveRows {
  import opened JsValues
  import opened SheetModel
  import opened CellPayload

  // ---------------------------------------------------------------------------
  // Row mapping by row number

  /** `archiveRowNumberMap`: row number to archive row id; a later row with the same number wins. */
  function RowNumberMap(rows: seq<Row>): map<int, Id>
  {
    if rows == [] then map[]
    else
      var last := rows[|rows| - 1];
      RowNumberMap(rows[..|rows| - 1])[last.rowNumber := last.id]
  }

  /** `rows[i]` is the last of `rows` numbered `n`. */
  ghost predicate LastNumbered(rows: seq<Row>, n: int, i: int)
  {
    0 <= i < |rows| && rows[i].rowNumber == n && forall j :: i < j < |rows| ==> rows[j].rowNumber != n
  }

  /** A number is mapped exactly when some archive row has it, and to the last such row's id. */
  lemma {:induction false} RowNumberMapLastWins(rows: seq<Row>, n: int)
    ensures n in RowNumberMap(rows) <==> exists i :: 0 <= i < |rows| && rows[i].rowNumber == n
    ensures n in RowNumberMap(rows) ==> exists i :: LastNumbered(rows, n, i) && RowNumberMap(rows)[n] == rows[i].id
  {
    if rows != [] {
      var init := rows[..|rows| - 1];
      RowNumberMapLastWins(init, n);
      if rows[|rows| - 1].rowNumber == n {
        assert LastNumbered(rows, n, |rows| - 1);
      } else {
        if n in RowNumberMap(init) {
          var i :| LastNumbered(init, n, i) && RowNumberMap(init)[n] == init[i].id;
          forall j | i < j < |rows| ensures rows[j].rowNumber != n {
            if j < |init| {
              assert rows[j] == init[j];
            }
          }
          assert LastNumbered(rows, n, i) && rows[i] == init[i];
        }
        if exists i :: 0 <= i < |rows| && rows[i].rowNumber == n {
          var i :| 0 <= i < |rows| && rows[i].rowNumber == n;
          assert init[i] == rows[i];
        }
      }
    }
  }

  /** The archive row a source row is matched with, when there is one with a truthy id. */
  predicate Matched(numbers: map<int, Id>, row: Row)
  {
    row.rowNumber in numbers && numbers[row.rowNumber] != ""
  }

  /** `rowIdMap`: each matched source row's id to its archive row's id; a later source row wins. */
  function RowIdMap(sourceRows: seq<Row>, numbers: map<int, Id>): map<Id, Id>
  {
    if sourceRows == [] then map[]
    else
      var last := sourceRows[|sourceRows| - 1];
      var m := RowIdMap(sourceRows[..|sourceRows| - 1], numbers);
      if Matched(numbers, last) then m[last.id := numbers[last.rowNumber]] else m
  }

  /** `sourceRows[i]` is the last matched source row with id `id`. */
  ghost predicate LastMatched(sourceRows: seq<Row>, numbers: map<int, Id>, id: Id, i: int)
  {
    0 <= i < |sourceRows| && sourceRows[i].id == id && Matched(numbers, sourceRows[i])
    && forall j :: i < j < |sourceRows| && sourceRows[j].id == id ==> !Matched(numbers, sourceRows[j])
  }

  /**
   * A source row id is mapped exactly when some source row with that id is matched, and
   * it maps to the archive row of the last such row, which is never empty.
   */
  lemma {:induction false} RowIdMapMember(sourceRows: seq<Row>, numbers: map<int, Id>, id: Id)
    ensures id in RowIdMap(sourceRows, numbers) <==>
              exists i :: 0 <= i < |sourceRows| && sourceRows[i].id == id && Matched(numbers, sourceRows[i])
    ensures id in RowIdMap(sourceRows, numbers) ==>
              RowIdMap(sourceRows, numbers)[id] != ""
              && exists i :: LastMatched(sourceRows, numbers, id, i)
                             && RowIdMap(sourceRows, numbers)[id] == numbers[sourceRows[i].rowNumber]
  {
    if sourceRows != [] {
      var init := sourceRows[..|sourceRows| - 1];
      var last := sourceRows[|sourceRows| - 1];
      RowIdMapMember(init, numbers, id);
      if last.id == id && Matched(numbers, last) {
        assert LastMatched(sourceRows, numbers, id, |sourceRows| - 1);
      } else {
        var m := RowIdMap(init, numbers);
        if id in m {
          var i :| LastMatched(init, numbers, id, i) && m[id] == numbers[init[i].rowNumber];
          forall j | i < j < |sourceRows| && sourceRows[j].id == id ensures !Matched(numbers, sourceRows[j]) {
            if j < |init| {
              assert sourceRows[j] == init[j];
            }
          }
          assert LastMatched(sourceRows, numbers, id, i) && sourceRows[i] == init[i];
        }
        if exists i :: 0 <= i < |sourceRows| && sourceRows[i].id == id && Matched(numbers, sourceRows[i]) {
          var i :| 0 <= i < |sourceRows| && sourceRows[i].id == id && Matched(numbers, sourceRows[i]);
          assert init[i] == sourceRows[i];
        }
      }
    }
  }

  /** The two loops that build `archiveRowNumberMap` and then `rowIdMap`. */
  method BuildRowIdMap(archiveRows: seq<Row>, sourceRows: seq<Row>) returns (rowIdMap: map<Id, Id>)
    ensures rowIdMap == RowIdMap(sourceRows, RowNumberMap(archiveRows))
  {
    var numbers := map[];
    for i := 0 to |archiveRows|
      invariant numbers == RowNumberMap(archiveRows[..i])
    {
      assert archiveRows[..i + 1][..i] == archiveRows[..i];
      numbers := numbers[archiveRows[i].rowNumber := archiveRows[i].id];
    }
    assert archiveRows[..|archiveRows|] == archiveRows;
    rowIdMap := map[];
    for i := 0 to |sourceRows|
      invariant rowIdMap == RowIdMap(sourceRows[..i], numbers)
    {
      assert sourceRows[..i + 1][..i] == sourceRows[..i];
      var row := sourceRows[i];
      if row.rowNumber in numbers {
        var archiveRowId := numbers[row.rowNumber];
        if archiveRowId != "" {
          rowIdMap := rowIdMap[row.id := archiveRowId];
        }
      }
    }
    assert sourceRows[..|sourceRows|] == sourceRows;
  }

  // ---------------------------------------------------------------------------
  // Everything the row assembly consults

  /**
   * `source` is the live sheet, `columnIdMap` the source-to-archive column ids,
   * `systemIds` the archive's system column ids and `historical` the values found for
   * each (row id, column id) of the source.
   */
  datatype Plan = Plan(
    source: Sheet,
    columnIdMap: map<Id, Id>,
    systemIds: set<Id>,
    historical: map<Id, map<Id, CellFields>>,
    includeFormulas: bool)

  // ---------------------------------------------------------------------------
  // The update pass, of which only the number of rows survives

  /** `columnIdMap.get(id) || id` */
  function UpdateTarget(columnIdMap: map<Id, Id>, id: Id): (t: Id)
    ensures id in columnIdMap && columnIdMap[id] != "" ==> t == columnIdMap[id]
    ensures !(id in columnIdMap && columnIdMap[id] != "") ==> t == id
  {
    if id in columnIdMap && columnIdMap[id] != "" then columnIdMap[id] else id
  }

  /** A row with historical values yields an update when it is mapped and one of its cells is not a system column. */
  ghost predicate Updated(plan: Plan, rowIdMap: map<Id, Id>, rowId: Id)
  {
    rowId in plan.historical && rowId in rowIdMap
    && exists c :: c in plan.historical[rowId] && UpdateTarget(plan.columnIdMap, c) !in plan.systemIds
  }

  /** `rowUpdates.length`: the number of rows the update pass would have written. */
  ghost function RowsUpdated(plan: Plan, rowIdMap: map<Id, Id>): (n: nat)
    ensures n <= |plan.historical|
  {
    var rows := set r | r in plan.historical && Updated(plan, rowIdMap, r);
    assert rows <= plan.historical.Keys;
    SubsetCard(rows, plan.historical.Keys);
    |rows|
  }

  lemma SubsetCard<T>(a: set<T>, b: set<T>)
    requires a <= b
    ensures |a| <= |b|
  {
    if a != {} {
      var x :| x in a;
      SubsetCard(a - {x}, b - {x});
    }
  }

  /** With every row mapped and no system column in the archive, each row with values counts. */
  lemma RowsUpdatedAll(plan: Plan, rowIdMap: map<Id, Id>)
    requires plan.systemIds == {}
    requires forall r :: r in plan.historical ==> r in rowIdMap && plan.historical[r] != map[]
    ensures RowsUpdated(plan, rowIdMap) == |plan.historical|
  {
    var rows := set r | r in plan.historical && Updated(plan, rowIdMap, r);
    forall r | r in plan.historical
      ensures r in rows
    {
      var c :| c in plan.historical[r];
      assert UpdateTarget(plan.columnIdMap, c) !in plan.systemIds;
    }
    assert rows == plan.historical.Keys;
  }

  // ---------------------------------------------------------------------------
  // The rows to add

  /** `columnIdMap.get(column.id)`, None when it is missing or empty. */
  function TargetOf(columnIdMap: map<Id, Id>, column: Column): (t: Option<Id>)
    ensures t.Some? <==> column.id in columnIdMap && columnIdMap[column.id] != ""
    ensures t.Some? ==> t.value == columnIdMap[column.id]
  {
    if column.id in columnIdMap && columnIdMap[column.id] != "" then Some(columnIdMap[column.id]) else None
  }

  /** A column is left out of the archive rows when it is unmapped or counts as a system column. */
  predicate Skipped(plan: Plan, column: Column)
  {
    var t := TargetOf(plan.columnIdMap, column);
    t.None? || t.value in plan.systemIds || FieldTruthy(column.systemColumnType) || IsSystemTitle(column.title)
  }

  /** `historicalCellValues[rowId]?.[columnId]` */
  function HistoryOf(plan: Plan, rowId: Id, columnId: Id): Option<CellFields>
  {
    if rowId in plan.historical && columnId in plan.historical[rowId]
    then Some(plan.historical[rowId][columnId]) else None
  }

  /** The payload a kept column gets in a row. */
  function CellFor(plan: Plan, row: Row, column: Column): CellAdd
    requires !Skipped(plan, column)
  {
    CellPayload.CellPayload(TargetOf(plan.columnIdMap, column).value, column, HistoryOf(plan, row.id, column.id),
                SourceCell(plan.source.rows, row.id, column.id), plan.includeFormulas)
  }

  /** The cells of one row, for the given columns in order. */
  function RowCells(plan: Plan, row: Row, columns: seq<Column>): seq<CellAdd>
  {
    if columns == [] then []
    else
      var last := columns[|columns| - 1];
      RowCells(plan, row, columns[..|columns| - 1]) + (if Skipped(plan, last) then [] else [CellFor(plan, row, last)])
  }

  /** The rows to add, for the given source rows in order: rows without values or cells are dropped. */
  function RowsToAdd(plan: Plan, rows: seq<Row>): seq<RowAdd>
  {
    if rows == [] then []
    else
      var last := rows[|rows| - 1];
      var cells := RowCells(plan, last, plan.source.columns);
      RowsToAdd(plan, rows[..|rows| - 1])
        + (if last.id !in plan.historical || cells == [] then [] else [RowAdd(true, cells)])
  }

  /** The loop over the source columns for one row. */
  method AssembleCells(plan: Plan, row: Row) returns (cells: seq<CellAdd>)
    ensures cells == RowCells(plan, row, plan.source.columns)
  {
    var columns := plan.source.columns;
    cells := [];
    for i := 0 to |columns|
      invariant cells == RowCells(plan, row, columns[..i])
    {
      assert columns[..i + 1][..i] == columns[..i];
      var column := columns[i];
      var target := if column.id in plan.columnIdMap then plan.columnIdMap[column.id] else "";
      if target == "" {
        continue;
      }
      if target in plan.systemIds || FieldTruthy(column.systemColumnType) || IsSystemTitle(column.title) {
        continue;
      }
      var history := if row.id in plan.historical && column.id in plan.historical[row.id]
                     then Some(plan.historical[row.id][column.id]) else None;
      var cell := BuildCellAdd(target, column, history, SourceCell(plan.source.rows, row.id, column.id),
                               plan.includeFormulas);
      cells := cells + [cell];
    }
    assert columns[..|columns|] == columns;
  }

  /** The loop over the source rows. */
  method AssembleRows(plan: Plan) returns (rows: seq<RowAdd>)
    ensures rows == RowsToAdd(plan, plan.source.rows)
  {
    var sourceRows := plan.source.rows;
    rows := [];
    for i := 0 to |sourceRows|
      invariant rows == RowsToAdd(plan, sourceRows[..i])
    {
      assert sourceRows[..i + 1][..i] == sourceRows[..i];
      var row := sourceRows[i];
      if row.id !in plan.historical {
        continue;
      }
      var cells := AssembleCells(plan, row);
      if |cells| > 0 {
        rows := rows + [RowAdd(true, cells)];
      }
    }
    assert sourceRows[..|sourceRows|] == sourceRows;
  }

  /**
   * The cells of a row are exactly the payloads of its kept columns: each one well
   * formed, aimed at a mapped, non-system archive column.
   */
  lemma RowCellsMember(plan: Plan, row: Row, columns: seq<Column>, c: CellAdd)
    ensures c in RowCells(plan, row, columns) <==>
              exists j :: 0 <= j < |columns| && !Skipped(plan, columns[j]) && c == CellFor(plan, row, columns[j])
    ensures c in RowCells(plan, row, columns) ==> WellFormedCell(c) && c.columnId != "" && c.columnId !in plan.systemIds
  {
    RowCellsFrom(plan, row, columns, c);
    if c in RowCells(plan, row, columns) {
      var j :| 0 <= j < |columns| && KeptCell(plan, row, columns[j], c);
      CellForWellFormed(plan, row, columns[j]);
    }
  }

  /** A kept column's payload is well formed and aimed at a mapped, non-system archive column. */
  lemma CellForWellFormed(plan: Plan, row: Row, column: Column)
    requires !Skipped(plan, column)
    ensures var c := CellFor(plan, row, column);
            WellFormedCell(c) && c.columnId != "" && c.columnId !in plan.systemIds
  {
  }

  /** `c` is the payload that kept column `column` yields in `row`. */
  ghost predicate KeptCell(plan: Plan, row: Row, column: Column, c: CellAdd)
  {
    !Skipped(plan, column) && c == CellFor(plan, row, column)
  }

  lemma RowCellsLast(plan: Plan, row: Row, columns: seq<Column>, c: CellAdd)
    requires columns != []
    ensures c in RowCells(plan, row, columns) <==>
              c in RowCells(plan, row, columns[..|columns| - 1]) || KeptCell(plan, row, columns[|columns| - 1], c)
  {
  }

  lemma RowCellsFrom(plan: Plan, row: Row, columns: seq<Column>, c: CellAdd)
    ensures c in RowCells(plan, row, columns) <==> exists j :: 0 <= j < |columns| && KeptCell(plan, row, columns[j], c)
  {
    if c in RowCells(plan, row, columns) {
      RowCellsFromIn(plan, row, columns, c);
    } else {
      forall j | 0 <= j < |columns| ensures !KeptCell(plan, row, columns[j], c) {
        if KeptCell(plan, row, columns[j], c) {
          RowCellsFromKept(plan, row, columns, c, j);
        }
      }
    }
  }

  lemma {:induction false} RowCellsFromIn(plan: Plan, row: Row, columns: seq<Column>, c: CellAdd)
    requires c in RowCells(plan, row, columns)
    ensures exists j :: 0 <= j < |columns| && KeptCell(plan, row, columns[j], c)
  {
    var init := columns[..|columns| - 1];
    RowCellsLast(plan, row, columns, c);
    if c in RowCells(plan, row, init) {
      RowCellsFromIn(plan, row, init, c);
      var j :| 0 <= j < |init| && KeptCell(plan, row, init[j], c);
      assert columns[j] == init[j];
    } else {
      assert KeptCell(plan, row, columns[|columns| - 1], c);
    }
  }

  lemma {:induction false} RowCellsFromKept(plan: Plan, row: Row, columns: seq<Column>, c: CellAdd, j: nat)
    requires j < |columns| && KeptCell(plan, row, columns[j], c)
    ensures c in RowCells(plan, row, columns)
  {
    var init := columns[..|columns| - 1];
    RowCellsLast(plan, row, columns, c);
    if j < |init| {
      assert columns[j] == init[j];
      RowCellsFromKept(plan, row, init, c, j);
    } else {
      assert KeptCell(plan, row, columns[|columns| - 1], c);
    }
  }

  /** Rows are assembled source row by source row, so the output follows the source order. */
  lemma {:induction false} RowsToAddAppend(plan: Plan, a: seq<Row>, b: seq<Row>)
    ensures RowsToAdd(plan, a + b) == RowsToAdd(plan, a) + RowsToAdd(plan, b)
    decreases |b|
  {
    if b == [] {
      assert a + b == a;
    } else {
      assert (a + b)[..|a + b| - 1] == a + b[..|b| - 1];
      RowsToAddAppend(plan, a, b[..|b| - 1]);
    }
  }

  /** Every added row goes to the bottom and holds the non-empty cells of a source row with values. */
  lemma {:induction false} RowsToAddShape(plan: Plan, rows: seq<Row>)
    ensures |RowsToAdd(plan, rows)| <= |rows|
    ensures forall k :: 0 <= k < |RowsToAdd(plan, rows)| ==>
              RowsToAdd(plan, rows)[k].toBottom && RowsToAdd(plan, rows)[k].cells != []
              && exists i :: 0 <= i < |rows| && rows[i].id in plan.historical
                             && RowsToAdd(plan, rows)[k].cells == RowCells(plan, rows[i], plan.source.columns)
  {
    if rows != [] {
      var init := rows[..|rows| - 1];
      RowsToAddShape(plan, init);
      var r := RowsToAdd(plan, rows);
      var p := RowsToAdd(plan, init);
      forall k | 0 <= k < |r|
        ensures r[k].toBottom && r[k].cells != []
                && exists i :: 0 <= i < |rows| && rows[i].id in plan.historical
                               && r[k].cells == RowCells(plan, rows[i], plan.source.columns)
      {
        if k < |p| {
          assert r[k] == p[k];
          var i :| 0 <= i < |init| && init[i].id in plan.historical
                   && p[k].cells == RowCells(plan, init[i], plan.source.columns);
          assert rows[i] == init[i];
        } else {
          assert rows[|rows| - 1].id in plan.historical;
        }
      }
    }
  }

  /** Every cell of every added row is well formed and aimed at a mapped, non-system column. */
  lemma RowsToAddWellFormed(plan: Plan)
    ensures forall k, c :: 0 <= k < |RowsToAdd(plan, plan.source.rows)| && c in RowsToAdd(plan, plan.source.rows)[k].cells ==>
              WellFormedCell(c) && c.columnId != "" && c.columnId !in plan.systemIds
  {
    var rows := plan.source.rows;
    RowsToAddShape(plan, rows);
    forall k, c | 0 <= k < |RowsToAdd(plan, rows)| && c in RowsToAdd(plan, rows)[k].cells
      ensures WellFormedCell(c) && c.columnId != "" && c.columnId !in plan.systemIds
    {
      var i :| 0 <= i < |rows| && rows[i].id in plan.historical
               && RowsToAdd(plan, rows)[k].cells == RowCells(plan, rows[i], plan.source.columns);
      RowCellsMember(plan, rows[i], plan.source.columns, c);
    }
  }

  /** A kept "Duration" column always receives the fixed formula and no value. */
  lemma DurationCell(plan: Plan, row: Row, column: Column)
    requires !Skipped(plan, column) && column.title == "Duration"
    ensures CellFor(plan, row, column).formula == Some(JStr(DurationFormula))
    ensures CellFor(plan, row, column).value.None?
  {
  }
}

/**
 * The list helpers of src/smartsheet-utils.ts that bound and shape the reconstruction:
 * which cells existed at the target time, batching, system-column detection and the
 * two-pass mapping of source column ids onto the copied sheet's column ids.
 */
module SheetUtils {
  import opened JsValues
  import opened SheetModel

  // ---------------------------------------------------------------------------
  // getCellsExistingAtTime

  /** A row whose createdAt is present and later than the target did not exist yet. */
  predicate CreatedAfter(row: Row, target: int)
  {
    row.createdAt.Some? && row.createdAt.value > target
  }

  /** A cell with a truthy column id and a value that is neither null nor undefined. */
  predicate HoldsValue(cell: Cell)
  {
    cell.columnId != "" && Defined(cell.value)
  }

  /** The (row, column) pairs one row contributes, in cell order. */
  function RowCandidates(rowId: Id, cells: seq<Cell>): seq<CellRef>
  {
    if cells == [] then []
    else
      var last := cells[|cells| - 1];
      RowCandidates(rowId, cells[..|cells| - 1]) + (if HoldsValue(last) then [CellRef(rowId, last.columnId)] else [])
  }

  /** The candidate cells of a sheet: row order, then cell order. */
  function ExistingCells(rows: seq<Row>, target: int): seq<CellRef>
  {
    if rows == [] then []
    else
      var last := rows[|rows| - 1];
      ExistingCells(rows[..|rows| - 1], target) + (if CreatedAfter(last, target) then [] else RowCandidates(last.id, last.cells))
  }

  method GetCellsExistingAtTime(rows: seq<Row>, target: int) returns (existing: seq<CellRef>)
    ensures existing == ExistingCells(rows, target)
  {
    existing := [];
    for i := 0 to |rows|
      invariant existing == ExistingCells(rows[..i], target)
    {
      assert rows[..i + 1][..i] == rows[..i];
      var row := rows[i];
      if CreatedAfter(row, target) {
        continue;
      }
      for j := 0 to |row.cells|
        invariant existing == ExistingCells(rows[..i], target) + RowCandidates(row.id, row.cells[..j])
      {
        assert row.cells[..j + 1][..j] == row.cells[..j];
        var cell := row.cells[j];
        if cell.columnId == "" {
          continue;
        }
        if Defined(cell.value) {
          existing := existing + [CellRef(row.id, cell.columnId)];
        }
      }
      assert row.cells[..|row.cells|] == row.cells;
    }
    assert rows[..|rows|] == rows;
  }

  lemma {:induction false} RowCandidatesMember(rowId: Id, cells: seq<Cell>, ref: CellRef)
    ensures ref in RowCandidates(rowId, cells) <==>
      ref.rowId == rowId && exists j :: 0 <= j < |cells| && HoldsValue(cells[j]) && cells[j].columnId == ref.columnId
  {
    if cells != [] {
      var init := cells[..|cells| - 1];
      RowCandidatesMember(rowId, init, ref);
      if ref.rowId == rowId && (exists j :: 0 <= j < |cells| && HoldsValue(cells[j]) && cells[j].columnId == ref.columnId) {
        var j :| 0 <= j < |cells| && HoldsValue(cells[j]) && cells[j].columnId == ref.columnId;
        if j < |cells| - 1 {
          assert init[j] == cells[j];
        }
      }
    }
  }

  /**
   * A pair is a candidate exactly when some row that already existed at the target has
   * a cell with that column id holding a value.
   */
  lemma {:induction false} ExistingCellsMember(rows: seq<Row>, target: int, ref: CellRef)
    ensures ref in ExistingCells(rows, target) <==>
      exists i, j :: 0 <= i < |rows| && 0 <= j < |rows[i].cells| && rows[i].id == ref.rowId
        && !CreatedAfter(rows[i], target) && HoldsValue(rows[i].cells[j]) && rows[i].cells[j].columnId == ref.columnId
  {
    if rows != [] {
      var init := rows[..|rows| - 1];
      var last := rows[|rows| - 1];
      ExistingCellsMember(init, target, ref);
      RowCandidatesMember(last.id, last.cells, ref);
      if exists i, j :: (0 <= i < |rows| && 0 <= j < |rows[i].cells| && rows[i].id == ref.rowId
        && !CreatedAfter(rows[i], target) && HoldsValue(rows[i].cells[j]) && rows[i].cells[j].columnId == ref.columnId)
      {
        var i, j :| 0 <= i < |rows| && 0 <= j < |rows[i].cells| && rows[i].id == ref.rowId
          && !CreatedAfter(rows[i], target) && HoldsValue(rows[i].cells[j]) && rows[i].cells[j].columnId == ref.columnId;
        if i < |rows| - 1 {
          assert init[i] == rows[i];
        }
      }
    }
  }

  /** The candidates of two runs of rows are the candidates of each, in order. */
  lemma {:induction false} ExistingCellsAppend(a: seq<Row>, b: seq<Row>, target: int)
    ensures ExistingCells(a + b, target) == ExistingCells(a, target) + ExistingCells(b, target)
  {
    if b != [] {
      assert (a + b)[..|a + b| - 1] == a + b[..|b| - 1];
      ExistingCellsAppend(a, b[..|b| - 1], target);
    } else {
      assert a + b == a;
    }
  }

  /** A row created after the target contributes nothing, wherever it stands. */
  lemma LaterRowIgnored(before: seq<Row>, row: Row, after: seq<Row>, target: int)
    requires CreatedAfter(row, target)
    ensures ExistingCells(before + [row] + after, target) == ExistingCells(before + after, target)
  {
    ExistingCellsAppend(before + [row], after, target);
    ExistingCellsAppend(before, after, target);
    ExistingCellsAppend(before, [row], target);
    assert ExistingCells([row], target) == [] by {
      assert [row][..0] == [];
    }
  }

  // ---------------------------------------------------------------------------
  // chunkArray and processBatches

  function Flatten<T>(chunks: seq<seq<T>>): seq<T>
  {
    if chunks == [] then [] else Flatten(chunks[..|chunks| - 1]) + chunks[|chunks| - 1]
  }

  lemma {:induction false} FlattenAppend<T>(a: seq<seq<T>>, b: seq<seq<T>>)
    ensures Flatten(a + b) == Flatten(a) + Flatten(b)
  {
    if b != [] {
      assert (a + b)[..|a + b| - 1] == a + b[..|b| - 1];
      FlattenAppend(a, b[..|b| - 1]);
    } else {
      assert a + b == a;
    }
  }

  /** An item of one of the chunks is an item of their concatenation. */
  lemma {:induction false} FlattenMember<T>(chunks: seq<seq<T>>, k: nat, x: T)
    requires k < |chunks| && x in chunks[k]
    ensures x in Flatten(chunks)
  {
    if k < |chunks| - 1 {
      FlattenMember(chunks[..|chunks| - 1], k, x);
    }
  }

  /** The shape chunkArray promises: every chunk full except the last, which has 1..size items. */
  ghost predicate ChunkedBy<T>(chunks: seq<seq<T>>, size: int)
  {
    && (forall k :: 0 <= k < |chunks| ==> 1 <= |chunks[k]| <= size)
    && (forall k :: 0 <= k < |chunks| - 1 ==> |chunks[k]| == size)
  }

  /**
   * chunkArray: consecutive slices of `size` items. With size <= 0 the source loops
   * forever on a non-empty array, so a non-positive size is admitted only for [].
   */
  method ChunkArray<T>(items: seq<T>, size: int) returns (chunks: seq<seq<T>>)
    requires size > 0 || items == []
    ensures Flatten(chunks) == items
    ensures ChunkedBy(chunks, size)
    ensures items == [] <==> chunks == []
  {
    chunks := [];
    var i := 0;
    // `i += size` in the source; stepping to `end` instead differs only once `i` passes
    // the end of the items, where the loop stops either way.
    while i < |items|
      invariant i <= |items| && Flatten(chunks) == items[..i]
      invariant ChunkedBy(chunks, size)
      invariant i < |items| ==> forall k :: 0 <= k < |chunks| ==> |chunks[k]| == size
      invariant chunks == [] <==> i == 0
      decreases |items| - i
    {
      var end := if i + size < |items| then i + size else |items|;
      var chunk := items[i..end];
      ChunkStep(items, chunks, i, end, size);
      chunks := chunks + [chunk];
      i := end;
    }
    assert items[..i] == items;
  }

  /** Appending the next slice keeps the chunks a flattening of a prefix of the items. */
  lemma ChunkStep<T>(items: seq<T>, chunks: seq<seq<T>>, i: nat, end: nat, size: int)
    requires i < end <= |items| && end <= i + size
    requires Flatten(chunks) == items[..i]
    ensures Flatten(chunks + [items[i..end]]) == items[..end]
  {
    assert items[..end] == items[..i] + items[i..end];
    assert (chunks + [items[i..end]])[..|chunks|] == chunks;
  }

  lemma PauseCount(n: int, size: int, c: int)
    requires size > 0 && c >= 1
    requires (c - 1) * size < n <= c * size
    ensures (n - 1) / size == c - 1
  {
    var q, r := (n - 1) / size, (n - 1) % size;
    var d := q - (c - 1);
    assert d * size == (n - 1 - (c - 1) * size) - r;
  }

  lemma {:induction false} ChunkTotal<T>(chunks: seq<seq<T>>, size: int)
    requires ChunkedBy(chunks, size) && chunks != []
    ensures (|chunks| - 1) * size < |Flatten(chunks)| <= |chunks| * size
  {
    var init := chunks[..|chunks| - 1];
    FullChunks(init, size);
  }

  lemma {:induction false} FullChunks<T>(chunks: seq<seq<T>>, size: int)
    requires forall k :: 0 <= k < |chunks| ==> |chunks[k]| == size
    ensures |Flatten(chunks)| == |chunks| * size
  {
    if chunks != [] {
      var init := chunks[..|chunks| - 1];
      FullChunks(init, size);
      assert |Flatten(chunks)| == |Flatten(init)| + size;
      assert |init| * size + size == (|init| + 1) * size;
    }
  }

  /**
   * processBatches with the batches run one after another: every item is processed
   * once, results keep item order, and a pause separates consecutive batches when
   * the delay is positive.
   */
  method ProcessBatches<T, R>(items: seq<T>, batchSize: int, process: T -> R, delayMs: int)
    returns (results: seq<R>, pauses: nat)
    requires batchSize > 0 || items == []
    ensures |results| == |items|
    ensures forall k :: 0 <= k < |items| ==> results[k] == process(items[k])
    ensures pauses == if delayMs > 0 && items != [] then (|items| - 1) / batchSize else 0
  {
    var chunks := ChunkArray(items, batchSize);
    results, pauses := [], 0;
    for i := 0 to |chunks|
      invariant results == MapAll(Flatten(chunks[..i]), process)
      invariant pauses == if delayMs > 0 && i > 0 then (if i < |chunks| then i else i - 1) else 0
    {
      var chunkResults := MapAll(chunks[i], process);
      FlattenAppend(chunks[..i], [chunks[i]]);
      assert chunks[..i + 1] == chunks[..i] + [chunks[i]];
      MapAllAppend(Flatten(chunks[..i]), chunks[i], process);
      results := results + chunkResults;
      if i < |chunks| - 1 && delayMs > 0 {
        pauses := pauses + 1;
      }
    }
    assert chunks[..|chunks|] == chunks;
    if items != [] {
      ChunkTotal(chunks, batchSize);
      if delayMs > 0 {
        PauseCount(|items|, batchSize, |chunks|);
      }
    }
  }

  /** `chunk.map(process)` */
  function MapAll<T, R>(xs: seq<T>, process: T -> R): (ys: seq<R>)
    ensures |ys| == |xs| && forall k :: 0 <= k < |xs| ==> ys[k] == process(xs[k])
  {
    seq(|xs|, k requires 0 <= k < |xs| => process(xs[k]))
  }

  lemma MapAllAppend<T, R>(a: seq<T>, b: seq<T>, process: T -> R)
    ensures MapAll(a + b, process) == MapAll(a, process) + MapAll(b, process)
  {
  }

  // ---------------------------------------------------------------------------
  // identifySystemColumns

  /** A column the service maintains itself. */
  predicate IsSystemColumn(c: Column)
  {
    FieldTruthy(c.systemColumnType) || c.columnType == Some(JStr("SYSTEM"))
    || FieldTruthy(c.systemColumnId) || IsSystemTitle(c.title)
  }

  method IdentifySystemColumns(columns: seq<Column>) returns (ids: set<Id>)
    ensures forall id :: id in ids <==> exists i :: 0 <= i < |columns| && columns[i].id == id && IsSystemColumn(columns[i])
  {
    ids := {};
    for i := 0 to |columns|
      invariant forall id :: id in ids <==> exists k :: 0 <= k < i && columns[k].id == id && IsSystemColumn(columns[k])
    {
      if IsSystemColumn(columns[i]) {
        ids := ids + {columns[i].id};
      }
    }
  }

  // ---------------------------------------------------------------------------
  // mapColumnIds

  /** `targets.find(col => col.title === title)`, as a position. */
  function TitleIndex(targets: seq<Column>, title: string): (r: Option<nat>)
    ensures r.Some? ==> r.value < |targets| && targets[r.value].title == title
    ensures r.Some? ==> forall k :: 0 <= k < r.value ==> targets[k].title != title
    ensures r.None? ==> forall k :: 0 <= k < |targets| ==> targets[k].title != title
  {
    if targets == [] then None
    else if targets[0].title == title then Some(0)
    else match TitleIndex(targets[1..], title)
      case None => None
      case Some(k) => Some(k + 1)
  }

  /** `columns.findIndex(col => col.id === id)`, with |columns| for "not found". */
  function IndexOfId(columns: seq<Column>, id: Id): (k: nat)
    ensures k <= |columns| && (k < |columns| ==> columns[k].id == id)
    ensures forall j :: 0 <= j < k ==> columns[j].id != id
  {
    if columns == [] then 0 else if columns[0].id == id then 0 else 1 + IndexOfId(columns[1..], id)
  }

  /** Some source column with this id has a title found among the targets. */
  ghost predicate TitleMatched(sources: seq<Column>, targets: seq<Column>, id: Id)
  {
    exists j :: 0 <= j < |sources| && sources[j].id == id && TitleIndex(targets, sources[j].title).Some?
  }

  /** No later source column with the same id has a title found among the targets. */
  ghost predicate LastTitleMatch(sources: seq<Column>, targets: seq<Column>, i: nat, upTo: nat)
    requires i < upTo <= |sources|
  {
    forall k :: i < k < upTo && sources[k].id == sources[i].id ==> TitleIndex(targets, sources[k].title).None?
  }

  /** `sourceColumns.filter(col => !mapped.includes(col.id))` */
  function Unmapped(sources: seq<Column>, mapped: set<Id>): (r: seq<Column>)
    ensures forall c :: c in r <==> c in sources && c.id !in mapped
  {
    if sources == [] then []
    else (if sources[0].id in mapped then [] else [sources[0]]) + Unmapped(sources[1..], mapped)
  }

  /** The ids of the source columns whose title is found among the targets. */
  function TitledIds(sources: seq<Column>, targets: seq<Column>): set<Id>
  {
    if sources == [] then {}
    else
      var last := sources[|sources| - 1];
      TitledIds(sources[..|sources| - 1], targets) + (if TitleIndex(targets, last.title).Some? then {last.id} else {})
  }

  lemma {:induction false} TitledIdsMember(sources: seq<Column>, targets: seq<Column>, id: Id)
    ensures id in TitledIds(sources, targets) <==> TitleMatched(sources, targets, id)
  {
    if sources != [] {
      var init := sources[..|sources| - 1];
      TitledIdsMember(init, targets, id);
      if TitleMatched(init, targets, id) {
        var j :| 0 <= j < |init| && init[j].id == id && TitleIndex(targets, init[j].title).Some?;
        assert sources[j] == init[j];
      }
    }
  }

  /** The targets the first pass has chosen after the first `i` source columns: the last title match wins. */
  ghost predicate TitleValuesUpTo(sources: seq<Column>, targets: seq<Column>, m: map<Id, Id>, i: nat)
    requires i <= |sources|
  {
    forall j :: 0 <= j < i && TitleIndex(targets, sources[j].title).Some? && LastTitleMatch(sources, targets, j, i) ==>
      sources[j].id in m && m[sources[j].id] == targets[TitleIndex(targets, sources[j].title).value].id
  }

  /** The map after one more step of the first pass. */
  function TitleStep(sources: seq<Column>, targets: seq<Column>, m: map<Id, Id>, i: nat): map<Id, Id>
    requires i < |sources|
  {
    var found := TitleIndex(targets, sources[i].title);
    if found.Some? then m[sources[i].id := targets[found.value].id] else m
  }

  lemma TitleValuesStep(sources: seq<Column>, targets: seq<Column>, m: map<Id, Id>, i: nat)
    requires i < |sources| && TitleValuesUpTo(sources, targets, m, i)
    ensures TitleValuesUpTo(sources, targets, TitleStep(sources, targets, m, i), i + 1)
  {
    var m' := TitleStep(sources, targets, m, i);
    forall j | 0 <= j < i + 1 && TitleIndex(targets, sources[j].title).Some? && LastTitleMatch(sources, targets, j, i + 1)
      ensures sources[j].id in m' && m'[sources[j].id] == targets[TitleIndex(targets, sources[j].title).value].id
    {
      if j < i {
        assert LastTitleMatch(sources, targets, j, i);
        assert sources[i].id == sources[j].id ==> TitleIndex(targets, sources[i].title).None?;
      }
    }
  }

  /** The first pass of mapColumnIds: each source id goes to the first target with its title. */
  method MapByTitle(sources: seq<Column>, targets: seq<Column>) returns (m: map<Id, Id>)
    ensures forall id :: id in m <==> TitleMatched(sources, targets, id)
    ensures forall i :: (0 <= i < |sources| && TitleIndex(targets, sources[i].title).Some?
              && LastTitleMatch(sources, targets, i, |sources|)) ==>
              sources[i].id in m && m[sources[i].id] == targets[TitleIndex(targets, sources[i].title).value].id
  {
    m := map[];
    for i := 0 to |sources|
      invariant m.Keys == TitledIds(sources[..i], targets)
      invariant TitleValuesUpTo(sources, targets, m, i)
    {
      assert sources[..i + 1][..i] == sources[..i];
      TitleValuesStep(sources, targets, m, i);
      var found := TitleIndex(targets, sources[i].title);
      if found.Some? {
        m := m[sources[i].id := targets[found.value].id];
      }
    }
    assert sources[..|sources|] == sources;
    forall id
      ensures id in m <==> TitleMatched(sources, targets, id)
    {
      TitledIdsMember(sources, targets, id);
    }
  }

  /**
   * The second pass of mapColumnIds: every source column the first pass left out goes
   * to the target at the position of the first source column with its id, if any.
   */
  method MapByPosition(sources: seq<Column>, targets: seq<Column>, byTitle: map<Id, Id>) returns (m: map<Id, Id>)
    ensures forall id :: id in byTitle ==> id in m && m[id] == byTitle[id]
    ensures forall id :: id in m && id !in byTitle ==>
              IndexOfId(sources, id) < |sources| && IndexOfId(sources, id) < |targets|
              && m[id] == targets[IndexOfId(sources, id)].id
    ensures forall i :: (0 <= i < |sources| && sources[i].id !in byTitle
              && IndexOfId(sources, sources[i].id) < |targets|) ==> sources[i].id in m
  {
    var unmapped := Unmapped(sources, byTitle.Keys);
    m := MapUnmapped(sources, targets, byTitle, unmapped);
    forall i | 0 <= i < |sources| && sources[i].id !in byTitle && IndexOfId(sources, sources[i].id) < |targets|
      ensures sources[i].id in m
    {
      assert sources[i] in unmapped;
      var j :| 0 <= j < |unmapped| && unmapped[j] == sources[i];
    }
  }

  /** The loop of the second pass, over the columns the first pass left out. */
  method MapUnmapped(sources: seq<Column>, targets: seq<Column>, byTitle: map<Id, Id>, unmapped: seq<Column>)
    returns (m: map<Id, Id>)
    requires forall c :: c in unmapped ==> c in sources && c.id !in byTitle
    ensures forall id :: id in byTitle ==> id in m && m[id] == byTitle[id]
    ensures forall id :: id in m && id !in byTitle ==>
              IndexOfId(sources, id) < |sources| && IndexOfId(sources, id) < |targets|
              && m[id] == targets[IndexOfId(sources, id)].id
    ensures forall j :: 0 <= j < |unmapped| && IndexOfId(sources, unmapped[j].id) < |targets| ==> unmapped[j].id in m
  {
    m := byTitle;
    for k := 0 to |unmapped|
      invariant forall id :: id in byTitle ==> id in m && m[id] == byTitle[id]
      invariant forall id :: id in m && id !in byTitle ==>
                  IndexOfId(sources, id) < |sources| && IndexOfId(sources, id) < |targets|
                  && m[id] == targets[IndexOfId(sources, id)].id
      invariant forall j :: 0 <= j < k && IndexOfId(sources, unmapped[j].id) < |targets| ==> unmapped[j].id in m
    {
      var column := unmapped[k];
      assert column in sources;
      var index := IndexOfId(sources, column.id);
      if index < |targets| {
        m := m[column.id := targets[index].id];
      }
    }
  }

  /**
   * mapColumnIds: the first pass maps a source column to the first target column with
   * the same title; the second maps each still-unmapped source column to the target at
   * the position of the first source column with its id, when there is one; the rest
   * stay unmapped.
   */
  method MapColumnIds(sources: seq<Column>, targets: seq<Column>) returns (m: map<Id, Id>)
    ensures forall id :: id in m ==> exists i :: 0 <= i < |sources| && sources[i].id == id
    ensures forall i :: (0 <= i < |sources| && TitleIndex(targets, sources[i].title).Some?
              && LastTitleMatch(sources, targets, i, |sources|)) ==>
              sources[i].id in m && m[sources[i].id] == targets[TitleIndex(targets, sources[i].title).value].id
    ensures forall i :: 0 <= i < |sources| && !TitleMatched(sources, targets, sources[i].id) ==>
              (sources[i].id in m <==> IndexOfId(sources, sources[i].id) < |targets|)
              && (sources[i].id in m ==> m[sources[i].id] == targets[IndexOfId(sources, sources[i].id)].id)
  {
    var byTitle := MapByTitle(sources, targets);
    m := MapByPosition(sources, targets, byTitle);
    forall id | id in m
      ensures exists i :: 0 <= i < |sources| && sources[i].id == id
    {
      if id in byTitle {
        assert TitleMatched(sources, targets, id);
      } else {
        assert sources[IndexOfId(sources, id)].id == id;
      }
    }
  }

  /** What mapColumnIds promises of a map from the source columns to the targets (the three ensures above). */
  ghost predicate ColumnMapping(m: map<Id, Id>, sources: seq<Column>, targets: seq<Column>)
  {
    && (forall id :: id in m ==> exists i :: 0 <= i < |sources| && sources[i].id == id)
    && (forall i :: (0 <= i < |sources| && TitleIndex(targets, sources[i].title).Some?
          && LastTitleMatch(sources, targets, i, |sources|)) ==>
          sources[i].id in m && m[sources[i].id] == targets[TitleIndex(targets, sources[i].title).value].id)
    && (forall i :: 0 <= i < |sources| && !TitleMatched(sources, targets, sources[i].id) ==>
          (sources[i].id in m <==> IndexOfId(sources, sources[i].id) < |targets|)
          && (sources[i].id in m ==> m[sources[i].id] == targets[IndexOfId(sources, sources[i].id)].id))
  }

  /** A title match at `j`, before `upTo`, is followed by a last title match for its id before `upTo`. */
  lemma {:induction false} LastTitleMatchUpTo(sources: seq<Column>, targets: seq<Column>, j: nat, upTo: nat)
    requires j < upTo <= |sources| && TitleIndex(targets, sources[j].title).Some?
    ensures exists i :: j <= i < upTo && sources[i].id == sources[j].id && TitleIndex(targets, sources[i].title).Some?
                        && LastTitleMatch(sources, targets, i, upTo)
    decreases upTo
  {
    var last := upTo - 1;
    if sources[last].id == sources[j].id && TitleIndex(targets, sources[last].title).Some? {
      assert LastTitleMatch(sources, targets, last, upTo);
    } else {
      LastTitleMatchUpTo(sources, targets, j, last);
      var i :| j <= i < last && sources[i].id == sources[j].id && TitleIndex(targets, sources[i].title).Some?
               && LastTitleMatch(sources, targets, i, last);
      LastTitleMatchExtend(sources, targets, i, last);
    }
  }

  lemma LastTitleMatchExtend(sources: seq<Column>, targets: seq<Column>, i: nat, upTo: nat)
    requires i < upTo < |sources| && LastTitleMatch(sources, targets, i, upTo)
    requires !(sources[upTo].id == sources[i].id && TitleIndex(targets, sources[upTo].title).Some?)
    ensures LastTitleMatch(sources, targets, i, upTo + 1)
  {
  }

  /** A key of one map that meets the promises is a key of any other, with the same target. */
  lemma ColumnMappingAgrees(m1: map<Id, Id>, m2: map<Id, Id>, sources: seq<Column>, targets: seq<Column>, id: Id)
    requires ColumnMapping(m1, sources, targets) && ColumnMapping(m2, sources, targets)
    requires id in m1
    ensures id in m2 && m2[id] == m1[id]
  {
    var i :| 0 <= i < |sources| && sources[i].id == id;
    if TitleMatched(sources, targets, id) {
      var j :| 0 <= j < |sources| && sources[j].id == id && TitleIndex(targets, sources[j].title).Some?;
      LastTitleMatchUpTo(sources, targets, j, |sources|);
    }
  }

  /** The promises of mapColumnIds determine its map: any two maps that meet them are equal. */
  lemma ColumnMappingUnique(m1: map<Id, Id>, m2: map<Id, Id>, sources: seq<Column>, targets: seq<Column>)
    requires ColumnMapping(m1, sources, targets) && ColumnMapping(m2, sources, targets)
    ensures m1 == m2
  {
    forall id | id in m1
      ensures id in m2 && m2[id] == m1[id]
    {
      ColumnMappingAgrees(m1, m2, sources, targets, id);
    }
    forall id | id in m2
      ensures id in m1
    {
      ColumnMappingAgrees(m2, m1, sources, targets, id);
    }
    assert m1.Keys == m2.Keys;
  }
}

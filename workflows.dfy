/**
 * createVersionBackup (src/smartsheet-workflows.ts): rebuild a sheet as it stood at a
 * past moment, in a copy placed in a backup folder of the sheet's workspace.
 *
 * Every call to the service is a field of a Service value: a function from the call's
 * arguments to what the call returns or throws. The orchestrator reports the calls it
 * made, in order, so that "no folder, copy or row operation happens" can be stated.
 */
module Workflows {
  import opened JsValues
  import opened SheetModel
  import opened CellHistory
  import opened SheetUtils
  import opened CellPayload
  import opened ArchiveRows
  import HttpClient

  /** What a failed step throws; `retryAfter` is the error's `headers['retry-after']`. */
  datatype Thrown = Thrown(message: Option<string>, statusCode: Option<int>, detail: Option<Json>, retryAfter: Option<Json>)

  /**
   * The service: each field answers one kind of call. A history call that fails or
   * returns no entries is None (the workflow skips that cell either way).
   */
  datatype Service = Service(
    getSheet: Id -> Result<Sheet, Thrown>,
    listWorkspaceFolders: Id -> Result<Option<seq<Folder>>, Thrown>,
    createWorkspaceFolder: (Id, string) -> Result<Id, Thrown>,
    copySheet: (Id, string, Id) -> Result<Id, Thrown>,
    getCellHistory: (Id, CellRef, string) -> Option<seq<HistoryEntry>>,
    deleteRows: (Id, seq<Id>) -> Result<(), Thrown>,
    addRows: (Id, seq<RowAdd>) -> Result<(), Thrown>)

  datatype Call =
    | GetSheet(sheetId: Id)
    | ListWorkspaceFolders(workspaceId: Id)
    | CreateWorkspaceFolder(workspaceId: Id, name: string)
    | CopySheet(sourceId: Id, newName: string, folderId: Id)
    | GetCellHistory(historySheetId: Id, cell: CellRef, includeParams: string)
    | DeleteRows(archiveId: Id, rowIds: seq<Id>)
    | AddRows(targetId: Id, rows: seq<RowAdd>)

  /**
   * The options of one run. `at` is the target moment on the history's clock and
   * `formattedTimestamp` the locale text of `timestamp` used in the default name.
   */
  datatype Options = Options(
    sheetId: Id,
    timestamp: string,
    at: int,
    formattedTimestamp: string,
    includeFormulas: bool,
    includeFormatting: bool,
    batchSize: int,
    maxConcurrentRequests: int,
    archiveName: Option<string>)

  datatype Outcome =
    | Archived(message: string, sourceSheetId: Id, archiveSheetId: Id, archiveSheetName: string,
               timestamp: string, rowsProcessed: nat, cellsProcessed: nat, rowsUpdated: nat)
    | Failed(code: string, errorMessage: string, sheetId: Id, failedAt: string,
             resourceType: Option<Json>, retryAfter: Option<Json>, columnId: Option<string>)

  // ---------------------------------------------------------------------------
  // The backup folder

  function BackupFolderName(sheetName: string): string
  {
    "Backup of " + sheetName
  }

  /** The position of the first folder with exactly that name, |folders| when there is none. */
  function FirstNamedIndex(folders: seq<Folder>, name: string): (k: nat)
    ensures k <= |folders|
    ensures k < |folders| ==> folders[k].name == name
    ensures forall j :: 0 <= j < k ==> folders[j].name != name
  {
    if folders == [] then 0
    else if folders[0].name == name then 0
    else 1 + FirstNamedIndex(folders[1..], name)
  }

  /** `folders.find(folder => folder.name === name)`, as the loop with its break finds it. */
  function FirstNamed(folders: seq<Folder>, name: string): (r: Option<Folder>)
    ensures r.None? <==> forall i :: 0 <= i < |folders| ==> folders[i].name != name
    ensures r.Some? ==> exists i :: 0 <= i < |folders| && folders[i] == r.value && r.value.name == name
                                    && forall j :: 0 <= j < i ==> folders[j].name != name
  {
    var k := FirstNamedIndex(folders, name);
    if k < |folders| then Some(folders[k]) else None
  }

  /** A folder is created when no folder has the name, or the first one has no id. */
  predicate NeedsNewFolder(folders: seq<Folder>, name: string)
  {
    var f := FirstNamed(folders, name);
    f.None? || f.value.id == ""
  }

  /** The lookup loop: the id of the first folder with the name, "" when there is none. */
  method FindBackupFolder(folders: seq<Folder>, name: string) returns (folderId: Id)
    ensures folderId == "" <==> NeedsNewFolder(folders, name)
    ensures folderId != "" ==> folderId == FirstNamed(folders, name).value.id
  {
    folderId := "";
    var i := 0;
    while i < |folders|
      invariant 0 <= i <= |folders|
      invariant forall j :: 0 <= j < i ==> folders[j].name != name
    {
      if folders[i].name == name {
        assert FirstNamedIndex(folders, name) == i;
        folderId := folders[i].id;
        return;
      }
      i := i + 1;
    }
  }

  /** Once a run has created the folder, the next run finds and reuses it. */
  lemma SecondRunReuses(folders: seq<Folder>, name: string, newId: Id)
    requires NeedsNewFolder(folders, name) && FirstNamed(folders, name).None?
    requires newId != ""
    ensures FirstNamed(folders + [Folder(newId, name)], name) == Some(Folder(newId, name))
    ensures !NeedsNewFolder(folders + [Folder(newId, name)], name)
  {
    var more := folders + [Folder(newId, name)];
    assert forall j :: 0 <= j < |folders| ==> more[j].name != name;
    assert more[|folders|] == Folder(newId, name);
  }

  /**
   * When the first folder with the name has no id, the folder created after it does not
   * help: the id-less folder still comes first, so every later run creates another one.
   */
  lemma IdlessMatchBlocksReuse(folders: seq<Folder>, name: string, newId: Id)
    requires FirstNamed(folders, name).Some? && FirstNamed(folders, name).value.id == ""
    ensures FirstNamed(folders + [Folder(newId, name)], name) == FirstNamed(folders, name)
    ensures NeedsNewFolder(folders + [Folder(newId, name)], name)
  {
    var more := folders + [Folder(newId, name)];
    var k := FirstNamedIndex(folders, name);
    assert more[k] == folders[k];
    assert forall j :: 0 <= j < k ==> more[j] == folders[j];
    assert FirstNamedIndex(more, name) == k by {
      FirstNamedIndexAt(more, name, k);
    }
  }

  /** The first position whose folder has the name is the one FirstNamedIndex finds. */
  lemma {:induction false} FirstNamedIndexAt(folders: seq<Folder>, name: string, k: nat)
    requires k < |folders| && folders[k].name == name
    requires forall j :: 0 <= j < k ==> folders[j].name != name
    ensures FirstNamedIndex(folders, name) == k
  {
    if k > 0 {
      assert folders[0].name != name;
      FirstNamedIndexAt(folders[1..], name, k - 1);
    }
  }

  /** `archiveName || "Version as of <formatted timestamp>"` */
  function ArchiveSheetName(archiveName: Option<string>, formattedTimestamp: string): (n: string)
    ensures archiveName.Some? && archiveName.value != "" ==> n == archiveName.value
    ensures !(archiveName.Some? && archiveName.value != "") ==> n == "Version as of " + formattedTimestamp
  {
    if archiveName.Some? && archiveName.value != "" then archiveName.value else "Version as of " + formattedTimestamp
  }

  // ---------------------------------------------------------------------------
  // Historical values

  /** The fields the history request asks for; "format" is always among them. */
  function IncludeList(includeFormatting: bool): (r: seq<string>)
    ensures |r| >= 3 && r[..2] == ["columnType", "formula"]
    ensures "format" in r
    ensures includeFormatting <==> "hyperlink" in r
    ensures includeFormatting ==> r[2..] == ["format", "conditionalFormat", "hyperlink", "image", "objectValue"]
    ensures !includeFormatting ==> r[2..] == ["format"]
  {
    if includeFormatting then ["columnType", "formula", "format", "conditionalFormat", "hyperlink", "image", "objectValue"]
    else ["columnType", "formula", "format"]
  }

  /** `includeParams.join(',')` */
  function IncludeParams(includeFormatting: bool): string
  {
    Join(IncludeList(includeFormatting), ",")
  }

  /** The service reads the parameter back as the list it was built from. */
  lemma IncludeParamsSplit(includeFormatting: bool)
    ensures Split(IncludeParams(includeFormatting), ',') == IncludeList(includeFormatting)
  {
    var r := IncludeList(includeFormatting);
    forall i | 0 <= i < |r|
      ensures ',' !in r[i]
    {
      assert forall j :: 0 <= j < |r[i]| ==> 'A' <= r[i][j] <= 'z';
    }
    SplitJoin(r, ',');
  }

  /** Everything a history lookup depends on: the service, the sheet, the request and the moment. */
  datatype Fetch = Fetch(service: Service, sheetId: Id, includeParams: string, rows: seq<Row>, at: int)

  /** A historical value without a truthy format takes the current cell's truthy format. */
  function Backfill(fields: CellFields, current: Option<Cell>): (f: CellFields)
    ensures f.(format := fields.format) == fields
    ensures !FieldTruthy(fields.format) && current.Some? && FieldTruthy(current.value.format) ==>
              f.format == current.value.format
    ensures !(!FieldTruthy(fields.format) && current.Some? && FieldTruthy(current.value.format)) ==> f == fields
  {
    if !FieldTruthy(fields.format) && current.Some? && FieldTruthy(current.value.format)
    then fields.(format := current.value.format) else fields
  }

  /** The value stored for one cell, or None when the call failed or found no entry in effect. */
  function Fetched(fetch: Fetch, ref: CellRef): Option<CellFields>
  {
    match fetch.service.getCellHistory(fetch.sheetId, ref, fetch.includeParams)
    case None => None
    case Some(history) =>
      match ChosenIndex(history, fetch.at)
      case None => None
      case Some(k) => Some(Backfill(history[k].fields, SourceCell(fetch.rows, ref.rowId, ref.columnId)))
  }

  /** `historicalCellValues` after looking up the given cells in order. */
  function HistoricalValues(fetch: Fetch, refs: seq<CellRef>): map<Id, map<Id, CellFields>>
  {
    if refs == [] then map[]
    else
      var ref := refs[|refs| - 1];
      var m := HistoricalValues(fetch, refs[..|refs| - 1]);
      match Fetched(fetch, ref)
      case None => m
      case Some(f) => m[ref.rowId := (if ref.rowId in m then m[ref.rowId] else map[])[ref.columnId := f]]
  }

  /**
   * A (row, column) pair holds a value exactly when one of the looked-up cells is that
   * pair and its lookup found something, and the value is what the lookup found.
   */
  lemma {:induction false} HistoricalValuesMember(fetch: Fetch, refs: seq<CellRef>, r: Id, c: Id)
    ensures (r in HistoricalValues(fetch, refs) && c in HistoricalValues(fetch, refs)[r]) <==>
              exists i :: 0 <= i < |refs| && refs[i] == CellRef(r, c) && Fetched(fetch, refs[i]).Some?
    ensures r in HistoricalValues(fetch, refs) && c in HistoricalValues(fetch, refs)[r] ==>
              Fetched(fetch, CellRef(r, c)) == Some(HistoricalValues(fetch, refs)[r][c])
  {
    if refs != [] {
      var init := refs[..|refs| - 1];
      HistoricalValuesMember(fetch, init, r, c);
      HistoricalValuesLast(fetch, refs, r, c);
      if exists i :: 0 <= i < |refs| && refs[i] == CellRef(r, c) && Fetched(fetch, refs[i]).Some? {
        var i :| 0 <= i < |refs| && refs[i] == CellRef(r, c) && Fetched(fetch, refs[i]).Some?;
        if i < |init| {
          assert init[i] == refs[i];
        }
      }
    }
  }

  /** The last looked-up cell either stores a value for (r, c) or leaves that entry as it was. */
  lemma HistoricalValuesLast(fetch: Fetch, refs: seq<CellRef>, r: Id, c: Id)
    requires refs != []
    ensures var m := HistoricalValues(fetch, refs[..|refs| - 1]);
            var m' := HistoricalValues(fetch, refs);
            var hit := refs[|refs| - 1] == CellRef(r, c) && Fetched(fetch, refs[|refs| - 1]).Some?;
            && ((r in m' && c in m'[r]) <==> (r in m && c in m[r]) || hit)
            && (hit ==> m'[r][c] == Fetched(fetch, refs[|refs| - 1]).value)
            && (!hit && r in m && c in m[r] ==> m'[r][c] == m[r][c])
  {
  }

  /** A row holds values exactly when one of the looked-up cells of that row found something. */
  lemma {:induction false} HistoricalRowsMember(fetch: Fetch, refs: seq<CellRef>, r: Id)
    ensures r in HistoricalValues(fetch, refs) <==>
              exists i :: 0 <= i < |refs| && refs[i].rowId == r && Fetched(fetch, refs[i]).Some?
  {
    if refs != [] {
      var init := refs[..|refs| - 1];
      HistoricalRowsMember(fetch, init, r);
      if exists i :: 0 <= i < |refs| && refs[i].rowId == r && Fetched(fetch, refs[i]).Some? {
        var i :| 0 <= i < |refs| && refs[i].rowId == r && Fetched(fetch, refs[i]).Some?;
        if i < |init| {
          assert init[i] == refs[i];
        }
      }
    }
  }

  /** One cell's lookup: the history call, the scan for the entry in effect, the format backfill. */
  method FetchOne(fetch: Fetch, ref: CellRef) returns (v: Option<CellFields>)
    ensures v == Fetched(fetch, ref)
  {
    var history := fetch.service.getCellHistory(fetch.sheetId, ref, fetch.includeParams);
    if history.None? {
      return None;
    }
    var found := FindCellValueAtTimestamp(history.value, fetch.at);
    if found.None? {
      return None;
    }
    var fields := found.value;
    if !FieldTruthy(fields.format) {
      var current := SourceCell(fetch.rows, ref.rowId, ref.columnId);
      if current.Some? && FieldTruthy(current.value.format) {
        fields := fields.(format := current.value.format);
      }
    }
    v := Some(fields);
  }

  /** Looking up one more cell stores what its lookup found, if anything. */
  lemma HistoricalValuesSnoc(fetch: Fetch, refs: seq<CellRef>, ref: CellRef)
    ensures HistoricalValues(fetch, refs + [ref]) ==
              var m := HistoricalValues(fetch, refs);
              match Fetched(fetch, ref)
              case None => m
              case Some(f) => m[ref.rowId := (if ref.rowId in m then m[ref.rowId] else map[])[ref.columnId := f]]
  {
    assert (refs + [ref])[..|refs|] == refs;
  }

  /** The history calls made for the given cells, in order. */
  function HistoryCalls(fetch: Fetch, refs: seq<CellRef>): (calls: seq<Call>)
    ensures |calls| == |refs|
    ensures forall k :: 0 <= k < |refs| ==> calls[k] == GetCellHistory(fetch.sheetId, refs[k], fetch.includeParams)
  {
    seq(|refs|, k requires 0 <= k < |refs| => GetCellHistory(fetch.sheetId, refs[k], fetch.includeParams))
  }

  lemma HistoryCallsSnoc(fetch: Fetch, refs: seq<CellRef>, ref: CellRef)
    ensures HistoryCalls(fetch, refs + [ref]) ==
              HistoryCalls(fetch, refs) + [GetCellHistory(fetch.sheetId, ref, fetch.includeParams)]
  {
  }

  /**
   * The batched lookup of every candidate cell: the cells are split into groups of
   * `maxConcurrentRequests`, looked up group after group, and each value found is stored.
   */
  method FetchHistoricalValues(fetch: Fetch, existing: seq<CellRef>, maxConcurrentRequests: int)
    returns (historical: map<Id, map<Id, CellFields>>, calls: seq<Call>)
    requires maxConcurrentRequests > 0 || existing == []
    ensures historical == HistoricalValues(fetch, existing)
    ensures calls == HistoryCalls(fetch, existing)
  {
    var batches := ChunkArray(existing, maxConcurrentRequests);
    historical, calls := map[], [];
    for i := 0 to |batches|
      invariant historical == HistoricalValues(fetch, Flatten(batches[..i]))
      invariant calls == HistoryCalls(fetch, Flatten(batches[..i]))
    {
      historical, calls := FetchBatch(fetch, Flatten(batches[..i]), batches[i], historical, calls);
      FlattenStep(batches, i);
    }
    assert batches[..|batches|] == batches;
  }

  lemma FlattenStep<T>(batches: seq<seq<T>>, i: nat)
    requires i < |batches|
    ensures Flatten(batches[..i + 1]) == Flatten(batches[..i]) + batches[i]
  {
    FlattenAppend(batches[..i], [batches[i]]);
    assert batches[..i + 1] == batches[..i] + [batches[i]];
  }

  /** One group of lookups, continuing from the cells `done` already looked up. */
  method FetchBatch(fetch: Fetch, ghost done: seq<CellRef>, batch: seq<CellRef>,
                    historical0: map<Id, map<Id, CellFields>>, calls0: seq<Call>)
    returns (historical: map<Id, map<Id, CellFields>>, calls: seq<Call>)
    requires historical0 == HistoricalValues(fetch, done)
    requires calls0 == HistoryCalls(fetch, done)
    ensures historical == HistoricalValues(fetch, done + batch)
    ensures calls == HistoryCalls(fetch, done + batch)
  {
    historical, calls := historical0, calls0;
    assert done + batch[..0] == done;
    for j := 0 to |batch|
      invariant historical == HistoricalValues(fetch, done + batch[..j])
      invariant calls == HistoryCalls(fetch, done + batch[..j])
    {
      var ref := batch[j];
      ghost var looked := done + batch[..j];
      assert done + batch[..j + 1] == looked + [ref];
      var v := FetchOne(fetch, ref);
      HistoricalValuesSnoc(fetch, looked, ref);
      HistoryCallsSnoc(fetch, looked, ref);
      calls := calls + [GetCellHistory(fetch.sheetId, ref, fetch.includeParams)];
      if v.Some? {
        var row := if ref.rowId in historical then historical[ref.rowId] else map[];
        historical := historical[ref.rowId := row[ref.columnId := v.value]];
      }
    }
    assert batch[..|batch|] == batch;
  }

  // ---------------------------------------------------------------------------
  // The update-pass count

  /** Whether some cell of a row, after column mapping, is not a system column. */
  method HasUpdate(cells: map<Id, CellFields>, columnIdMap: map<Id, Id>, systemIds: set<Id>) returns (b: bool)
    ensures b <==> exists c :: c in cells && UpdateTarget(columnIdMap, c) !in systemIds
  {
    var rest := cells.Keys;
    b := false;
    while rest != {}
      invariant rest <= cells.Keys
      invariant b <==> exists c :: c in cells && c !in rest && UpdateTarget(columnIdMap, c) !in systemIds
      decreases |rest|
    {
      var c :| c in rest;
      if UpdateTarget(columnIdMap, c) !in systemIds {
        b := true;
      }
      rest := rest - {c};
    }
  }

  /** The loop over `historicalCellValues` that collects `rowUpdates`, counted. */
  method CountRowUpdates(plan: Plan, rowIdMap: map<Id, Id>) returns (n: nat)
    ensures n == RowsUpdated(plan, rowIdMap)
  {
    var rest := plan.historical.Keys;
    n := 0;
    while rest != {}
      invariant rest <= plan.historical.Keys
      invariant n == |UpdatedAmong(plan, rowIdMap, plan.historical.Keys - rest)|
      decreases |rest|
    {
      var r :| r in rest;
      var counted := false;
      if r in rowIdMap {
        counted := HasUpdate(plan.historical[r], plan.columnIdMap, plan.systemIds);
      }
      UpdatedAmongStep(plan, rowIdMap, plan.historical.Keys - rest, r);
      assert plan.historical.Keys - (rest - {r}) == (plan.historical.Keys - rest) + {r};
      if counted {
        n := n + 1;
      }
      rest := rest - {r};
    }
    assert plan.historical.Keys - rest == plan.historical.Keys;
  }

  /** The rows among `done` that the update pass counts. */
  ghost function UpdatedAmong(plan: Plan, rowIdMap: map<Id, Id>, done: set<Id>): set<Id>
  {
    set x | x in done && Updated(plan, rowIdMap, x)
  }

  lemma UpdatedAmongStep(plan: Plan, rowIdMap: map<Id, Id>, done: set<Id>, r: Id)
    requires r !in done
    ensures |UpdatedAmong(plan, rowIdMap, done + {r})| ==
              |UpdatedAmong(plan, rowIdMap, done)| + (if Updated(plan, rowIdMap, r) then 1 else 0)
  {
    if Updated(plan, rowIdMap, r) {
      assert UpdatedAmong(plan, rowIdMap, done + {r}) == UpdatedAmong(plan, rowIdMap, done) + {r};
    } else {
      assert UpdatedAmong(plan, rowIdMap, done + {r}) == UpdatedAmong(plan, rowIdMap, done);
    }
  }

  // ---------------------------------------------------------------------------
  // Sending the rows

  /** The rows carried by the calls, in call order. */
  function SentRows(calls: seq<Call>): seq<RowAdd>
  {
    if calls == [] then []
    else SentRows(calls[..|calls| - 1]) + (if calls[|calls| - 1].AddRows? then calls[|calls| - 1].rows else [])
  }

  lemma {:induction false} SentRowsAppend(a: seq<Call>, b: seq<Call>)
    ensures SentRows(a + b) == SentRows(a) + SentRows(b)
    decreases |b|
  {
    if b == [] {
      assert a + b == a;
    } else {
      assert (a + b)[..|a + b| - 1] == a + b[..|b| - 1];
      SentRowsAppend(a, b[..|b| - 1]);
    }
  }

  /** A row as it may be sent: to the bottom, with cells, each well formed and aimed at a column. */
  predicate WellFormedRow(row: RowAdd)
  {
    row.toBottom && row.cells != [] && forall c :: c in row.cells ==> WellFormedCell(c) && c.columnId != ""
  }

  /** Every AddRows call carries between 1 and `batchSize` well-formed rows. */
  ghost predicate AddsWellFormed(calls: seq<Call>, batchSize: int)
  {
    forall k :: 0 <= k < |calls| && calls[k].AddRows? ==>
      1 <= |calls[k].rows| <= batchSize && forall row :: row in calls[k].rows ==> WellFormedRow(row)
  }

  lemma AddsAppend(a: seq<Call>, b: seq<Call>, batchSize: int)
    requires AddsWellFormed(a, batchSize) && AddsWellFormed(b, batchSize)
    ensures AddsWellFormed(a + b, batchSize)
  {
    forall k | 0 <= k < |a + b| && (a + b)[k].AddRows?
      ensures 1 <= |(a + b)[k].rows| <= batchSize && forall row :: row in (a + b)[k].rows ==> WellFormedRow(row)
    {
      if k >= |a| {
        assert (a + b)[k] == b[k - |a|];
      }
    }
  }

  /**
   * The addition loop: the rows go out in chunks of `batchSize`, in order; the first
   * failing chunk stops the run with its error.
   */
  method SendRowBatches(service: Service, archiveId: Id, rows: seq<RowAdd>, batchSize: int)
    returns (r: Result<(), Thrown>, calls: seq<Call>)
    requires batchSize > 0 || rows == []
    ensures forall k :: 0 <= k < |calls| ==>
              calls[k].AddRows? && calls[k].targetId == archiveId && 1 <= |calls[k].rows| <= batchSize
              && forall x :: x in calls[k].rows ==> x in rows
    ensures forall k :: 0 <= k < |calls| - 1 ==> service.addRows(archiveId, calls[k].rows).Success?
    ensures r.Success? ==> SentRows(calls) == rows
    ensures r.Success? ==> forall k :: 0 <= k < |calls| ==> service.addRows(archiveId, calls[k].rows).Success?
    ensures r.Failure? ==> calls != [] && service.addRows(archiveId, calls[|calls| - 1].rows) == Failure(r.error)
    ensures SentRows(calls) <= rows
  {
    var batches := ChunkArray(rows, batchSize);
    r, calls := SendBatches(service, archiveId, batches);
    BatchCalls(archiveId, batches, rows, batchSize, |calls|);
  }

  /** The loop over the batches: one AddRows call each, stopping at the first that fails. */
  method SendBatches(service: Service, archiveId: Id, batches: seq<seq<RowAdd>>)
    returns (r: Result<(), Thrown>, calls: seq<Call>)
    ensures |calls| <= |batches| && calls == AddCalls(archiveId, batches[..|calls|])
    ensures forall k :: 0 <= k < |calls| - 1 ==> service.addRows(archiveId, batches[k]).Success?
    ensures r.Success? ==> |calls| == |batches| && forall k :: 0 <= k < |calls| ==> service.addRows(archiveId, batches[k]).Success?
    ensures r.Failure? ==> calls != [] && service.addRows(archiveId, batches[|calls| - 1]) == Failure(r.error)
  {
    calls := [];
    for i := 0 to |batches|
      invariant calls == AddCalls(archiveId, batches[..i])
      invariant forall k :: 0 <= k < i ==> service.addRows(archiveId, batches[k]).Success?
    {
      var sent := service.addRows(archiveId, batches[i]);
      AddCallsStep(archiveId, batches, i);
      calls := calls + [AddRows(archiveId, batches[i])];
      if sent.Failure? {
        return Failure(sent.error), calls;
      }
    }
    r := Success(());
  }

  /** One AddRows call per batch, in order. */
  function AddCalls(archiveId: Id, batches: seq<seq<RowAdd>>): (calls: seq<Call>)
    ensures |calls| == |batches|
  {
    if batches == [] then [] else AddCalls(archiveId, batches[..|batches| - 1]) + [AddRows(archiveId, batches[|batches| - 1])]
  }

  lemma AddCallsStep(archiveId: Id, batches: seq<seq<RowAdd>>, i: nat)
    requires i < |batches|
    ensures AddCalls(archiveId, batches[..i + 1]) == AddCalls(archiveId, batches[..i]) + [AddRows(archiveId, batches[i])]
  {
    assert batches[..i + 1][..i] == batches[..i];
  }

  /** The calls for the first `n` chunks of the rows: what each carries and what they carry together. */
  lemma BatchCalls(archiveId: Id, batches: seq<seq<RowAdd>>, rows: seq<RowAdd>, batchSize: int, n: nat)
    requires Flatten(batches) == rows && ChunkedBy(batches, batchSize) && n <= |batches|
    ensures var calls := AddCalls(archiveId, batches[..n]);
            && (forall k :: 0 <= k < |calls| ==>
                  calls[k].AddRows? && calls[k].targetId == archiveId && 1 <= |calls[k].rows| <= batchSize
                  && (forall x :: x in calls[k].rows ==> x in rows) && calls[k].rows == batches[k])
            && SentRows(calls) <= rows
            && (n == |batches| ==> SentRows(calls) == rows)
  {
    AddCallsAt(archiveId, batches[..n]);
    SentAddCalls(archiveId, batches[..n]);
    FlattenPrefix(batches, n);
    forall k | 0 <= k < n
      ensures forall x :: x in batches[k] ==> x in rows
    {
      FlattenMemberAll(batches, k);
    }
    assert n == |batches| ==> batches[..n] == batches;
  }

  lemma {:induction false} AddCallsAt(archiveId: Id, batches: seq<seq<RowAdd>>)
    ensures forall k :: 0 <= k < |batches| ==> AddCalls(archiveId, batches)[k] == AddRows(archiveId, batches[k])
  {
    if batches != [] {
      AddCallsAt(archiveId, batches[..|batches| - 1]);
    }
  }

  lemma {:induction false} SentAddCalls(archiveId: Id, batches: seq<seq<RowAdd>>)
    ensures SentRows(AddCalls(archiveId, batches)) == Flatten(batches)
  {
    if batches != [] {
      var init := batches[..|batches| - 1];
      SentAddCalls(archiveId, init);
      SentRowsSnoc(AddCalls(archiveId, init), AddRows(archiveId, batches[|batches| - 1]));
    }
  }

  lemma SentRowsSnoc(calls: seq<Call>, c: Call)
    requires c.AddRows?
    ensures SentRows(calls + [c]) == SentRows(calls) + c.rows
  {
    assert (calls + [c])[..|calls|] == calls;
  }

  lemma FlattenMemberAll(batches: seq<seq<RowAdd>>, i: nat)
    requires i < |batches|
    ensures forall x :: x in batches[i] ==> x in Flatten(batches)
  {
    forall x | x in batches[i]
      ensures x in Flatten(batches)
    {
      FlattenMember(batches, i, x);
    }
  }

  lemma {:induction false} FlattenPrefix(batches: seq<seq<RowAdd>>, i: nat)
    requires i <= |batches|
    ensures Flatten(batches[..i]) <= Flatten(batches)
  {
    assert batches == batches[..i] + batches[i..];
    FlattenAppend(batches[..i], batches[i..]);
  }

  // ---------------------------------------------------------------------------
  // Error classification

  /** /columnId (\d+)/ matches at position i. */
  predicate MatchesAt(s: string, i: nat)
  {
    i + 9 < |s| && s[i..i + 9] == "columnId " && IsDigit(s[i + 9])
  }

  /** The first position, from `i` on, where the pattern matches; |s| when there is none. */
  function FirstMatchFrom(s: string, i: nat): (k: nat)
    requires i <= |s|
    ensures i <= k <= |s|
    ensures k < |s| ==> MatchesAt(s, k)
    ensures forall j :: i <= j < k ==> !MatchesAt(s, j)
    decreases |s| - i
  {
    if i == |s| then |s|
    else if MatchesAt(s, i) then i
    else FirstMatchFrom(s, i + 1)
  }

  /** The digits captured by /columnId (\d+)/ at its first match in `s`. */
  function ColumnIdMatch(s: string): (r: Option<string>)
    ensures r.Some? <==> exists i :: 0 <= i < |s| && MatchesAt(s, i)
    ensures r.Some? ==> r.value != [] && forall i :: 0 <= i < |r.value| ==> IsDigit(r.value[i])
    ensures r.Some? ==> exists i :: 0 <= i < |s| && MatchesAt(s, i) && (forall j :: 0 <= j < i ==> !MatchesAt(s, j))
                                    && r.value == DigitPrefix(s[i + 9..])
  {
    var k := FirstMatchFrom(s, 0);
    if k < |s| then Some(DigitPrefix(s[k + 9..])) else None
  }

  const DefaultFailureMessage: string := "Archive sheet creation failed"

  /** The catch block: the error's message (or a default) and a code chosen by a fixed order of tests. */
  function ClassifyError(e: Thrown, sheetId: Id, timestamp: string): (o: Outcome)
    ensures o.Failed? && o.sheetId == sheetId && o.failedAt == timestamp
    ensures o.errorMessage == if e.message.Some? && e.message.value != "" then e.message.value else DefaultFailureMessage
    ensures e.statusCode == Some(404) <==> o.code == "RESOURCE_NOT_FOUND"
    ensures e.statusCode == Some(403) <==> o.code == "PERMISSION_DENIED"
    ensures e.statusCode == Some(429) <==> o.code == "RATE_LIMIT_EXCEEDED"
    ensures o.code == "INVALID_COLUMN_ID" <==>
              e.statusCode !in {Some(404), Some(403), Some(429)} && e.message.Some? && Contains(e.message.value, "INVALID_COLUMN_ID")
    ensures o.code == "RESOURCE_NOT_FOUND" ==>
              o.resourceType == Some(if e.detail.Some? && FieldTruthy(Get(e.detail.value, "resourceType"))
                                     then Get(e.detail.value, "resourceType").value else JStr("unknown"))
    ensures o.code != "RESOURCE_NOT_FOUND" ==> o.resourceType.None?
    ensures o.retryAfter == if o.code == "RATE_LIMIT_EXCEEDED" then e.retryAfter else None
    ensures o.columnId == if o.code == "INVALID_COLUMN_ID" then ColumnIdMatch(e.message.value) else None
    ensures o.code in {"RESOURCE_NOT_FOUND", "PERMISSION_DENIED", "RATE_LIMIT_EXCEEDED", "INVALID_COLUMN_ID", "ARCHIVE_FAILED"}
  {
    var message := if e.message.Some? && e.message.value != "" then e.message.value else DefaultFailureMessage;
    var base := Failed("ARCHIVE_FAILED", message, sheetId, timestamp, None, None, None);
    if e.statusCode == Some(404) then
      var resourceType := if e.detail.Some? then Get(e.detail.value, "resourceType") else None;
      base.(code := "RESOURCE_NOT_FOUND", resourceType := Some(if FieldTruthy(resourceType) then resourceType.value else JStr("unknown")))
    else if e.statusCode == Some(403) then base.(code := "PERMISSION_DENIED")
    else if e.statusCode == Some(429) then base.(code := "RATE_LIMIT_EXCEEDED", retryAfter := e.retryAfter)
    else if e.message.Some? && Contains(e.message.value, "INVALID_COLUMN_ID") then
      base.(code := "INVALID_COLUMN_ID", columnId := ColumnIdMatch(e.message.value))
    else base
  }

  /**
   * What the workflow catches when a client request fails: formatError's error, whose
   * message, status and detail are copied and which carries no response headers.
   */
  function ThrownFromClient(e: HttpClient.ApiError): (t: Thrown)
    ensures t.statusCode == e.statusCode && t.detail == e.detail
    ensures t.retryAfter.None?
  {
    Thrown(Some(e.message), e.statusCode, e.detail, None)
  }

  /** A rate-limited client error is classified as such, but never with a retry-after value. */
  lemma ClientRateLimitHasNoRetryAfter(e: HttpClient.ApiError, sheetId: Id, timestamp: string)
    requires e.statusCode == Some(429)
    ensures ClassifyError(ThrownFromClient(e), sheetId, timestamp).code == "RATE_LIMIT_EXCEEDED"
    ensures ClassifyError(ThrownFromClient(e), sheetId, timestamp).retryAfter.None?
  {
  }

  /** The message thrown for a sheet outside any workspace, written in three pieces for the proof below. */
  const NoWorkspaceMessage: string := "Sheet must be " + "in a workspace " + "to create an archive"

  /** What the workflow throws for a sheet outside any workspace. */
  const NoWorkspace: Thrown := Thrown(Some(NoWorkspaceMessage), None, None, None)

  /** What the run ends with when a created folder comes back without an id: nothing to report. */
  const NoFolderId: Thrown := Thrown(None, None, None, None)

  function ErrorOf<T>(r: Result<T, Thrown>): Option<Thrown>
  {
    if r.Failure? then Some(r.error) else None
  }

  /** What the service threw for a call, None when the call returned normally. */
  function CallError(service: Service, call: Call): Option<Thrown>
  {
    match call
    case GetSheet(id) => ErrorOf(service.getSheet(id))
    case ListWorkspaceFolders(w) => ErrorOf(service.listWorkspaceFolders(w))
    case CreateWorkspaceFolder(w, name) => ErrorOf(service.createWorkspaceFolder(w, name))
    case CopySheet(id, name, folderId) => ErrorOf(service.copySheet(id, name, folderId))
    case GetCellHistory(_, _, _) => None
    case DeleteRows(id, rowIds) => ErrorOf(service.deleteRows(id, rowIds))
    case AddRows(id, rows) => ErrorOf(service.addRows(id, rows))
  }

  /**
   * What a run whose calls were `calls` stopped on, judged by its last call: the error
   * that call threw, the missing workspace when the only call read a sheet outside any
   * workspace, or the missing id of a folder just created. None when nothing stopped it.
   */
  function StopError(service: Service, calls: seq<Call>): Option<Thrown>
  {
    if calls == [] then None
    else
      var last := calls[|calls| - 1];
      if |calls| == 1 && last.GetSheet? && service.getSheet(last.sheetId).Success?
         && service.getSheet(last.sheetId).value.workspaceId == ""
      then Some(NoWorkspace)
      else if last.CreateWorkspaceFolder? && service.createWorkspaceFolder(last.workspaceId, last.name) == Success("")
      then Some(NoFolderId)
      else CallError(service, last)
  }

  /** A sheet outside a workspace ends in ARCHIVE_FAILED with the workspace message. */
  lemma NoWorkspaceFails(sheetId: Id, timestamp: string)
    ensures ClassifyError(NoWorkspace, sheetId, timestamp).code == "ARCHIVE_FAILED"
    ensures ClassifyError(NoWorkspace, sheetId, timestamp).errorMessage == NoWorkspaceMessage
  {
    NoWorkspaceNoColumnId();
  }

  /** The workspace message has no underscore, so it cannot contain "INVALID_COLUMN_ID". */
  lemma NoWorkspaceNoColumnId()
    ensures !Contains(NoWorkspaceMessage, "INVALID_COLUMN_ID")
  {
    assert '_' !in "Sheet must be ";
    assert '_' !in "in a workspace ";
    assert '_' !in "to create an archive";
    NoUnderscoreNoColumnId(NoWorkspaceMessage);
  }

  /** A string without an underscore does not contain "INVALID_COLUMN_ID". */
  lemma NoUnderscoreNoColumnId(s: string)
    requires '_' !in s
    ensures !Contains(s, "INVALID_COLUMN_ID")
  {
    ContainsHasChar(s, "INVALID_COLUMN_ID", 7);
  }

  /** Every character of a contained string occurs in the containing one. */
  lemma {:induction false} ContainsHasChar(s: string, sub: string, j: nat)
    requires j < |sub|
    ensures Contains(s, sub) ==> sub[j] in s
    decreases |s|
  {
    if sub <= s {
      assert s[j] == sub[j];
    } else if s != [] {
      ContainsHasChar(s[1..], sub, j);
    }
  }

  /** Calls made after others: the run stops on what the later calls stop on. */
  lemma StopErrorAfter(service: Service, earlier: seq<Call>, later: seq<Call>)
    requires earlier != [] && later != []
    requires |later| > 1 || !later[0].GetSheet?
    ensures StopError(service, earlier + later) == StopError(service, later)
  {
    assert (earlier + later)[|earlier + later| - 1] == later[|later| - 1];
  }

  // ---------------------------------------------------------------------------
  // The workflow

  /**
   * Steps 1-4: read the source, find or create the backup folder, copy the sheet, read
   * the copy. A failure carries what was thrown; the caller classifies it.
   */
  method PrepareArchive(service: Service, options: Options)
    returns (r: Result<(Sheet, Id, string, Sheet), Thrown>, calls: seq<Call>)
    ensures calls != [] && calls[0] == GetSheet(options.sheetId)
    ensures forall k :: 0 <= k < |calls| ==> !calls[k].AddRows? && !calls[k].DeleteRows?
    ensures service.getSheet(options.sheetId).Failure? ==>
              calls == [GetSheet(options.sheetId)] && r == Failure(service.getSheet(options.sheetId).error)
    ensures service.getSheet(options.sheetId).Success? && service.getSheet(options.sheetId).value.workspaceId == "" ==>
              calls == [GetSheet(options.sheetId)] && r == Failure(NoWorkspace)
    ensures forall k :: 0 <= k < |calls| && calls[k].CreateWorkspaceFolder? ==> service.getSheet(options.sheetId).Success?
    ensures service.getSheet(options.sheetId).Success? ==>
              var source := service.getSheet(options.sheetId).value;
              CreatesOnlyAt(service, source.workspaceId, BackupFolderName(source.name), calls, 2)
    ensures r.Success? ==>
              service.getSheet(options.sheetId).Success? &&
              var source := service.getSheet(options.sheetId).value;
              r.value.0 == source && source.workspaceId != ""
              && r.value.2 == ArchiveSheetName(options.archiveName, options.formattedTimestamp)
              && service.getSheet(r.value.1) == Success(r.value.3)
              && |calls| >= 4 && calls[|calls| - 1] == GetSheet(r.value.1)
              && calls[|calls| - 2].CopySheet? && calls[|calls| - 2].sourceId == options.sheetId
              && calls[|calls| - 2].newName == r.value.2 && calls[|calls| - 2].folderId != ""
              && service.copySheet(options.sheetId, r.value.2, calls[|calls| - 2].folderId) == Success(r.value.1)
    ensures r.Success? ==>
              service.getSheet(options.sheetId).Success? && |calls| >= 4 &&
              var source := service.getSheet(options.sheetId).value;
              FolderChosen(service, source.workspaceId, BackupFolderName(source.name),
                           calls[1..|calls| - 2], calls[|calls| - 2].folderId)
    ensures r.Failure? ==> StopError(service, calls) == Some(r.error)
    ensures r.Success? ==>
              service.getSheet(options.sheetId).Success? && |calls| >= 4 && calls[|calls| - 2].CopySheet? &&
              PreparedVia(service, options, calls, r.value.1, r.value.2, calls[1..|calls| - 2], calls[|calls| - 2].folderId)
  {
    calls := [GetSheet(options.sheetId)];
    var got := service.getSheet(options.sheetId);
    if got.Failure? {
      return Failure(got.error), calls;
    }
    var source := got.value;
    var workspaceId := source.workspaceId;
    if workspaceId == "" {
      return Failure(NoWorkspace), calls;
    }
    var name := ArchiveSheetName(options.archiveName, options.formattedTimestamp);
    var copy, copyCalls := CopyToBackup(service, options.sheetId, source, name);
    StopErrorAfter(service, calls, copyCalls);
    CreatesShift(service, workspaceId, BackupFolderName(source.name), calls[0], copyCalls, 1);
    calls := calls + copyCalls;
    if copy.Failure? {
      return Failure(copy.error), calls;
    }
    assert calls[1..|calls| - 2] == copyCalls[..|copyCalls| - 2];
    PrepTraceParts(calls, options.sheetId, name, copy.value.0);
    r := Success((source, copy.value.0, name, copy.value.1));
  }

  /** Steps 2-4 for a sheet inside a workspace: find or create the backup folder, copy into it, read the copy. */
  method CopyToBackup(service: Service, sheetId: Id, source: Sheet, name: string)
    returns (r: Result<(Id, Sheet), Thrown>, calls: seq<Call>)
    ensures calls != [] && calls[0] == ListWorkspaceFolders(source.workspaceId)
    ensures forall k :: 0 <= k < |calls| ==> !calls[k].AddRows? && !calls[k].DeleteRows?
    ensures CreatesOnlyAt(service, source.workspaceId, BackupFolderName(source.name), calls, 1)
    ensures r.Success? ==>
              service.getSheet(r.value.0) == Success(r.value.1)
              && |calls| >= 3 && calls[|calls| - 1] == GetSheet(r.value.0) && calls[|calls| - 2].CopySheet?
              && var folderId := calls[|calls| - 2].folderId;
              calls[|calls| - 2] == CopySheet(sheetId, name, folderId) && folderId != ""
              && service.copySheet(sheetId, name, folderId) == Success(r.value.0)
              && FolderChosen(service, source.workspaceId, BackupFolderName(source.name), calls[..|calls| - 2], folderId)
    ensures r.Failure? ==> StopError(service, calls) == Some(r.error)
  {
    var folderName := BackupFolderName(source.name);
    var folder;
    folder, calls := LocateFolder(service, source.workspaceId, folderName);
    if folder.Failure? {
      return Failure(folder.error), calls;
    }
    var copy, copyCalls := CopyAndRead(service, sheetId, name, folder.value);
    StopErrorAfter(service, calls, copyCalls);
    CreatesJoin(service, source.workspaceId, folderName, calls, copyCalls, 1);
    ghost var folderCalls := calls;
    calls := calls + copyCalls;
    if copy.Failure? {
      return Failure(copy.error), calls;
    }
    assert calls[..|calls| - 2] == folderCalls;
    r := copy;
  }

  /**
   * Every folder creation among `calls` sits at position `at`, creates `folderName` in the
   * workspace, and follows a listing in which no folder of that name could be reused.
   */
  ghost predicate CreatesOnlyAt(service: Service, workspaceId: Id, folderName: string, calls: seq<Call>, at: nat)
  {
    forall k :: 0 <= k < |calls| && calls[k].CreateWorkspaceFolder? ==>
      var listed := service.listWorkspaceFolders(workspaceId);
      k == at && calls[k] == CreateWorkspaceFolder(workspaceId, folderName)
      && listed.Success? && NeedsNewFolder(ListedFolders(listed.value), folderName)
  }

  lemma CreatesJoin(service: Service, workspaceId: Id, folderName: string, a: seq<Call>, b: seq<Call>, at: nat)
    requires CreatesOnlyAt(service, workspaceId, folderName, a, at)
    requires forall k :: 0 <= k < |b| ==> !b[k].CreateWorkspaceFolder?
    ensures CreatesOnlyAt(service, workspaceId, folderName, a + b, at)
  {
    forall k | 0 <= k < |a + b| && (a + b)[k].CreateWorkspaceFolder?
      ensures k < |a|
    {
    }
  }

  lemma CreatesShift(service: Service, workspaceId: Id, folderName: string, c: Call, b: seq<Call>, at: nat)
    requires !c.CreateWorkspaceFolder?
    requires CreatesOnlyAt(service, workspaceId, folderName, b, at)
    ensures CreatesOnlyAt(service, workspaceId, folderName, [c] + b, at + 1)
  {
    forall k | 0 <= k < |[c] + b| && ([c] + b)[k].CreateWorkspaceFolder?
      ensures k >= 1 && ([c] + b)[k] == b[k - 1]
    {
    }
  }

  /**
   * The lookup's calls `folderCalls` settled on `folderId`: the first folder listed with the
   * name when it has an id (after the listing alone), otherwise the folder created.
   */
  ghost predicate FolderChosen(service: Service, workspaceId: Id, folderName: string, folderCalls: seq<Call>, folderId: Id)
  {
    var listed := service.listWorkspaceFolders(workspaceId);
    && listed.Success? && folderCalls != [] && folderCalls[0] == ListWorkspaceFolders(workspaceId)
    && if NeedsNewFolder(ListedFolders(listed.value), folderName)
       then folderCalls == [ListWorkspaceFolders(workspaceId), CreateWorkspaceFolder(workspaceId, folderName)]
            && service.createWorkspaceFolder(workspaceId, folderName) == Success(folderId)
       else folderCalls == [ListWorkspaceFolders(workspaceId)]
            && folderId == FirstNamed(ListedFolders(listed.value), folderName).value.id
  }

  /** The folders a listing returned; a listing without a result lists none. */
  function ListedFolders(listed: Option<seq<Folder>>): seq<Folder>
  {
    if listed.Some? then listed.value else []
  }

  /**
   * Step 2: list the workspace's folders and reuse the first one named `folderName`,
   * or create it when none can be reused. The folder id found is never empty.
   */
  method LocateFolder(service: Service, workspaceId: Id, folderName: string)
    returns (r: Result<Id, Thrown>, calls: seq<Call>)
    ensures 1 <= |calls| <= 2 && calls[0] == ListWorkspaceFolders(workspaceId)
    ensures |calls| == 2 ==>
              calls[1] == CreateWorkspaceFolder(workspaceId, folderName)
              && service.listWorkspaceFolders(workspaceId).Success?
              && NeedsNewFolder(ListedFolders(service.listWorkspaceFolders(workspaceId).value), folderName)
    ensures service.listWorkspaceFolders(workspaceId).Failure? ==>
              r == Failure(service.listWorkspaceFolders(workspaceId).error)
    ensures var listed := service.listWorkspaceFolders(workspaceId);
            listed.Success? && !NeedsNewFolder(ListedFolders(listed.value), folderName) ==>
              |calls| == 1 && r == Success(FirstNamed(ListedFolders(listed.value), folderName).value.id)
    ensures var listed := service.listWorkspaceFolders(workspaceId);
            listed.Success? && NeedsNewFolder(ListedFolders(listed.value), folderName) ==>
              |calls| == 2
              && (r.Success? <==> service.createWorkspaceFolder(workspaceId, folderName).Success?
                                  && service.createWorkspaceFolder(workspaceId, folderName).value != "")
    ensures r.Success? ==> r.value != ""
    ensures r.Success? && |calls| == 1 ==>
              service.listWorkspaceFolders(workspaceId).Success? &&
              var found := FirstNamed(ListedFolders(service.listWorkspaceFolders(workspaceId).value), folderName);
              found.Some? && r.value == found.value.id
    ensures r.Success? && |calls| == 2 ==> service.createWorkspaceFolder(workspaceId, folderName) == Success(r.value)
    ensures r.Success? ==> FolderChosen(service, workspaceId, folderName, calls, r.value)
    ensures r.Failure? ==> StopError(service, calls) == Some(r.error)
    ensures CreatesOnlyAt(service, workspaceId, folderName, calls, 1)
  {
    calls := [ListWorkspaceFolders(workspaceId)];
    var listed := service.listWorkspaceFolders(workspaceId);
    if listed.Failure? {
      return Failure(listed.error), calls;
    }
    var folderId := FindBackupFolder(ListedFolders(listed.value), folderName);
    if folderId != "" {
      return Success(folderId), calls;
    }
    calls := calls + [CreateWorkspaceFolder(workspaceId, folderName)];
    var created := service.createWorkspaceFolder(workspaceId, folderName);
    if created.Failure? {
      return Failure(created.error), calls;
    }
    if created.value == "" {
      // `createFolderResult.result.id` is missing: the copy would name no folder.
      return Failure(NoFolderId), calls;
    }
    r := Success(created.value);
  }

  /** Steps 3-4: copy the source sheet into the folder under `name`, then read the copy. */
  method CopyAndRead(service: Service, sheetId: Id, name: string, folderId: Id)
    returns (r: Result<(Id, Sheet), Thrown>, calls: seq<Call>)
    ensures 1 <= |calls| <= 2 && calls[0] == CopySheet(sheetId, name, folderId)
    ensures service.copySheet(sheetId, name, folderId).Failure? ==>
              calls == [calls[0]] && r == Failure(service.copySheet(sheetId, name, folderId).error)
    ensures service.copySheet(sheetId, name, folderId).Success? ==>
              var archiveId := service.copySheet(sheetId, name, folderId).value;
              calls == [calls[0], GetSheet(archiveId)]
              && r == match service.getSheet(archiveId)
                      case Success(archive) => Success((archiveId, archive))
                      case Failure(e) => Failure(e)
  {
    calls := [CopySheet(sheetId, name, folderId)];
    var copied := service.copySheet(sheetId, name, folderId);
    if copied.Failure? {
      return Failure(copied.error), calls;
    }
    var archiveId := copied.value;
    calls := calls + [GetSheet(archiveId)];
    var archive := service.getSheet(archiveId);
    if archive.Failure? {
      return Failure(archive.error), calls;
    }
    r := Success((archiveId, archive.value));
  }

  /** The rows sent by a run, with the rows of each AddRows call well formed. */
  lemma AssembledRowsWellFormed(plan: Plan, rows: seq<RowAdd>)
    requires rows == RowsToAdd(plan, plan.source.rows)
    ensures forall row :: row in rows ==> WellFormedRow(row)
  {
    RowsToAddShape(plan, plan.source.rows);
    RowsToAddWellFormed(plan);
  }

  /** How the run looks up history: the source sheet, its include list and the target moment. */
  function FetchFor(service: Service, options: Options, source: Sheet): Fetch
  {
    Fetch(service, options.sheetId, IncludeParams(options.includeFormatting), source.rows, options.at)
  }

  /** Calls that add no rows carry no rows. */
  lemma {:induction false} SentRowsNone(calls: seq<Call>)
    requires forall k :: 0 <= k < |calls| ==> !calls[k].AddRows?
    ensures SentRows(calls) == []
  {
    if calls != [] {
      SentRowsNone(calls[..|calls| - 1]);
    }
  }

  /** The ids of the rows of a sheet, in order. */
  function RowIds(rows: seq<Row>): (ids: seq<Id>)
    ensures |ids| == |rows| && forall k :: 0 <= k < |rows| ==> ids[k] == rows[k].id
  {
    seq(|rows|, k requires 0 <= k < |rows| => rows[k].id)
  }

  /**
   * What the row assembly works from: the source sheet, the values found in effect for
   * the cells that existed at the target moment, and the archive's system columns.
   */
  ghost predicate PlanFor(plan: Plan, service: Service, options: Options, source: Sheet, archive: Sheet)
  {
    && plan.source == source
    && plan.historical == HistoricalValues(FetchFor(service, options, source), ExistingCells(source.rows, options.at))
    && plan.includeFormulas == options.includeFormulas
    && (forall id :: id in plan.systemIds <==>
          exists j :: 0 <= j < |archive.columns| && archive.columns[j].id == id && IsSystemColumn(archive.columns[j]))
    && ColumnMapping(plan.columnIdMap, source.columns, archive.columns)
  }

  /** There is only one such plan: the rows it yields and the counts taken from it are fixed by the inputs. */
  lemma PlanForUnique(p1: Plan, p2: Plan, service: Service, options: Options, source: Sheet, archive: Sheet)
    requires PlanFor(p1, service, options, source, archive) && PlanFor(p2, service, options, source, archive)
    ensures p1 == p2
  {
    ColumnMappingUnique(p1.columnIdMap, p2.columnIdMap, source.columns, archive.columns);
    assert p1.systemIds == p2.systemIds;
  }

  /** Step 6: the archive's system columns and the column map, around the values found. */
  method BuildPlan(source: Sheet, archive: Sheet, historical: map<Id, map<Id, CellFields>>, includeFormulas: bool)
    returns (plan: Plan)
    ensures plan.source == source && plan.historical == historical && plan.includeFormulas == includeFormulas
    ensures forall id :: id in plan.systemIds <==>
              exists j :: 0 <= j < |archive.columns| && archive.columns[j].id == id && IsSystemColumn(archive.columns[j])
    ensures ColumnMapping(plan.columnIdMap, source.columns, archive.columns)
  {
    var systemIds := IdentifySystemColumns(archive.columns);
    var columnIdMap := MapColumnIds(source.columns, archive.columns);
    plan := Plan(source, columnIdMap, systemIds, historical, includeFormulas);
  }

  /** Steps 5-6: look up the history of the existing cells, build the maps and count the update pass. */
  method GatherPlan(service: Service, options: Options, source: Sheet, archive: Sheet)
    returns (plan: Plan, rowsUpdated: nat, cellsProcessed: nat, calls: seq<Call>)
    requires options.maxConcurrentRequests > 0
    ensures PlanFor(plan, service, options, source, archive)
    ensures forall k :: 0 <= k < |calls| ==> calls[k].GetCellHistory?
    ensures cellsProcessed == |ExistingCells(source.rows, options.at)|
    ensures rowsUpdated <= |plan.historical| <= cellsProcessed
    ensures rowsUpdated == RowsUpdated(plan, RowIdMap(source.rows, RowNumberMap(archive.rows)))
    ensures calls == HistoryCalls(FetchFor(service, options, source), ExistingCells(source.rows, options.at))
  {
    var existing := GetCellsExistingAtTime(source.rows, options.at);
    var fetch := FetchFor(service, options, source);
    var historical;
    historical, calls := FetchHistoricalValues(fetch, existing, options.maxConcurrentRequests);
    var rowIdMap := BuildRowIdMap(archive.rows, source.rows);
    plan := BuildPlan(source, archive, historical, options.includeFormulas);
    rowsUpdated := CountRowUpdates(plan, rowIdMap);
    HistoricalRowsBound(fetch, existing);
    cellsProcessed := |existing|;
  }

  /** Steps 7-8: delete every row of the archive, then send the assembled rows in batches. */
  method ReplaceRows(service: Service, archiveId: Id, archive: Sheet, plan: Plan, batchSize: int)
    returns (r: Result<(), Thrown>, calls: seq<Call>)
    requires batchSize > 0
    ensures forall k :: 0 <= k < |calls| ==> calls[k].DeleteRows? || calls[k].AddRows?
    ensures forall k :: 0 <= k < |calls| && calls[k].DeleteRows? ==>
              k == 0 && archive.rows != [] && calls[k] == DeleteRows(archiveId, RowIds(archive.rows))
    ensures AddsWellFormed(calls, batchSize)
    ensures r.Failure? ==>
              calls != [] && var last := calls[|calls| - 1];
              (last.DeleteRows? && service.deleteRows(archiveId, last.rowIds) == Failure(r.error))
              || (last.AddRows? && service.addRows(archiveId, last.rows) == Failure(r.error))
    ensures r.Success? ==> SentRows(calls) == RowsToAdd(plan, plan.source.rows)
    ensures archive.rows != [] ==> calls != [] && calls[0] == DeleteRows(archiveId, RowIds(archive.rows))
    ensures archive.rows == [] ==> forall k :: 0 <= k < |calls| ==> !calls[k].DeleteRows?
    ensures r.Failure? ==> calls != [] && CallError(service, calls[|calls| - 1]) == Some(r.error)
    ensures r.Success? ==> forall k :: 0 <= k < |calls| ==> CallError(service, calls[k]).None?
    ensures forall k :: 0 <= k < |calls| && calls[k].AddRows? ==> calls[k].targetId == archiveId
  {
    var rowIds := RowIds(archive.rows);
    if |rowIds| == 0 {
      r, calls := SendAssembled(service, archiveId, plan, batchSize);
      return;
    }
    calls := [DeleteRows(archiveId, rowIds)];
    var deleted := service.deleteRows(archiveId, rowIds);
    if deleted.Failure? {
      return Failure(deleted.error), calls;
    }
    var sent, addCalls := SendAssembled(service, archiveId, plan, batchSize);
    AfterDelete(service, archiveId, rowIds, addCalls, batchSize);
    calls := calls + addCalls;
    r := sent;
  }

  /** A successful delete followed by row additions: the delete is the only one, and first. */
  lemma AfterDelete(service: Service, archiveId: Id, rowIds: seq<Id>, addCalls: seq<Call>, batchSize: int)
    requires service.deleteRows(archiveId, rowIds).Success?
    requires forall k :: 0 <= k < |addCalls| ==> addCalls[k].AddRows? && addCalls[k].targetId == archiveId
    requires AddsWellFormed(addCalls, batchSize)
    ensures var calls := [DeleteRows(archiveId, rowIds)] + addCalls;
            && (forall k :: 0 <= k < |calls| ==> calls[k].DeleteRows? || calls[k].AddRows?)
            && (forall k :: 0 <= k < |calls| && calls[k].DeleteRows? ==> k == 0)
            && (forall k :: 0 <= k < |calls| && calls[k].AddRows? ==> calls[k].targetId == archiveId)
            && AddsWellFormed(calls, batchSize)
            && SentRows(calls) == SentRows(addCalls)
            && ((forall k :: 0 <= k < |addCalls| ==> CallError(service, addCalls[k]).None?) ==>
                  forall k :: 0 <= k < |calls| ==> CallError(service, calls[k]).None?)
            && (addCalls != [] ==> calls[|calls| - 1] == addCalls[|addCalls| - 1])
  {
    var calls := [DeleteRows(archiveId, rowIds)] + addCalls;
    assert forall k :: 1 <= k < |calls| ==> calls[k] == addCalls[k - 1];
    SentRowsNone([DeleteRows(archiveId, rowIds)]);
    SentRowsAppend([DeleteRows(archiveId, rowIds)], addCalls);
  }

  /** Step 8: assemble the rows from the plan and send them in batches. */
  method SendAssembled(service: Service, archiveId: Id, plan: Plan, batchSize: int)
    returns (r: Result<(), Thrown>, calls: seq<Call>)
    requires batchSize > 0
    ensures forall k :: 0 <= k < |calls| ==> calls[k].AddRows? && calls[k].targetId == archiveId
    ensures AddsWellFormed(calls, batchSize)
    ensures r.Success? ==> SentRows(calls) == RowsToAdd(plan, plan.source.rows)
    ensures r.Success? ==> forall k :: 0 <= k < |calls| ==> CallError(service, calls[k]).None?
    ensures r.Failure? ==> calls != [] && CallError(service, calls[|calls| - 1]) == Some(r.error)
  {
    var rows := AssembleRows(plan);
    AssembledRowsWellFormed(plan, rows);
    r, calls := SendRowBatches(service, archiveId, rows, batchSize);
  }

  /**
   * Steps 5-9 once the archive exists: look up the history, count the update pass, empty
   * the archive, assemble the rows and send them. A run that ends in Archived has sent,
   * in order, exactly the rows assembled from the historical values.
   */
  method FillArchive(service: Service, options: Options, source: Sheet, archiveId: Id, archive: Sheet)
    returns (r: Result<Outcome, Thrown>, calls: seq<Call>)
    requires options.batchSize > 0 && options.maxConcurrentRequests > 0
    ensures forall k :: 0 <= k < |calls| ==> calls[k].GetCellHistory? || calls[k].DeleteRows? || calls[k].AddRows?
    ensures AddsWellFormed(calls, options.batchSize)
    ensures FillCalls(service, options, source, archiveId, archive, calls)
    ensures r.Failure? ==>
              calls != [] && (calls[|calls| - 1].DeleteRows? || calls[|calls| - 1].AddRows?)
              && CallError(service, calls[|calls| - 1]) == Some(r.error)
    ensures r.Success? ==> r.value.Archived? && r.value.rowsUpdated <= r.value.rowsProcessed <= r.value.cellsProcessed
    ensures r.Success? ==> Filled(service, options, source, archiveId, archive, calls, r.value)
  {
    var plan, rowsUpdated, cellsProcessed, historyCalls := GatherPlan(service, options, source, archive);
    var replaced;
    replaced, calls := ReplaceAfterHistory(service, options, source, archiveId, archive, plan, historyCalls);
    if replaced.Failure? {
      return Failure(replaced.error), calls;
    }
    FilledIntro(service, options, source, archiveId, archive, calls, plan, rowsUpdated);
    r := Success(Archived("Archive sheet created with data from " + options.timestamp, options.sheetId, archiveId,
                          ArchiveSheetName(options.archiveName, options.formattedTimestamp),
                          options.timestamp, |plan.historical|, cellsProcessed, rowsUpdated));
  }

  /** The second half of FillArchive: the archive's rows are replaced once the cell histories are fetched. */
  method ReplaceAfterHistory(service: Service, options: Options, source: Sheet, archiveId: Id, archive: Sheet,
                             plan: Plan, historyCalls: seq<Call>)
    returns (r: Result<(), Thrown>, calls: seq<Call>)
    requires options.batchSize > 0
    requires forall k :: 0 <= k < |historyCalls| ==> historyCalls[k].GetCellHistory?
    requires historyCalls == HistoryCalls(FetchFor(service, options, source), ExistingCells(source.rows, options.at))
    ensures forall k :: 0 <= k < |calls| ==> calls[k].GetCellHistory? || calls[k].DeleteRows? || calls[k].AddRows?
    ensures AddsWellFormed(calls, options.batchSize)
    ensures FillCalls(service, options, source, archiveId, archive, calls)
    ensures r.Failure? ==>
              calls != [] && (calls[|calls| - 1].DeleteRows? || calls[|calls| - 1].AddRows?)
              && CallError(service, calls[|calls| - 1]) == Some(r.error)
    ensures r.Success? ==> SentRows(calls) == RowsToAdd(plan, plan.source.rows)
    ensures r.Success? ==> forall k :: 0 <= k < |calls| ==> CallError(service, calls[k]).None?
  {
    var replaceCalls;
    r, replaceCalls := ReplaceRows(service, archiveId, archive, plan, options.batchSize);
    JoinCalls(historyCalls, replaceCalls, options.batchSize);
    FillCallsJoin(service, options, source, archiveId, archive, historyCalls, replaceCalls);
    calls := historyCalls + replaceCalls;
    if r.Failure? {
      assert calls[|calls| - 1] == replaceCalls[|replaceCalls| - 1];
    } else {
      AllReturned(service, historyCalls, replaceCalls);
    }
  }

  ghost predicate FillCalls(service: Service, options: Options, source: Sheet, archiveId: Id, archive: Sheet, calls: seq<Call>)
  {
    var existing := ExistingCells(source.rows, options.at);
    && |existing| <= |calls| && calls[..|existing|] == HistoryCalls(FetchFor(service, options, source), existing)
    && (archive.rows != [] ==> |existing| < |calls| && calls[|existing|] == DeleteRows(archiveId, RowIds(archive.rows)))
    && (forall k :: 0 <= k < |calls| && calls[k].DeleteRows? ==> k == |existing| && archive.rows != [])
    && (forall k :: 0 <= k < |calls| && calls[k].AddRows? ==> calls[k].targetId == archiveId)
  }

  /**
   * A run of steps 5-9 that ended in `outcome`: the calls as above, each returning normally;
   * the outcome reports the source, the archive and the timestamp; the rows sent and the
   * counts are those of the plan built from the inputs (PlanForUnique: there is only one).
   */
  ghost predicate Filled(service: Service, options: Options, source: Sheet, archiveId: Id, archive: Sheet,
                         calls: seq<Call>, outcome: Outcome)
  {
    && FillCalls(service, options, source, archiveId, archive, calls)
    && (forall k :: 0 <= k < |calls| ==> CallError(service, calls[k]).None?)
    && outcome.Archived?
    && outcome.message == "Archive sheet created with data from " + options.timestamp
    && outcome.sourceSheetId == options.sheetId && outcome.archiveSheetId == archiveId
    && outcome.archiveSheetName == ArchiveSheetName(options.archiveName, options.formattedTimestamp)
    && outcome.timestamp == options.timestamp
    && outcome.cellsProcessed == |ExistingCells(source.rows, options.at)|
    && exists plan: Plan ::
         && PlanFor(plan, service, options, source, archive)
         && SentRows(calls) == RowsToAdd(plan, source.rows)
         && outcome.rowsProcessed == |plan.historical|
         && outcome.rowsUpdated == RowsUpdated(plan, RowIdMap(source.rows, RowNumberMap(archive.rows)))
  }

  /** The history calls, then ReplaceRows' calls, have the shape FillCalls describes. */
  lemma FillCallsJoin(service: Service, options: Options, source: Sheet, archiveId: Id, archive: Sheet,
                      historyCalls: seq<Call>, replaceCalls: seq<Call>)
    requires historyCalls == HistoryCalls(FetchFor(service, options, source), ExistingCells(source.rows, options.at))
    requires archive.rows != [] ==> replaceCalls != [] && replaceCalls[0] == DeleteRows(archiveId, RowIds(archive.rows))
    requires forall k :: 0 <= k < |replaceCalls| && replaceCalls[k].DeleteRows? ==> k == 0 && archive.rows != []
    requires forall k :: 0 <= k < |replaceCalls| && replaceCalls[k].AddRows? ==> replaceCalls[k].targetId == archiveId
    requires forall k :: 0 <= k < |historyCalls| ==> historyCalls[k].GetCellHistory?
    ensures FillCalls(service, options, source, archiveId, archive, historyCalls + replaceCalls)
  {
    var calls := historyCalls + replaceCalls;
    assert calls[..|historyCalls|] == historyCalls;
    forall k | |historyCalls| <= k < |calls|
      ensures calls[k] == replaceCalls[k - |historyCalls|]
    {
    }
  }

  lemma FilledIntro(service: Service, options: Options, source: Sheet, archiveId: Id, archive: Sheet,
                    calls: seq<Call>, plan: Plan, rowsUpdated: nat)
    requires FillCalls(service, options, source, archiveId, archive, calls)
    requires forall k :: 0 <= k < |calls| ==> CallError(service, calls[k]).None?
    requires PlanFor(plan, service, options, source, archive) && SentRows(calls) == RowsToAdd(plan, source.rows)
    requires rowsUpdated == RowsUpdated(plan, RowIdMap(source.rows, RowNumberMap(archive.rows)))
    ensures Filled(service, options, source, archiveId, archive, calls,
                   Archived("Archive sheet created with data from " + options.timestamp, options.sheetId, archiveId,
                            ArchiveSheetName(options.archiveName, options.formattedTimestamp), options.timestamp,
                            |plan.historical|, |ExistingCells(source.rows, options.at)|, rowsUpdated))
  {
  }

  /** History calls followed by row calls: the rows sent are the row calls' rows. */
  lemma JoinCalls(historyCalls: seq<Call>, replaceCalls: seq<Call>, batchSize: int)
    requires forall k :: 0 <= k < |historyCalls| ==> historyCalls[k].GetCellHistory?
    requires AddsWellFormed(replaceCalls, batchSize)
    requires forall k :: 0 <= k < |replaceCalls| ==> replaceCalls[k].DeleteRows? || replaceCalls[k].AddRows?
    ensures AddsWellFormed(historyCalls + replaceCalls, batchSize)
    ensures SentRows(historyCalls + replaceCalls) == SentRows(replaceCalls)
    ensures forall k :: 0 <= k < |historyCalls + replaceCalls| ==>
              var c := (historyCalls + replaceCalls)[k]; c.GetCellHistory? || c.DeleteRows? || c.AddRows?
    ensures forall k :: 0 <= k < |replaceCalls| ==> (historyCalls + replaceCalls)[|historyCalls| + k] == replaceCalls[k]
  {
    SentRowsNone(historyCalls);
    SentRowsAppend(historyCalls, replaceCalls);
    assert AddsWellFormed(historyCalls, batchSize) by {
      forall k | 0 <= k < |historyCalls| ensures !historyCalls[k].AddRows? { }
    }
    AddsAppend(historyCalls, replaceCalls, batchSize);
  }

  /** Calls that all returned normally, one after the other, all returned normally. */
  lemma AllReturned(service: Service, a: seq<Call>, b: seq<Call>)
    requires forall k :: 0 <= k < |a| ==> a[k].GetCellHistory? || CallError(service, a[k]).None?
    requires forall k :: 0 <= k < |b| ==> CallError(service, b[k]).None?
    ensures forall k :: 0 <= k < |a + b| ==> CallError(service, (a + b)[k]).None?
  {
    forall k | 0 <= k < |a + b|
      ensures CallError(service, (a + b)[k]).None?
    {
      if k < |a| {
        assert (a + b)[k] == a[k];
      } else {
        assert (a + b)[k] == b[k - |a|];
      }
    }
  }

  /**
   * createVersionBackup: prepare the archive, then fill it. A sheet outside a workspace
   * fails before any other call; a folder is created only when none can be reused.
   */
  method CreateVersionBackup(service: Service, options: Options) returns (outcome: Outcome, calls: seq<Call>)
    requires options.batchSize > 0 && options.maxConcurrentRequests > 0
    ensures calls != [] && calls[0] == GetSheet(options.sheetId)
    ensures service.getSheet(options.sheetId).Success? && service.getSheet(options.sheetId).value.workspaceId == "" ==>
              calls == [GetSheet(options.sheetId)]
              && outcome == ClassifyError(NoWorkspace, options.sheetId, options.timestamp)
    ensures forall k :: 0 <= k < |calls| && calls[k].CreateWorkspaceFolder? ==> service.getSheet(options.sheetId).Success?
    ensures service.getSheet(options.sheetId).Success? ==>
              var source := service.getSheet(options.sheetId).value;
              CreatesOnlyAt(service, source.workspaceId, BackupFolderName(source.name), calls, 2)
    ensures AddsWellFormed(calls, options.batchSize)
    ensures outcome.Failed? ==>
              StopError(service, calls).Some?
              && outcome == ClassifyError(StopError(service, calls).value, options.sheetId, options.timestamp)
    ensures outcome.Archived? ==>
              outcome.rowsUpdated <= outcome.rowsProcessed <= outcome.cellsProcessed
              && BackedUp(service, options, calls, outcome)
  {
    var prepared, prepCalls := PrepareArchive(service, options);
    calls := prepCalls;
    if prepared.Failure? {
      outcome := ClassifyError(prepared.error, options.sheetId, options.timestamp);
      return;
    }
    var (source, archiveId, name, archive) := prepared.value;
    outcome, calls := FinishBackup(service, options, source, archiveId, name, archive, prepCalls);
  }

  /**
   * Steps 5-9 of CreateVersionBackup, once the copy exists and has been read: fill it and
   * classify what was thrown. `prepCalls` is the trace of the preparation.
   */
  method FinishBackup(service: Service, options: Options, source: Sheet, archiveId: Id, name: string,
                      archive: Sheet, prepCalls: seq<Call>)
    returns (outcome: Outcome, calls: seq<Call>)
    requires options.batchSize > 0 && options.maxConcurrentRequests > 0
    requires service.getSheet(options.sheetId) == Success(source) && service.getSheet(archiveId) == Success(archive)
    requires name == ArchiveSheetName(options.archiveName, options.formattedTimestamp)
    requires |prepCalls| >= 4 && prepCalls[0] == GetSheet(options.sheetId) && prepCalls[|prepCalls| - 2].CopySheet?
    requires AddsWellFormed(prepCalls, options.batchSize)
    requires CreatesOnlyAt(service, source.workspaceId, BackupFolderName(source.name), prepCalls, 2)
    requires PreparedVia(service, options, prepCalls, archiveId, name, prepCalls[1..|prepCalls| - 2],
                         prepCalls[|prepCalls| - 2].folderId)
    ensures |calls| >= |prepCalls| && calls[..|prepCalls|] == prepCalls
    ensures forall k :: |prepCalls| <= k < |calls| ==> !calls[k].CreateWorkspaceFolder?
    ensures CreatesOnlyAt(service, source.workspaceId, BackupFolderName(source.name), calls, 2)
    ensures AddsWellFormed(calls, options.batchSize)
    ensures outcome.Failed? ==>
              StopError(service, calls).Some?
              && outcome == ClassifyError(StopError(service, calls).value, options.sheetId, options.timestamp)
    ensures outcome.Archived? ==>
              outcome.rowsUpdated <= outcome.rowsProcessed <= outcome.cellsProcessed
              && BackedUp(service, options, calls, outcome)
  {
    var filled, fillCalls := FillArchive(service, options, source, archiveId, archive);
    AddsAppend(prepCalls, fillCalls, options.batchSize);
    CreatesJoin(service, source.workspaceId, BackupFolderName(source.name), prepCalls, fillCalls, 2);
    calls := prepCalls + fillCalls;
    assert calls[..|prepCalls|] == prepCalls;
    if filled.Failure? {
      StopErrorAfter(service, prepCalls, fillCalls);
      outcome := ClassifyError(filled.error, options.sheetId, options.timestamp);
    } else {
      outcome := filled.value;
      BackedUpIntro(service, options, prepCalls, fillCalls, outcome, prepCalls[1..|prepCalls| - 2],
                    prepCalls[|prepCalls| - 2].folderId);
    }
  }


  /**
   * What a completed backup did: the source sheet was read, the backup folder was found or
   * created, the copy was made in that folder and read back, and the copy's rows were filled
   * from the plan, with every call from the copy's read onwards succeeding.
   */
  ghost predicate BackedUp(service: Service, options: Options, calls: seq<Call>, outcome: Outcome)
  {
    && outcome.Archived?
    && service.getSheet(options.sheetId).Success?
    && service.getSheet(outcome.archiveSheetId).Success?
    && exists folderCalls, folderId, fillCalls :: BackedUpVia(service, options, calls, outcome, folderCalls, folderId, fillCalls)
  }

  /** BackedUp with its parts named: the folder calls, the folder the copy went into, and the fill calls. */
  ghost predicate BackedUpVia(service: Service, options: Options, calls: seq<Call>, outcome: Outcome,
                              folderCalls: seq<Call>, folderId: Id, fillCalls: seq<Call>)
    requires outcome.Archived?
    requires service.getSheet(options.sheetId).Success? && service.getSheet(outcome.archiveSheetId).Success?
  {
    var prepCalls := [GetSheet(options.sheetId)] + folderCalls
                     + [CopySheet(options.sheetId, outcome.archiveSheetName, folderId), GetSheet(outcome.archiveSheetId)];
    && calls == prepCalls + fillCalls
    && PreparedVia(service, options, prepCalls, outcome.archiveSheetId, outcome.archiveSheetName, folderCalls, folderId)
    && Filled(service, options, service.getSheet(options.sheetId).value, outcome.archiveSheetId,
              service.getSheet(outcome.archiveSheetId).value, fillCalls, outcome)
  }

  /**
   * A completed preparation: the source read, the folder calls that found or created the backup
   * folder, the copy into that folder under the archive name, and the copy's read.
   */
  ghost predicate PreparedVia(service: Service, options: Options, calls: seq<Call>, archiveId: Id, archiveName: string,
                              folderCalls: seq<Call>, folderId: Id)
    requires service.getSheet(options.sheetId).Success?
  {
    var source := service.getSheet(options.sheetId).value;
    && calls == [GetSheet(options.sheetId)] + folderCalls
                + [CopySheet(options.sheetId, archiveName, folderId), GetSheet(archiveId)]
    && folderId != ""
    && service.copySheet(options.sheetId, archiveName, folderId) == Success(archiveId)
    && FolderChosen(service, source.workspaceId, BackupFolderName(source.name), folderCalls, folderId)
  }

  lemma BackedUpIntro(service: Service, options: Options, prepCalls: seq<Call>, fillCalls: seq<Call>, outcome: Outcome,
                      folderCalls: seq<Call>, folderId: Id)
    requires service.getSheet(options.sheetId).Success? && outcome.Archived?
    requires service.getSheet(outcome.archiveSheetId).Success?
    requires PreparedVia(service, options, prepCalls, outcome.archiveSheetId, outcome.archiveSheetName, folderCalls, folderId)
    requires Filled(service, options, service.getSheet(options.sheetId).value, outcome.archiveSheetId,
                    service.getSheet(outcome.archiveSheetId).value, fillCalls, outcome)
    ensures BackedUp(service, options, prepCalls + fillCalls, outcome)
  {
    assert BackedUpVia(service, options, prepCalls + fillCalls, outcome, folderCalls, folderId, fillCalls);
  }

  /** A preparation trace is the source read, the folder calls, the copy and the copy's read. */
  lemma PrepTraceParts(prepCalls: seq<Call>, sheetId: Id, name: string, archiveId: Id)
    requires |prepCalls| >= 4 && prepCalls[0] == GetSheet(sheetId)
    requires prepCalls[|prepCalls| - 1] == GetSheet(archiveId)
    requires prepCalls[|prepCalls| - 2].CopySheet? && prepCalls[|prepCalls| - 2].sourceId == sheetId
    requires prepCalls[|prepCalls| - 2].newName == name
    ensures prepCalls == [GetSheet(sheetId)] + prepCalls[1..|prepCalls| - 2]
                         + [CopySheet(sheetId, name, prepCalls[|prepCalls| - 2].folderId), GetSheet(archiveId)]
  {
  }

  /** There are never more rows with values than cells looked up. */
  lemma {:induction false} HistoricalRowsBound(fetch: Fetch, refs: seq<CellRef>)
    ensures |HistoricalValues(fetch, refs)| <= |refs|
  {
    if refs != [] {
      var init := refs[..|refs| - 1];
      HistoricalRowsBound(fetch, init);
      var m := HistoricalValues(fetch, init);
      var ref := refs[|refs| - 1];
      if Fetched(fetch, ref).Some? {
        var f := Fetched(fetch, ref).value;
        var row := if ref.rowId in m then m[ref.rowId] else map[];
        assert HistoricalValues(fetch, refs).Keys == m.Keys + {ref.rowId};
      }
    }
  }
}

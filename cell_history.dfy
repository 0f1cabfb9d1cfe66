/**
 * Picking the history entry in effect at a target time (findCellValueAtTimestamp in
 * src/smartsheet-utils.ts). The source sorts a copy of the history newest first with
 * the engine's stable sort, then returns the fields of the first entry not later than
 * the target. The sort is the library's, so it is a function here; the scan is a loop.
 */
module CellHistory {
  import opened JsValues
  import opened SheetModel

  /** Newest first: no entry is later than one before it. */
  ghost predicate NewestFirst(s: seq<HistoryEntry>)
  {
    forall i, j :: 0 <= i < j < |s| ==> s[i].modifiedAt >= s[j].modifiedAt
  }

  /**
   * Puts `e` in front of the first entry that is not later than it, so that among
   * entries with equal timestamps the one inserted last (earlier in the input) leads.
   */
  function Insert(e: HistoryEntry, sorted: seq<HistoryEntry>): (r: seq<HistoryEntry>)
    ensures multiset(r) == multiset(sorted) + multiset{e}
    ensures forall i :: 0 <= i < |r| ==> r[i] == e || r[i] in sorted
  {
    if sorted == [] then [e]
    else if sorted[0].modifiedAt <= e.modifiedAt then [e] + sorted
    else
      assert sorted == [sorted[0]] + sorted[1..];
      [sorted[0]] + Insert(e, sorted[1..])
  }

  lemma {:induction false} InsertKeepsOrder(e: HistoryEntry, sorted: seq<HistoryEntry>)
    requires NewestFirst(sorted)
    ensures NewestFirst(Insert(e, sorted))
  {
    if sorted != [] && sorted[0].modifiedAt > e.modifiedAt {
      InsertKeepsOrder(e, sorted[1..]);
      var rest := Insert(e, sorted[1..]);
      forall i | 0 <= i < |rest|
        ensures rest[i].modifiedAt <= sorted[0].modifiedAt
      {
        if rest[i] != e {
          var j :| 0 <= j < |sorted[1..]| && sorted[1..][j] == rest[i];
        }
      }
    }
  }

  /** The copy `[...history].sort((a, b) => b.modifiedAt - a.modifiedAt)` of a stable sort. */
  function SortNewestFirst(history: seq<HistoryEntry>): (r: seq<HistoryEntry>)
    ensures multiset(r) == multiset(history)
    ensures NewestFirst(r)
  {
    if history == [] then []
    else
      assert history == [history[0]] + history[1..];
      InsertKeepsOrder(history[0], SortNewestFirst(history[1..]));
      Insert(history[0], SortNewestFirst(history[1..]))
  }

  /**
   * The position in `history` of the entry in effect at `target`: the latest entry not
   * later than the target, and among several such entries with that timestamp the first
   * one in the input. None exactly when every entry is later than the target.
   */
  function ChosenIndex(history: seq<HistoryEntry>, target: int): (r: Option<nat>)
    ensures r.None? <==> forall i :: 0 <= i < |history| ==> history[i].modifiedAt > target
    ensures r.Some? ==> r.value < |history| && history[r.value].modifiedAt <= target
    ensures r.Some? ==> forall i :: 0 <= i < |history| && history[i].modifiedAt <= target ==>
                          history[i].modifiedAt <= history[r.value].modifiedAt
    ensures r.Some? ==> forall i :: 0 <= i < r.value && history[i].modifiedAt <= target ==>
                          history[i].modifiedAt < history[r.value].modifiedAt
  {
    if history == [] then None
    else
      var rest := ChosenIndex(history[1..], target);
      if history[0].modifiedAt <= target
         && (rest.None? || history[1 + rest.value].modifiedAt <= history[0].modifiedAt)
      then Some(0)
      else if rest.None? then None
      else Some(1 + rest.value)
  }

  /** The entry ChosenIndex designates. */
  function Chosen(history: seq<HistoryEntry>, target: int): Option<HistoryEntry>
  {
    match ChosenIndex(history, target)
    case None => None
    case Some(k) => Some(history[k])
  }

  /** The first entry of `s` not later than `target`. */
  function FirstAtOrBefore(s: seq<HistoryEntry>, target: int): Option<HistoryEntry>
  {
    if s == [] then None
    else if s[0].modifiedAt <= target then Some(s[0])
    else FirstAtOrBefore(s[1..], target)
  }

  lemma {:induction false} FirstAtOrBeforeAt(s: seq<HistoryEntry>, target: int, k: nat)
    requires k <= |s|
    requires forall j :: 0 <= j < k ==> s[j].modifiedAt > target
    ensures k < |s| && s[k].modifiedAt <= target ==> FirstAtOrBefore(s, target) == Some(s[k])
    ensures k == |s| ==> FirstAtOrBefore(s, target) == None
  {
    if k > 0 {
      FirstAtOrBeforeAt(s[1..], target, k - 1);
    }
  }

  /** Inserting an entry later than the target does not change which entry is found first. */
  lemma {:induction false} InsertLater(e: HistoryEntry, sorted: seq<HistoryEntry>, target: int)
    requires e.modifiedAt > target
    ensures FirstAtOrBefore(Insert(e, sorted), target) == FirstAtOrBefore(sorted, target)
  {
    if sorted != [] && sorted[0].modifiedAt > e.modifiedAt {
      InsertLater(e, sorted[1..], target);
    }
  }

  /** Inserting an entry not later than the target into a newest-first list. */
  lemma {:induction false} InsertEarlier(e: HistoryEntry, sorted: seq<HistoryEntry>, target: int)
    requires e.modifiedAt <= target
    requires NewestFirst(sorted)
    ensures FirstAtOrBefore(Insert(e, sorted), target) ==
      match FirstAtOrBefore(sorted, target)
      case None => Some(e)
      case Some(f) => if f.modifiedAt <= e.modifiedAt then Some(e) else Some(f)
  {
    if sorted == [] {
    } else if sorted[0].modifiedAt <= e.modifiedAt {
      FirstInSorted(sorted, target);
    } else if sorted[0].modifiedAt <= target {
    } else {
      InsertEarlier(e, sorted[1..], target);
    }
  }

  /** In a newest-first list the first match is no later than the head. */
  lemma {:induction false} FirstInSorted(s: seq<HistoryEntry>, target: int)
    requires NewestFirst(s) && s != []
    ensures FirstAtOrBefore(s, target).Some? ==> FirstAtOrBefore(s, target).value.modifiedAt <= s[0].modifiedAt
  {
    if s[0].modifiedAt > target && |s| > 1 {
      FirstInSorted(s[1..], target);
    }
  }

  /** Scanning the sorted copy finds exactly the entry ChosenIndex designates. */
  lemma {:induction false} ScanFindsChosen(history: seq<HistoryEntry>, target: int)
    ensures FirstAtOrBefore(SortNewestFirst(history), target) == Chosen(history, target)
  {
    if history != [] {
      var tail := history[1..];
      ScanFindsChosen(tail, target);
      var rest := ChosenIndex(tail, target);
      assert Chosen(tail, target) == if rest.None? then None else Some(history[1 + rest.value]);
      if history[0].modifiedAt <= target {
        InsertEarlier(history[0], SortNewestFirst(tail), target);
      } else {
        InsertLater(history[0], SortNewestFirst(tail), target);
      }
    }
  }

  /**
   * Where the scan of the sorted copy stops: at the end exactly when every entry is later
   * than the target, and otherwise at the entry ChosenIndex designates.
   */
  lemma ScanStop(history: seq<HistoryEntry>, target: int, sorted: seq<HistoryEntry>, i: nat)
    requires sorted == SortNewestFirst(history)
    requires i <= |sorted| && forall j :: 0 <= j < i ==> sorted[j].modifiedAt > target
    requires i < |sorted| ==> sorted[i].modifiedAt <= target
    ensures i == |sorted| <==> forall k :: 0 <= k < |history| ==> history[k].modifiedAt > target
    ensures i < |sorted| ==> ChosenIndex(history, target).Some?
                             && sorted[i] == history[ChosenIndex(history, target).value]
  {
    FirstAtOrBeforeAt(sorted, target, i);
    ScanFindsChosen(history, target);
  }

  /** The scan loop: the position of the first entry not later than `target`, |s| when there is none. */
  method ScanNotLater(s: seq<HistoryEntry>, target: int) returns (i: nat)
    ensures i <= |s| && forall j :: 0 <= j < i ==> s[j].modifiedAt > target
    ensures i < |s| ==> s[i].modifiedAt <= target
  {
    i := 0;
    while i < |s|
      invariant i <= |s|
      invariant forall j :: 0 <= j < i ==> s[j].modifiedAt > target
    {
      if s[i].modifiedAt <= target {
        return;
      }
      i := i + 1;
    }
  }

  /**
   * findCellValueAtTimestamp: the fields of the entry in effect at `target`, or None
   * (the source's null) when every entry is later than the target.
   */
  method FindCellValueAtTimestamp(history: seq<HistoryEntry>, target: int) returns (r: Option<CellFields>)
    ensures r.None? <==> forall i :: 0 <= i < |history| ==> history[i].modifiedAt > target
    ensures r.Some? ==> ChosenIndex(history, target).Some? && r.value == history[ChosenIndex(history, target).value].fields
  {
    var sorted := SortNewestFirst(history);
    var i := ScanNotLater(sorted, target);
    ScanStop(history, target, sorted, i);
    if i < |sorted| {
      r := Some(sorted[i].fields);
    } else {
      r := None;
    }
  }
}

/** The scan orchestrator and the delete protocol (viewmodel/MainViewModel.kt). Each LiveData
    is a field holding its latest value; `stateUpdates` lists every value given to the scan
    state, in order. The scanner's run, the finders and the outcome of each `File.delete()`
    are parameters. */
module MainViewModel {
  import opened Wrappers
  import opened FileData
  import opened Collections

  datatype ScanState = Idle | Scanning(filesFound: int) | Done | Error(message: string)

  datatype StorageStats = StorageStats(
    totalFiles: int,
    totalSize: int,
    junkSize: int,
    duplicateSize: int,
    largeSize: int)

  datatype DeleteResult = DeleteResult(deleted: int, failed: int, freedBytes: int)

  /** `e.message ?: "Unknown error"`. */
  function ErrorMessage(message: Option<string>): (s: string)
    ensures message.Some? ==> s == message.value
    ensures message.None? ==> s == "Unknown error"
  {
    match message
    case Some(m) => m
    case None => "Unknown error"
  }

  /** The scan state published for each progress count of the scanner. */
  function ProgressStates(progress: seq<int>): (r: seq<ScanState>)
    ensures |r| == |progress| && forall i :: 0 <= i < |progress| ==> r[i] == Scanning(progress[i])
  {
    seq(|progress|, i requires 0 <= i < |progress| => Scanning(progress[i]))
  }

  const DefaultMinLargeFileMb: int := 50

  /** `minLargeFileMb * 1024L * 1024L`: Int times Long is computed in Long. */
  function LargeFileThreshold(minLargeFileMb: int): int {
    minLargeFileMb * 1024 * 1024
  }

  /** The threshold counts mebibytes, cannot overflow a Long for any Int argument, and is
      52428800 bytes by default. */
  lemma LargeFileThresholdFacts(minLargeFileMb: int)
    requires IsInt(minLargeFileMb)
    ensures LargeFileThreshold(minLargeFileMb) == minLargeFileMb * 1048576
    ensures IsLong(LargeFileThreshold(minLargeFileMb))
    ensures LargeFileThreshold(DefaultMinLargeFileMb) == 52428800
  {
  }

  /** `it.category == c`. */
  function HasCategory(c: FileCategory): FileItem -> bool {
    (item: FileItem) => item.category == c
  }

  /** Every group is non-empty and holds at most `n` items. */
  predicate GroupsBounded(groups: map<FileCategory, seq<FileItem>>, n: int) {
    forall c :: c in groups ==> 0 < |groups[c]| <= n
  }

  /** `groupBy { it.category }`: each item in turn is appended to the group of its category,
      which is created when the category first occurs. */
  function GroupByCategory(files: seq<FileItem>): (groups: map<FileCategory, seq<FileItem>>)
    ensures GroupsBounded(groups, |files|)
  {
    if files == [] then map[]
    else
      var n := |files| - 1;
      var g := GroupByCategory(files[..n]);
      var c := files[n].category;
      g[c := (if c in g then g[c] else []) + [files[n]]]
  }

  /** The groups are the list split by category: there is a group for a category exactly
      when an item has it, and that group is the list filtered to the category, in order. */
  lemma {:induction false} GroupsAreFilters(files: seq<FileItem>)
    ensures forall c :: c in GroupByCategory(files) <==> HasItemOf(files, c)
    ensures forall c :: c in GroupByCategory(files) ==> GroupByCategory(files)[c] == Filter(files, HasCategory(c))
  {
    if files != [] {
      var n := |files| - 1;
      GroupsAreFilters(files[..n]);
      forall c
        ensures c in GroupByCategory(files) <==> HasItemOf(files, c)
        ensures c in GroupByCategory(files) ==> GroupByCategory(files)[c] == Filter(files, HasCategory(c))
      {
        GroupStep(files, c);
      }
    }
  }

  /** Some item of the list has category `c`. */
  predicate HasItemOf(files: seq<FileItem>, c: FileCategory) {
    exists i :: 0 <= i < |files| && files[i].category == c
  }

  /** Appending the last item creates the group of its category and keeps the others. */
  lemma GroupStepKeys(files: seq<FileItem>, c: FileCategory)
    requires files != []
    requires c in GroupByCategory(files[..|files| - 1]) <==> HasItemOf(files[..|files| - 1], c)
    ensures c in GroupByCategory(files) <==> HasItemOf(files, c)
  {
    var n := |files| - 1;
    var g := GroupByCategory(files[..n]);
    var k := files[n].category;
    assert GroupByCategory(files) == g[k := (if k in g then g[k] else []) + [files[n]]];
    HasItemSnoc(files, c);
  }

  /** An item of the list has category `c` exactly when the last one or an earlier one has. */
  lemma HasItemSnoc(files: seq<FileItem>, c: FileCategory)
    requires files != []
    ensures HasItemOf(files, c) <==> HasItemOf(files[..|files| - 1], c) || files[|files| - 1].category == c
  {
    var n := |files| - 1;
    var front := files[..n];
    if HasItemOf(front, c) {
      var i :| 0 <= i < n && front[i].category == c;
      assert files[i].category == c;
    }
    if HasItemOf(files, c) && files[n].category != c {
      var i :| 0 <= i < |files| && files[i].category == c;
      assert front[i].category == c;
    }
  }

  /** Appending the last item keeps the group of every category equal to the filter. */
  lemma GroupStep(files: seq<FileItem>, c: FileCategory)
    requires files != []
    requires var front := files[..|files| - 1];
             && (c in GroupByCategory(front) <==> HasItemOf(front, c))
             && (c in GroupByCategory(front) ==> GroupByCategory(front)[c] == Filter(front, HasCategory(c)))
    ensures c in GroupByCategory(files) <==> HasItemOf(files, c)
    ensures c in GroupByCategory(files) ==> GroupByCategory(files)[c] == Filter(files, HasCategory(c))
  {
    var n := |files| - 1;
    var front := files[..n];
    var x := files[n];
    GroupStepKeys(files, c);
    if c in GroupByCategory(files) {
      assert files == front + [x];
      FilterAppend(front, [x], HasCategory(c));
      assert [x][1..] == [];
      if c !in GroupByCategory(front) {
        FilterNoneKept(front, HasCategory(c));
      }
    }
  }

  /** A filter that accepts no element yields nothing. */
  lemma {:induction false} FilterNoneKept(s: seq<FileItem>, keep: FileItem -> bool)
    requires forall i :: 0 <= i < |s| ==> !keep(s[i])
    ensures Filter(s, keep) == []
  {
    if s != [] {
      FilterNoneKept(s[1..], keep);
    }
  }

  /** The groups cover the list exactly: every item is in the group of its category, and a
      group holds only items of the list with that category. */
  lemma GroupsCoverList(files: seq<FileItem>)
    ensures forall i :: 0 <= i < |files| ==>
              files[i].category in GroupByCategory(files) && files[i] in GroupByCategory(files)[files[i].category]
    ensures forall c, k :: c in GroupByCategory(files) && 0 <= k < |GroupByCategory(files)[c]| ==>
              GroupByCategory(files)[c][k] in files && GroupByCategory(files)[c][k].category == c
  {
    var g := GroupByCategory(files);
    GroupsAreFilters(files);
    forall i | 0 <= i < |files|
      ensures files[i].category in g && files[i] in g[files[i].category]
    {
      FilterMembers(files, HasCategory(files[i].category));
      assert HasCategory(files[i].category)(files[i]);
    }
    forall c, k | c in g && 0 <= k < |g[c]|
      ensures g[c][k] in files && g[c][k].category == c
    {
      FilterMembers(files, HasCategory(c));
      assert HasCategory(c)(g[c][k]);
    }
  }

  /** `it.path !in deletedPaths`. */
  function NotDeleted(deletedPaths: set<string>): FileItem -> bool {
    (item: FileItem) => item.path !in deletedPaths
  }

  /** The items whose `delete()` returned true, in list order. */
  function DeletedItems(toDelete: seq<FileItem>, outcomes: seq<bool>): seq<FileItem>
    requires |outcomes| == |toDelete|
  {
    if toDelete == [] then []
    else
      var n := |toDelete| - 1;
      DeletedItems(toDelete[..n], outcomes[..n]) + if outcomes[n] then [toDelete[n]] else []
  }

  /** Some call on `x` returned true. */
  predicate SucceededOn(toDelete: seq<FileItem>, outcomes: seq<bool>, x: FileItem) {
    exists i :: 0 <= i < |toDelete| && i < |outcomes| && outcomes[i] && toDelete[i] == x
  }

  /** The deleted items are exactly the requested items whose call succeeded, with repeats,
      so there are never more of them than requested. */
  lemma {:induction false} DeletedItemsAreSuccesses(toDelete: seq<FileItem>, outcomes: seq<bool>)
    requires |outcomes| == |toDelete|
    ensures |DeletedItems(toDelete, outcomes)| <= |toDelete|
    ensures forall k :: 0 <= k < |DeletedItems(toDelete, outcomes)| ==>
              SucceededOn(toDelete, outcomes, DeletedItems(toDelete, outcomes)[k])
    ensures forall i :: 0 <= i < |toDelete| && outcomes[i] ==> toDelete[i] in DeletedItems(toDelete, outcomes)
  {
    if toDelete != [] {
      var n := |toDelete| - 1;
      var front := DeletedItems(toDelete[..n], outcomes[..n]);
      var r := DeletedItems(toDelete, outcomes);
      DeletedItemsAreSuccesses(toDelete[..n], outcomes[..n]);
      assert r == front + if outcomes[n] then [toDelete[n]] else [];
      forall k | 0 <= k < |r|
        ensures SucceededOn(toDelete, outcomes, r[k])
      {
        if k < |front| {
          assert r[k] == front[k];
          assert SucceededOn(toDelete[..n], outcomes[..n], front[k]);
          var i :| 0 <= i < n && outcomes[..n][i] && toDelete[..n][i] == front[k];
          assert outcomes[i] && toDelete[i] == r[k];
        } else {
          assert outcomes[n] && toDelete[n] == r[k];
        }
      }
      forall i | 0 <= i < |toDelete| && outcomes[i]
        ensures toDelete[i] in r
      {
        if i < n {
          assert outcomes[..n][i] && toDelete[..n][i] == toDelete[i];
        }
      }
    }
  }

  /** The stats of a set of views: the number and size of all files, and the size of each
      derived list. */
  function StatsOf(files: seq<FileItem>, junk: seq<FileItem>, duplicates: seq<FileItem>,
                   large: seq<FileItem>): StorageStats
  {
    StorageStats(|files|, SumSizes(files), SumSizes(junk), SumSizes(duplicates), SumSizes(large))
  }

  /** The stats `deleteFiles` posts as written: `.value` is read right after `postValue`, which
      does not change it synchronously, so the derived sizes come from the views before the
      deletion. */
  function StaleDeleteStats(remaining: seq<FileItem>, oldJunk: seq<FileItem>,
                            oldDuplicates: seq<FileItem>, oldLarge: seq<FileItem>): (s: StorageStats)
    ensures s.totalFiles == |remaining| && s.totalSize == SumSizes(remaining)
    ensures s.duplicateSize == SumSizes(oldDuplicates)
  {
    StatsOf(remaining, oldJunk, oldDuplicates, oldLarge)
  }

  /** The stale stats keep counting a deleted duplicate: after deleting the only duplicate A
      of 100 bytes the duplicates view is empty, but the as-written stats still report 100. */
  lemma StaleStatsCountDeletedDuplicate()
    ensures var a := FileItem("/sdcard/a.jpg", "a.jpg", 100, 0, Image, 0);
            var dupes := Filter([a], NotDeleted({a.path}));
            && dupes == []
            && StaleDeleteStats([], [], [a], []).duplicateSize == 100
            && StatsOf([], [], dupes, []).duplicateSize == 0
  {
    var a := FileItem("/sdcard/a.jpg", "a.jpg", 100, 0, Image, 0);
    assert !NotDeleted({a.path})(a);
    assert [a][1..] == [];
  }

  class MainViewModel {
    var scanState: ScanState
    var stateUpdates: seq<ScanState>
    var allFiles: seq<FileItem>
    var filesByCategory: map<FileCategory, seq<FileItem>>
    var duplicates: seq<FileItem>
    var largeFiles: seq<FileItem>
    var junkFiles: seq<FileItem>
    var storageStats: Option<StorageStats>
    var deleteResult: Option<DeleteResult>

    /** The initial LiveData values: Idle, empty lists and map, no stats and no result. */
    constructor()
      ensures scanState == Idle && stateUpdates == []
      ensures allFiles == [] && filesByCategory == map[]
      ensures duplicates == [] && largeFiles == [] && junkFiles == []
      ensures storageStats == None && deleteResult == None
    {
      scanState := Idle;
      stateUpdates := [];
      allFiles := [];
      filesByCategory := map[];
      duplicates := [];
      largeFiles := [];
      junkFiles := [];
      storageStats := None;
      deleteResult := None;
    }

    /** Sets the scan state and records it. */
    method SetScanState(s: ScanState)
      modifies this`scanState, this`stateUpdates
      ensures scanState == s && stateUpdates == old(stateUpdates) + [s]
    {
      scanState := s;
      stateUpdates := stateUpdates + [s];
    }

    /** `startScan`: Scanning(0), then Scanning(c) for each count the scanner reports, then
        the views in order (files, groups, duplicates, large files, junk, stats) and Done; the
        first exception ends the run in Error with the views posted so far. */
    method StartScan(scan: Attempt<seq<FileItem>>, progress: seq<int>, minLargeFileMb: int,
                     findDuplicates: seq<FileItem> -> Attempt<seq<FileItem>>,
                     findLargeFiles: (seq<FileItem>, int) -> Attempt<seq<FileItem>>,
                     findJunk: seq<FileItem> -> Attempt<seq<FileItem>>)
      requires IsInt(minLargeFileMb)
      modifies this`scanState, this`stateUpdates, this`allFiles, this`filesByCategory
      modifies this`duplicates, this`largeFiles, this`junkFiles, this`storageStats
      ensures |stateUpdates| == |old(stateUpdates)| + |progress| + 2
      ensures stateUpdates[..|old(stateUpdates)| + 1 + |progress|]
                == old(stateUpdates) + [Scanning(0)] + ProgressStates(progress)
      ensures scanState == stateUpdates[|stateUpdates| - 1]
      ensures deleteResult == old(deleteResult)
      ensures scan.Threw? ==>
                && scanState == Error(ErrorMessage(scan.message))
                && allFiles == old(allFiles) && filesByCategory == old(filesByCategory)
                && duplicates == old(duplicates) && largeFiles == old(largeFiles)
                && junkFiles == old(junkFiles) && storageStats == old(storageStats)
      ensures scan.Returned? ==>
                var files := scan.value;
                var dupes := findDuplicates(files);
                var large := findLargeFiles(files, LargeFileThreshold(minLargeFileMb));
                var junk := findJunk(files);
                && allFiles == files && filesByCategory == GroupByCategory(files)
                && (dupes.Threw? ==>
                      && scanState == Error(ErrorMessage(dupes.message))
                      && duplicates == old(duplicates) && largeFiles == old(largeFiles)
                      && junkFiles == old(junkFiles) && storageStats == old(storageStats))
                && (dupes.Returned? ==> duplicates == dupes.value)
                && (dupes.Returned? && large.Threw? ==>
                      && scanState == Error(ErrorMessage(large.message))
                      && largeFiles == old(largeFiles) && junkFiles == old(junkFiles)
                      && storageStats == old(storageStats))
                && (dupes.Returned? && large.Returned? ==> largeFiles == large.value)
                && (dupes.Returned? && large.Returned? && junk.Threw? ==>
                      && scanState == Error(ErrorMessage(junk.message))
                      && junkFiles == old(junkFiles) && storageStats == old(storageStats))
                && (dupes.Returned? && large.Returned? && junk.Returned? ==>
                      && junkFiles == junk.value
                      && storageStats == Some(StorageStats(|files|, SumSizes(files), SumSizes(junk.value),
                                                           SumSizes(dupes.value), SumSizes(large.value)))
                      && scanState == Done)
    {
      SetScanState(Scanning(0));
      PublishProgress(progress);
      ghost var reported := stateUpdates;
      match scan {
        case Threw(m) =>
          SetScanState(Error(ErrorMessage(m)));
        case Returned(files) =>
          PublishResults(files, LargeFileThreshold(minLargeFileMb), findDuplicates, findLargeFiles, findJunk);
      }
      assert stateUpdates[..|reported|] == reported;
    }

    /** The scanner's progress callback: Scanning(c) for each count, in order. */
    method PublishProgress(progress: seq<int>)
      modifies this`scanState, this`stateUpdates
      ensures stateUpdates == old(stateUpdates) + ProgressStates(progress)
    {
      var i := 0;
      while i < |progress|
        invariant 0 <= i <= |progress|
        invariant stateUpdates == old(stateUpdates) + ProgressStates(progress[..i])
      {
        assert ProgressStates(progress[..i + 1]) == ProgressStates(progress[..i]) + [Scanning(progress[i])];
        SetScanState(Scanning(progress[i]));
        i := i + 1;
      }
      assert progress[..i] == progress;
    }

    /** The part of `startScan` after a successful scan: the files and their groups, then each
        finder in turn with its view, then the stats and Done; an exception from a finder ends
        the run in Error and leaves the later views as they were. */
    method PublishResults(files: seq<FileItem>, largeThreshold: int,
                          findDuplicates: seq<FileItem> -> Attempt<seq<FileItem>>,
                          findLargeFiles: (seq<FileItem>, int) -> Attempt<seq<FileItem>>,
                          findJunk: seq<FileItem> -> Attempt<seq<FileItem>>)
      modifies this`scanState, this`stateUpdates, this`allFiles, this`filesByCategory
      modifies this`duplicates, this`largeFiles, this`junkFiles, this`storageStats
      ensures stateUpdates == old(stateUpdates) + [scanState]
      ensures allFiles == files && filesByCategory == GroupByCategory(files)
      ensures var dupes := findDuplicates(files);
              var large := findLargeFiles(files, largeThreshold);
              var junk := findJunk(files);
              && (dupes.Threw? ==>
                    && scanState == Error(ErrorMessage(dupes.message))
                    && duplicates == old(duplicates) && largeFiles == old(largeFiles)
                    && junkFiles == old(junkFiles) && storageStats == old(storageStats))
              && (dupes.Returned? ==> duplicates == dupes.value)
              && (dupes.Returned? && large.Threw? ==>
                    && scanState == Error(ErrorMessage(large.message))
                    && largeFiles == old(largeFiles) && junkFiles == old(junkFiles)
                    && storageStats == old(storageStats))
              && (dupes.Returned? && large.Returned? ==> largeFiles == large.value)
              && (dupes.Returned? && large.Returned? && junk.Threw? ==>
                    && scanState == Error(ErrorMessage(junk.message))
                    && junkFiles == old(junkFiles) && storageStats == old(storageStats))
              && (dupes.Returned? && large.Returned? && junk.Returned? ==>
                    && junkFiles == junk.value
                    && storageStats == Some(StorageStats(|files|, SumSizes(files), SumSizes(junk.value),
                                                         SumSizes(dupes.value), SumSizes(large.value)))
                    && scanState == Done)
    {
      allFiles := files;
      filesByCategory := GroupByCategory(files);
      var dupes := findDuplicates(files);
      if dupes.Threw? {
        SetScanState(Error(ErrorMessage(dupes.message)));
        return;
      }
      duplicates := dupes.value;
      PublishLargeAndJunk(files, dupes.value, findLargeFiles(files, largeThreshold), findJunk(files));
    }

    /** The finders after the duplicate finder returned `dupes`: the large-file finder's
        outcome `large`, then the junk finder's outcome `junk`, then the stats and Done. */
    method PublishLargeAndJunk(files: seq<FileItem>, dupes: seq<FileItem>,
                               large: Attempt<seq<FileItem>>, junk: Attempt<seq<FileItem>>)
      modifies this`scanState, this`stateUpdates, this`largeFiles, this`junkFiles, this`storageStats
      ensures stateUpdates == old(stateUpdates) + [scanState]
      ensures large.Threw? ==>
                && scanState == Error(ErrorMessage(large.message))
                && largeFiles == old(largeFiles) && junkFiles == old(junkFiles)
                && storageStats == old(storageStats)
      ensures large.Returned? ==> largeFiles == large.value
      ensures large.Returned? && junk.Threw? ==>
                && scanState == Error(ErrorMessage(junk.message))
                && junkFiles == old(junkFiles) && storageStats == old(storageStats)
      ensures large.Returned? && junk.Returned? ==>
                && junkFiles == junk.value
                && storageStats == Some(StorageStats(|files|, SumSizes(files), SumSizes(junk.value),
                                                     SumSizes(dupes), SumSizes(large.value)))
                && scanState == Done
    {
      if large.Threw? {
        SetScanState(Error(ErrorMessage(large.message)));
        return;
      }
      largeFiles := large.value;
      if junk.Threw? {
        SetScanState(Error(ErrorMessage(junk.message)));
        return;
      }
      junkFiles := junk.value;
      storageStats := Some(StatsOf(files, junk.value, dupes, large.value));
      SetScanState(Done);
    }

    /** `deleteFiles`: one `delete()` per item, whose outcomes are `outcomes`. The result counts
        the distinct deleted paths, the rest of the request as failed, and the bytes of every
        successful call. Every view keeps exactly its items whose path was not deleted, in
        order; the groups and the stats are recomputed from the filtered views. */
    method DeleteFiles(toDelete: seq<FileItem>, outcomes: seq<bool>)
      requires |outcomes| == |toDelete|
      modifies this
      ensures var deletedPaths := PathSet(DeletedItems(toDelete, outcomes));
              && deleteResult == Some(DeleteResult(|deletedPaths|, |toDelete| - |deletedPaths|,
                                                   SumSizes(DeletedItems(toDelete, outcomes))))
              && allFiles == Filter(old(allFiles), NotDeleted(deletedPaths))
              && duplicates == Filter(old(duplicates), NotDeleted(deletedPaths))
              && largeFiles == Filter(old(largeFiles), NotDeleted(deletedPaths))
              && junkFiles == Filter(old(junkFiles), NotDeleted(deletedPaths))
      ensures filesByCategory == GroupByCategory(allFiles)
      ensures storageStats == Some(StatsOf(allFiles, junkFiles, duplicates, largeFiles))
      ensures scanState == old(scanState) && stateUpdates == old(stateUpdates)
    {
      var succeeded, freed := DeleteEach(toDelete, outcomes);
      ApplyDeletion(|toDelete|, succeeded, freed);
    }

    /** The part of `deleteFiles` after the loop: posts the result for `requested` items, then
        filters every view by the deleted paths and recomputes the groups and the stats. */
    method ApplyDeletion(requested: int, deletedPaths: set<string>, freed: int)
      modifies this
      ensures deleteResult == Some(DeleteResult(|deletedPaths|, requested - |deletedPaths|, freed))
      ensures allFiles == Filter(old(allFiles), NotDeleted(deletedPaths))
      ensures duplicates == Filter(old(duplicates), NotDeleted(deletedPaths))
      ensures largeFiles == Filter(old(largeFiles), NotDeleted(deletedPaths))
      ensures junkFiles == Filter(old(junkFiles), NotDeleted(deletedPaths))
      ensures filesByCategory == GroupByCategory(allFiles)
      ensures storageStats == Some(StatsOf(allFiles, junkFiles, duplicates, largeFiles))
      ensures scanState == old(scanState) && stateUpdates == old(stateUpdates)
    {
      deleteResult := Some(DeleteResult(|deletedPaths|, requested - |deletedPaths|, freed));
      RemoveFromViews(deletedPaths);
      PostStats();
    }

    /** Filters every view by the deleted paths and regroups the remaining files. */
    method RemoveFromViews(deletedPaths: set<string>)
      modifies this`allFiles, this`filesByCategory, this`duplicates, this`largeFiles, this`junkFiles
      ensures allFiles == Filter(old(allFiles), NotDeleted(deletedPaths))
      ensures duplicates == Filter(old(duplicates), NotDeleted(deletedPaths))
      ensures largeFiles == Filter(old(largeFiles), NotDeleted(deletedPaths))
      ensures junkFiles == Filter(old(junkFiles), NotDeleted(deletedPaths))
      ensures filesByCategory == GroupByCategory(allFiles)
    {
      var remaining := Filter(allFiles, NotDeleted(deletedPaths));
      var dupes := Filter(duplicates, NotDeleted(deletedPaths));
      var large := Filter(largeFiles, NotDeleted(deletedPaths));
      var junk := Filter(junkFiles, NotDeleted(deletedPaths));
      allFiles, filesByCategory := remaining, GroupByCategory(remaining);
      duplicates, largeFiles, junkFiles := dupes, large, junk;
    }

    /** Posts the stats of the current views. */
    method PostStats()
      modifies this`storageStats
      ensures storageStats == Some(StatsOf(allFiles, junkFiles, duplicates, largeFiles))
    {
      storageStats := Some(StatsOf(allFiles, junkFiles, duplicates, largeFiles));
    }
  }

  /** The loop of `deleteFiles`: calls `delete()` on each item in turn, collecting the paths
      that were deleted and adding up the bytes freed by each successful call. */
  method DeleteEach(toDelete: seq<FileItem>, outcomes: seq<bool>) returns (succeeded: set<string>, freed: int)
    requires |outcomes| == |toDelete|
    ensures succeeded == PathSet(DeletedItems(toDelete, outcomes))
    ensures freed == SumSizes(DeletedItems(toDelete, outcomes))
  {
    freed := 0;
    succeeded := {};
    var i := 0;
    while i < |toDelete|
      invariant 0 <= i <= |toDelete|
      invariant freed == SumSizes(DeletedItems(toDelete[..i], outcomes[..i]))
      invariant succeeded == PathSet(DeletedItems(toDelete[..i], outcomes[..i]))
    {
      DeleteStep(toDelete, outcomes, i);
      if outcomes[i] {
        succeeded := succeeded + {toDelete[i].path};
        freed := freed + toDelete[i].size;
      }
      i := i + 1;
    }
    assert toDelete[..i] == toDelete && outcomes[..i] == outcomes;
  }

  /** One more `delete()` call extends the deleted items by the item when it succeeded: its
      size is freed and its path joins the deleted paths. */
  lemma DeleteStep(toDelete: seq<FileItem>, outcomes: seq<bool>, i: nat)
    requires |outcomes| == |toDelete| && i < |toDelete|
    ensures var before := DeletedItems(toDelete[..i], outcomes[..i]);
            var after := DeletedItems(toDelete[..i + 1], outcomes[..i + 1]);
            && after == before + (if outcomes[i] then [toDelete[i]] else [])
            && SumSizes(after) == SumSizes(before) + (if outcomes[i] then toDelete[i].size else 0)
            && PathSet(after) == PathSet(before) + (if outcomes[i] then {toDelete[i].path} else {})
  {
    var before := DeletedItems(toDelete[..i], outcomes[..i]);
    assert toDelete[..i + 1][..i] == toDelete[..i];
    assert outcomes[..i + 1][..i] == outcomes[..i];
    if outcomes[i] {
      SumSizesAppend(before, [toDelete[i]]);
      assert [toDelete[i]][1..] == [];
      assert (before + [toDelete[i]])[..|before|] == before;
    } else {
      assert before + [] == before;
    }
  }

  /** The delete result never counts more deleted paths than items, so `deleted + failed` is
      the number of items and `failed` is not negative. */
  lemma DeleteCountsAddUp(toDelete: seq<FileItem>, outcomes: seq<bool>)
    requires |outcomes| == |toDelete|
    ensures 0 <= |PathSet(DeletedItems(toDelete, outcomes))| <= |toDelete|
  {
    DeletedItemsAreSuccesses(toDelete, outcomes);
    PathSetMembers(DeletedItems(toDelete, outcomes));
  }

  /** A view filtered after a deletion keeps an item exactly when its path was not deleted;
      an item whose `delete()` failed stays unless another item with its path was deleted. */
  lemma FilterByDeletedPaths(view: seq<FileItem>, deletedPaths: set<string>)
    ensures forall i :: 0 <= i < |view| ==> (view[i] in Filter(view, NotDeleted(deletedPaths)) <==> view[i].path !in deletedPaths)
    ensures forall k :: 0 <= k < |Filter(view, NotDeleted(deletedPaths))| ==>
              Filter(view, NotDeleted(deletedPaths))[k].path !in deletedPaths
  {
    FilterMembers(view, NotDeleted(deletedPaths));
    forall i | 0 <= i < |view| && view[i] in Filter(view, NotDeleted(deletedPaths))
      ensures view[i].path !in deletedPaths
    {
      var r := Filter(view, NotDeleted(deletedPaths));
      var k :| 0 <= k < |r| && r[k] == view[i];
      assert NotDeleted(deletedPaths)(r[k]);
    }
  }

  /** Deleting A (100 bytes) and failing on B (200 bytes) gives one deleted, one failed and 100
      bytes freed, and leaves B alone with 200 bytes in the totals. */
  lemma DeleteExample(a: FileItem, b: FileItem)
    requires a.path != b.path && a.size == 100 && b.size == 200
    ensures var deletedPaths := PathSet(DeletedItems([a, b], [true, false]));
            var remaining := Filter([a, b], NotDeleted(deletedPaths));
            && DeleteResult(|deletedPaths|, 2 - |deletedPaths|, SumSizes(DeletedItems([a, b], [true, false])))
               == DeleteResult(1, 1, 100)
            && remaining == [b] && SumSizes(remaining) == 200
  {
    assert [a, b][..1] == [a] && [true, false][..1] == [true];
    assert [a][..0] == [] && [true][..0] == [];
    assert DeletedItems([a], [true]) == [a];
    assert DeletedItems([a, b], [true, false]) == [a];
    assert PathSet([a]) == {a.path};
    var keep := NotDeleted({a.path});
    assert [a, b][1..] == [b] && [b][1..] == [];
    assert !keep(a) && keep(b);
    assert Filter([b], keep) == [b];
    assert Filter([a, b], keep) == [b];
  }
}

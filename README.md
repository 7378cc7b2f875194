# File Cleaner core, modelled in Dafny

This project is a Dafny model of the sequential core of the File Cleaner Android app. It covers four parts:

- **The storage walker and classifier (`FileScanner`).**
  - A lookup table from lowercased extensions to file categories, with a case-insensitive `/Download/` fallback.
  - An explicit-stack walk that skips directories by a root-relative prefix rule or a leading dot, and reports progress every 100 files.
  - `scanWithTree`, which records every kept directory in a `LinkedHashMap` and then builds the directory tree bottom-up, deepest directories first.
- **The snapshot cache (`ScanCache`).**
  - Encoding and decoding of `FileItem` and `DirectoryNode` to a JSON value tree, with its defaulting rules.
  - `load`, which keeps only files that still exist and deletes a corrupt cache file.
  - `pruneDeletedFiles`, which recomputes the tree's aggregates instead of trusting the stored ones.
- **The scan orchestrator (`MainViewModel`).**
  - The `ScanState` machine of `startScan`.
  - The storage stats.
  - The large-file threshold.
  - The `deleteFiles` protocol across all five views.
- **The selection logic of the file list (`FileAdapter`).**
  - The `selectedPaths` set operations.
  - `selectAllDuplicatesExceptBest`.
  - The view-type mapping and the duplicate colour index.

The file system is an `Entry` tree (`FileScanner.Entry`).

- A directory either has a listing or is unlistable. Unlistable stands for `listFiles() == null`.
- A file carries its length and modification time.
- File existence is a set of paths.
- The outcomes of `File.delete()` are a sequence of booleans, one per requested item.
- `DuplicateFinder` and `JunkFinder` are function parameters. Each either returns a list or throws.

Modules follow the program:

| Module | Models |
|---|---|
| `FileData` | `FileItem.kt` and `DirectoryNode.kt` |
| `Json` | the org.json value tree and its typed accessors |
| `Text` | the Kotlin string functions used |
| `Collections` | `filter`, `mapNotNull`, the stable `sortedByDescending` and `LinkedHashMap` |
| `FileScanner`, `ScanCache`, `MainViewModel`, `FileAdapter` | the four core classes |

The view model and the adapter are Dafny classes whose methods update their fields. The LiveData values become plain fields, and `stateUpdates` records every posted scan state.

The walks and the loops of `load`, `save` and `deleteFiles` are methods with loop invariants. Each is proved against a specification function:

- `WalkOrder(Tree(...))` for both walks;
- `JsonToItems` and `Filter` for the cache loops;
- `DeletedItems` for the delete loop.

Lemmas prove the properties of those functions.

`startScan` posts `allFiles` and `filesByCategory` before any finder runs (MainViewModel.kt:72-75). So a finder that throws leaves those two updated, while the later views and the stats keep their old values (`MainViewModel.MainViewModel.PublishResults`).

## Model

| member | source | states |
|---|---|---|
| FileData.CategoryValueOf | app/src/main/java/com/filecleaner/app/utils/ScanCache.kt:99-103 | `FileCategory.valueOf` yields a category exactly when the text is that category's enum name, and fails on every other text |
| FileData.CategoryNameRoundTrip | app/src/main/java/com/filecleaner/app/data/FileItem.kt:7-16 | every category is read back from its own enum name, so the eight names are distinct |
| FileData.PathSetMembers | app/src/main/java/com/filecleaner/app/ui/adapters/FileAdapter.kt:185-188 | a path is selected by a list's paths exactly when some list item has it; the set is no larger than the list |
| FileData.SumSizesAppend | app/src/main/java/com/filecleaner/app/viewmodel/MainViewModel.kt:90-96 | the size sum of two concatenated lists is the sum of their size sums |
| FileData.ConsistentTotals | app/src/main/java/com/filecleaner/app/data/DirectoryNode.kt:3-11 | a node that keeps the aggregate invariant has `totalSize` equal to the size sum of all files below it and `totalFileCount` equal to their number |
| Collections.FirstMaxIndexIsFirstMax | app/src/main/java/com/filecleaner/app/ui/adapters/FileAdapter.kt:172-173 | the chosen index holds a greatest key and no earlier element has that key, which is the element a stable descending sort puts first |
| Collections.SortIsPermutation | app/src/main/java/com/filecleaner/app/utils/FileScanner.kt:118 | `sortedByDescending` reorders its input without adding or losing an element |
| Collections.SortIsDescending | app/src/main/java/com/filecleaner/app/utils/FileScanner.kt:118 | the sorted list has non-increasing keys |
| Collections.SortedHeadIsFirstMax | app/src/main/java/com/filecleaner/app/ui/adapters/FileAdapter.kt:172 | the first element after a stable descending sort is the earliest element with the greatest key |
| Collections.SortDropsFirstMax | app/src/main/java/com/filecleaner/app/ui/adapters/FileAdapter.kt:172-173 | dropping the head of the sorted list leaves exactly the input without its earliest greatest element, as a multiset |
| Collections.FilterSound | app/src/main/java/com/filecleaner/app/utils/ScanCache.kt:49 | every kept element comes from the input and satisfies the predicate |
| Collections.FilterComplete | app/src/main/java/com/filecleaner/app/utils/ScanCache.kt:49 | every input element that satisfies the predicate is kept |
| Collections.FilterAppend | app/src/main/java/com/filecleaner/app/utils/ScanCache.kt:44-52 | filtering a concatenation filters each part and keeps the order |
| Collections.FilterIdempotent | app/src/main/java/com/filecleaner/app/viewmodel/MainViewModel.kt:127-132 | filtering a second time by the same predicate changes nothing |
| Collections.MapNotNull | app/src/main/java/com/filecleaner/app/utils/FileScanner.kt:121 | `mapNotNull` yields only values of keys the map holds, and when every key is present it yields each key's value in key order |
| Collections.LinkedMap.Put | app/src/main/java/com/filecleaner/app/utils/FileScanner.kt:103 | a `LinkedHashMap` write sets the key's value and appends the key to the order only when it is new |
| Text.LowercaseFacts | app/src/main/java/com/filecleaner/app/utils/FileScanner.kt:154 | ASCII-only `lowercase()`: no upper-case ASCII letter remains, each one becomes its lower-case letter, all other characters are unchanged, and folding twice is folding once |
| Text.LastIndexOf | app/src/main/java/com/filecleaner/app/utils/FileScanner.kt:153 | the index found holds the character and no later position does; there is none exactly when the character is absent |
| Text.IndexOfFrom | app/src/main/java/com/filecleaner/app/utils/FileScanner.kt:55 | the first occurrence of the delimiter at or after a position, or none when there is no occurrence |
| Text.SubstringAfterPrefix | app/src/main/java/com/filecleaner/app/utils/FileScanner.kt:55 | `substringAfter(d)` of text that starts with `d` is what follows `d` |
| Text.SubstringAfter | app/src/main/java/com/filecleaner/app/utils/FileScanner.kt:55 | the text after the first occurrence of the delimiter, or the whole text when the delimiter does not occur |
| Text.ContainsIgnoreCase | app/src/main/java/com/filecleaner/app/utils/FileScanner.kt:155 | true exactly when the pattern occurs at some position, ignoring case |
| Json.ToInt32 | app/src/main/java/com/filecleaner/app/utils/ScanCache.kt:104 | `intValue()` of a Long lies in the Int range, agrees with it modulo 2^32, and is the identity on Int values |
| Json.OptIntReadsStoredNumber | app/src/main/java/com/filecleaner/app/utils/ScanCache.kt:104 | `optInt` gives the stored number when it is an Int, its low 32 bits (an Int congruent to it modulo 2^32) when it is a wider Long, and the fallback when the key is missing or holds no number |
| Json.NumberFieldsReadBack | app/src/main/java/com/filecleaner/app/utils/ScanCache.kt:85-92 | a number stored under a key reads back unchanged through `getLong`, and through `getInt` and `optInt` when it is an Int |
| Json.GetIntWrapsAround | app/src/main/java/com/filecleaner/app/utils/ScanCache.kt:146-147 | `getInt` of 2^31 reads back as -2^31 |
| FileScanner.MergedTableLookup | app/src/main/java/com/filecleaner/app/utils/FileScanner.kt:27-29 | the merged table holds exactly the extensions of the six groups; each one maps to the category of the last group that lists it |
| FileScanner.ImageExtensionsUnique | app/src/main/java/com/filecleaner/app/utils/FileScanner.kt:20-25 | no image extension is listed in any other group |
| FileScanner.VideoExtensionsUnique | app/src/main/java/com/filecleaner/app/utils/FileScanner.kt:20-25 | no video extension is listed in a later group |
| FileScanner.AudioExtensionsUnique | app/src/main/java/com/filecleaner/app/utils/FileScanner.kt:20-25 | no audio extension is listed in a later group |
| FileScanner.DocumentExtensionsUnique | app/src/main/java/com/filecleaner/app/utils/FileScanner.kt:20-25 | no document extension is listed in a later group |
| FileScanner.ApkExtensionsUnique | app/src/main/java/com/filecleaner/app/utils/FileScanner.kt:20-25 | no APK extension is listed as an archive |
| FileScanner.TableSendsGroupToCategory | app/src/main/java/com/filecleaner/app/utils/FileScanner.kt:18-30 | every extension of a category's group maps to that category |
| FileScanner.ExtensionLookup | app/src/main/java/com/filecleaner/app/utils/FileScanner.kt:18-30 | an extension maps to a category exactly when that category's group lists it; the table's keys are exactly the listed extensions |
| FileScanner.Extension | app/src/main/java/com/filecleaner/app/utils/FileScanner.kt:153 | the extension has no dot; it is the text after the last dot, or empty when the name has no dot |
| FileScanner.Classify | app/src/main/java/com/filecleaner/app/utils/FileScanner.kt:153-156 | a known lowercased extension decides the category; otherwise a case-insensitive `/Download/` in the path gives Download and anything else gives Other |
| FileScanner.UpperCaseExtensionIsImage | app/src/main/java/com/filecleaner/app/utils/FileScanner.kt:153-154 | `PHOTO.JPG` is an image |
| FileScanner.ExtensionBeatsDownloadFolder | app/src/main/java/com/filecleaner/app/utils/FileScanner.kt:154-156 | an `.mp3` under `/Download/` is audio, not Download |
| FileScanner.DownloadFolderFallback | app/src/main/java/com/filecleaner/app/utils/FileScanner.kt:155 | a file without a known extension under `/download/` (any case) is Download |
| FileScanner.EmptyExtensionIsUnknown | app/src/main/java/com/filecleaner/app/utils/FileScanner.kt:18-30 | the empty extension is in no group |
| FileScanner.ToFileItem | app/src/main/java/com/filecleaner/app/utils/FileScanner.kt:152-165 | the item carries the file's path, name, length and modification time, the category `Classify` gives for its path and name, and no duplicate group |
| FileScanner.AnyIsPrefixMeansSome | app/src/main/java/com/filecleaner/app/utils/FileScanner.kt:56 | the `SKIP_DIRS.any { startsWith }` test holds exactly when some entry is a prefix of the relative path |
| FileScanner.SkipRuleBelowRoot | app/src/main/java/com/filecleaner/app/utils/FileScanner.kt:55-56 | below the root, the skip rule looks only at the text after `rootPath/` |
| FileScanner.SkipRuleIsPlainPrefix | app/src/main/java/com/filecleaner/app/utils/FileScanner.kt:55-56 | the rule is a plain string prefix: `development` is skipped because `dev` is listed |
| FileScanner.SkipRuleLooksAtTheStart | app/src/main/java/com/filecleaner/app/utils/FileScanner.kt:56 | a listed name later in the relative path does not trigger the rule |
| FileScanner.SkipRuleIsPlainPrefixBelowRoot | app/src/main/java/com/filecleaner/app/utils/FileScanner.kt:55-56 | the two examples above hold for directories directly under any root |
| FileScanner.OwnFilesAreTheListedFiles | app/src/main/java/com/filecleaner/app/utils/FileScanner.kt:58-61 | the files a directory contributes are exactly its non-directory children, dot-named files included, each made by `toFileItem` |
| FileScanner.ChildFramesAreTheKeptDirs | app/src/main/java/com/filecleaner/app/utils/FileScanner.kt:54-57 | the subdirectories pushed are exactly the listed directories that the skip rule keeps, each one level deeper at its child path |
| FileScanner.Tree | app/src/main/java/com/filecleaner/app/utils/FileScanner.kt:127-135 | a directory's node has its path, name, depth and own files; an unlistable directory has no files, no children and zero totals |
| FileScanner.Trees | app/src/main/java/com/filecleaner/app/utils/FileScanner.kt:121 | the nodes of a list of directories are each one's node, in order |
| FileScanner.TreeIsConsistent | app/src/main/java/com/filecleaner/app/utils/FileScanner.kt:122-125 | every node of the built tree has `totalSize` equal to its own sizes plus its children's totals, and the same for the file count |
| FileScanner.TreeDepths | app/src/main/java/com/filecleaner/app/utils/FileScanner.kt:103 | every child node of a directory is one level deeper |
| FileScanner.WalkOrderIsPermutation | app/src/main/java/com/filecleaner/app/utils/FileScanner.kt:48-64 | the walk reports exactly the files of the tree, with multiplicity |
| FileScanner.WalkTotals | app/src/main/java/com/filecleaner/app/utils/FileScanner.kt:138-147 | the root's totals equal the number and size sum of the files the walk returns |
| FileScanner.PendingTrees | app/src/main/java/com/filecleaner/app/utils/FileScanner.kt:44-64 | the files still to come from the stack are the walk order of its directories' trees, top of stack first |
| FileScanner.ExpandFrame | app/src/main/java/com/filecleaner/app/utils/FileScanner.kt:50-63 | popping a directory yields its own files and replaces it on the stack by its kept subdirectories, with nothing lost |
| FileScanner.ReportStep | app/src/main/java/com/filecleaner/app/utils/FileScanner.kt:59-60 | counting one file reports exactly when the count reaches a multiple of 100, so reports stay the ascending multiples of 100 up to the count |
| FileScanner.VisitChild | app/src/main/java/com/filecleaner/app/utils/FileScanner.kt:53-63 | one child is appended to the results when it is a file and pushed when it is a kept directory, with progress reported |
| FileScanner.VisitChildren | app/src/main/java/com/filecleaner/app/utils/FileScanner.kt:53-63 | the loop over a listing appends its own files in order and pushes its kept subdirectories in order |
| FileScanner.VisitDirectory | app/src/main/java/com/filecleaner/app/utils/FileScanner.kt:50-63 | a popped directory adds its own files and pushes its kept subdirectories; an unlistable one adds and pushes nothing |
| FileScanner.ScanAll | app/src/main/java/com/filecleaner/app/utils/FileScanner.kt:37-66 | `scanAll` returns the files in the walk order of the tree, with progress the multiples of 100 up to their count; it is cancelled exactly when the cancel point comes before the last directory |
| FileScanner.RecordChildren | app/src/main/java/com/filecleaner/app/utils/FileScanner.kt:98-113 | the loop over a listing also records each file in the directory's `files` and each kept subdirectory as a fresh `dirMap` entry and in `childPaths`, and changes no other directory |
| FileScanner.RecordDirectory | app/src/main/java/com/filecleaner/app/utils/FileScanner.kt:94-113 | a popped directory is recorded with its own files and kept subdirectories; results and stack change as in `scanAll` |
| FileScanner.PopAndRecord | app/src/main/java/com/filecleaner/app/utils/FileScanner.kt:92-114 | one pass of the loop consumes one pending directory and keeps the `dirMap` bookkeeping invariant |
| FileScanner.WalkWithTree | app/src/main/java/com/filecleaner/app/utils/FileScanner.kt:85-114 | the walk returns the same files and cancellation as `scanAll`; when it completes, `dirMap` holds every kept directory with its own files and child paths |
| FileScanner.WalkFrom | app/src/main/java/com/filecleaner/app/utils/FileScanner.kt:92-114 | the `while` loop from any recording state reached by the walk: it ends with the walk-order files and a complete `dirMap`, or is cancelled exactly when the cancel point comes before the last directory |
| FileScanner.SortedRecords | app/src/main/java/com/filecleaner/app/utils/FileScanner.kt:118 | the depth-sorted entries are the `dirMap` entries, deepest first |
| FileScanner.BuildNodes | app/src/main/java/com/filecleaner/app/utils/FileScanner.kt:117-136 | processing the depth-sorted entries builds the expected node for every recorded directory |
| FileScanner.BuildInOrder | app/src/main/java/com/filecleaner/app/utils/FileScanner.kt:120-136 | the build loop, fed deepest-first entries, finds every child already built, so `mapNotNull` drops nothing |
| FileScanner.NodeFromRecord | app/src/main/java/com/filecleaner/app/utils/FileScanner.kt:121-135 | the node built from a finished record is the directory's tree |
| FileScanner.FinishedIsBuildable | app/src/main/java/com/filecleaner/app/utils/FileScanner.kt:118-121 | a finished `dirMap` records each child one level deeper than its parent, which is what makes the deepest-first build complete |
| FileScanner.BuildTree | app/src/main/java/com/filecleaner/app/utils/FileScanner.kt:116-145 | the root node built from a finished `dirMap` is the root directory's tree |
| FileScanner.ScanWithTree | app/src/main/java/com/filecleaner/app/utils/FileScanner.kt:69-148 | `scanWithTree` returns the walk-order files and the root's tree, with the same progress and cancellation as `scanAll` |
| FileScanner.ScanResultsAgree | app/src/main/java/com/filecleaner/app/utils/FileScanner.kt:122-147 | the returned tree is consistent and its root totals are the count and size sum of the returned files |
| ScanCache.CategoryOrOtherReadsNames | app/src/main/java/com/filecleaner/app/utils/ScanCache.kt:99-103 | a stored category name reads back as that category; any other text, or a missing field, reads as Other |
| ScanCache.ItemToJson | app/src/main/java/com/filecleaner/app/utils/ScanCache.kt:85-92 | the object has exactly the six fields; path, name and category name read back as strings, and size and lastModified read back as Longs |
| ScanCache.JsonToItem | app/src/main/java/com/filecleaner/app/utils/ScanCache.kt:94-105 | decoding succeeds exactly when path, name, size and lastModified are present with the right types; the item holds those four stored values, the category by the defaulting rule and `optInt` of the duplicate group |
| ScanCache.ItemRoundTrip | app/src/main/java/com/filecleaner/app/utils/ScanCache.kt:85-105 | decoding an encoded item gives back the same item |
| ScanCache.DecodeDefaults | app/src/main/java/com/filecleaner/app/utils/ScanCache.kt:99-104 | an unknown category name is read as Other, and a missing `duplicateGroup` as -1 |
| ScanCache.JsonToItems | app/src/main/java/com/filecleaner/app/utils/ScanCache.kt:44-52 | an array decodes exactly when every element does, element by element |
| ScanCache.ItemsRoundTrip | app/src/main/java/com/filecleaner/app/utils/ScanCache.kt:22-52 | decoding an encoded list gives back the same list, in order |
| ScanCache.NodeFieldsReadBack | app/src/main/java/com/filecleaner/app/utils/ScanCache.kt:107-148 | every stored field of a directory node reads back unchanged through its accessor |
| ScanCache.NodeToJson | app/src/main/java/com/filecleaner/app/utils/ScanCache.kt:107-125 | the object has exactly the seven fields; path and name read back, the files array is the encoded files, and there is one children element per child |
| ScanCache.JsonToNode | app/src/main/java/com/filecleaner/app/utils/ScanCache.kt:127-149 | a decoded node holds the stored path, name, totals and depth, the decoded files and the decoded children; decoding succeeds when every field reads and both arrays decode |
| ScanCache.NodeRoundTrip | app/src/main/java/com/filecleaner/app/utils/ScanCache.kt:107-149 | decoding an encoded directory node gives back the same node, with files, children, depth and totals in place |
| ScanCache.NodesDecode | app/src/main/java/com/filecleaner/app/utils/ScanCache.kt:134-138 | a children array decodes to the list of its decoded elements, in order |
| ScanCache.PruneDeletedFiles | app/src/main/java/com/filecleaner/app/utils/ScanCache.kt:68-83 | pruning keeps path, name, depth and the number of children, and keeps exactly the node's files that still exist |
| ScanCache.PruneIsConsistent | app/src/main/java/com/filecleaner/app/utils/ScanCache.kt:68-83 | after pruning, every node keeps the aggregate invariant, whatever totals were stored |
| ScanCache.PruneFilesAllFiles | app/src/main/java/com/filecleaner/app/utils/ScanCache.kt:68-83 | the files below a pruned node are the files below the original node that still exist, in order |
| ScanCache.PruneIdempotent | app/src/main/java/com/filecleaner/app/utils/ScanCache.kt:68-83 | pruning twice with the same existing paths is pruning once |
| ScanCache.PruneKeepsLiveTree | app/src/main/java/com/filecleaner/app/utils/ScanCache.kt:68-83 | a consistent tree whose files all exist is left unchanged |
| ScanCache.Save | app/src/main/java/com/filecleaner/app/utils/ScanCache.kt:17-34 | the snapshot holds exactly the encoded files and tree, and decodes back to them |
| ScanCache.WriteItems | app/src/main/java/com/filecleaner/app/utils/ScanCache.kt:22-26 | the loop builds the encoded items in order |
| ScanCache.SnapshotRoundTrip | app/src/main/java/com/filecleaner/app/utils/ScanCache.kt:17-62 | a saved snapshot decodes to the saved files and tree |
| ScanCache.ReadLiveItems | app/src/main/java/com/filecleaner/app/utils/ScanCache.kt:44-52 | the loop yields exactly the decoded items whose path exists, in stored order, and fails exactly when some element does not decode |
| ScanCache.Load | app/src/main/java/com/filecleaner/app/utils/ScanCache.kt:36-62 | a missing file gives nothing and deletes nothing; a corrupt one is deleted and gives nothing; otherwise the result is the live items and the pruned tree |
| MainViewModel.LargeFileThresholdFacts | app/src/main/java/com/filecleaner/app/viewmodel/MainViewModel.kt:82 | the threshold is the megabyte setting times 1048576, fits a Long, and is 52428800 by default |
| MainViewModel.GroupByCategory | app/src/main/java/com/filecleaner/app/viewmodel/MainViewModel.kt:75 | every group is non-empty and no longer than the list |
| MainViewModel.GroupsAreFilters | app/src/main/java/com/filecleaner/app/viewmodel/MainViewModel.kt:75 | the category map has a key exactly for each category present, and each group is the list filtered to that category, in order |
| MainViewModel.GroupsCoverList | app/src/main/java/com/filecleaner/app/viewmodel/MainViewModel.kt:75 | every file is in its category's group and every grouped file comes from the list |
| MainViewModel.DeletedItemsAreSuccesses | app/src/main/java/com/filecleaner/app/viewmodel/MainViewModel.kt:110-119 | the deleted items are exactly those whose delete reported success |
| MainViewModel.MainViewModel.constructor | app/src/main/java/com/filecleaner/app/viewmodel/MainViewModel.kt:26-48 | a new view model is idle with empty lists and no stats |
| MainViewModel.MainViewModel.StartScan | app/src/main/java/com/filecleaner/app/viewmodel/MainViewModel.kt:64-103 | the states are `Scanning(0)`, the progress states, then `Done` or `Error`; on success every list and the stats are published, and a scan failure changes no list |
| MainViewModel.MainViewModel.PublishResults | app/src/main/java/com/filecleaner/app/viewmodel/MainViewModel.kt:72-98 | the file list and category map are published first, then each finder's result in turn; a finder failure stops the rest |
| MainViewModel.MainViewModel.PublishLargeAndJunk | app/src/main/java/com/filecleaner/app/viewmodel/MainViewModel.kt:82-98 | large and junk files are published, then the stats are the count and size sums of the lists, and the scan is `Done` |
| MainViewModel.MainViewModel.DeleteFiles | app/src/main/java/com/filecleaner/app/viewmodel/MainViewModel.kt:106-146 | the result counts the deleted paths, the failures and the freed bytes; every view loses exactly the deleted paths; the stats are recomputed from the filtered lists |
| MainViewModel.MainViewModel.ApplyDeletion | app/src/main/java/com/filecleaner/app/viewmodel/MainViewModel.kt:123-144 | the post-deletion state given the succeeded paths and freed bytes |
| MainViewModel.MainViewModel.RemoveFromViews | app/src/main/java/com/filecleaner/app/viewmodel/MainViewModel.kt:127-132 | each of the four lists keeps exactly its items whose path was not deleted, and the category map is regrouped from the new flat list |
| MainViewModel.DeleteEach | app/src/main/java/com/filecleaner/app/viewmodel/MainViewModel.kt:108-119 | the loop collects exactly the paths of succeeded deletes and the sum of their sizes |
| MainViewModel.DeleteCountsAddUp | app/src/main/java/com/filecleaner/app/viewmodel/MainViewModel.kt:123-124 | deleted plus failed is the number of requested items, and neither is negative |
| MainViewModel.FilterByDeletedPaths | app/src/main/java/com/filecleaner/app/viewmodel/MainViewModel.kt:127-132 | a view item survives exactly when its path was not deleted |
| MainViewModel.DeleteExample | app/src/main/java/com/filecleaner/app/viewmodel/MainViewModel.kt:106-141 | deleting A (100) and failing on B (200) gives result (1, 1, 100) and leaves B with total size 200 |
| MainViewModel.StaleDeleteStats | app/src/main/java/com/filecleaner/app/viewmodel/MainViewModel.kt:134-144 | the source's stats: counts from the remaining files, junk, duplicate and large sizes from the lists before deletion |
| MainViewModel.StaleStatsCountDeletedDuplicate | app/src/main/java/com/filecleaner/app/viewmodel/MainViewModel.kt:135-137 | deleting the only duplicate (100 bytes) leaves a duplicate size of 100 in the source's stats and 0 in the corrected ones |
| FileAdapter.ItemViewType | app/src/main/java/com/filecleaner/app/ui/adapters/FileAdapter.kt:58-61 | list modes give the list view type and grid modes the grid view type |
| FileAdapter.LayoutAgreesWithMode | app/src/main/java/com/filecleaner/app/ui/adapters/FileAdapter.kt:58-61 | the grid view type goes with exactly the grid modes, and with more than one column |
| FileAdapter.DuplicateColorIndex | app/src/main/java/com/filecleaner/app/ui/adapters/FileAdapter.kt:89-90 | the colour index of a duplicate group is one of the six colours |
| FileAdapter.DuplicateColorsCycle | app/src/main/java/com/filecleaner/app/ui/adapters/FileAdapter.kt:89-90 | colours repeat every six groups and six consecutive groups get distinct colours |
| FileAdapter.CardStyleOf | app/src/main/java/com/filecleaner/app/ui/adapters/FileAdapter.kt:88-104 | duplicates always get their group colour; other cards show the selected style exactly when selected |
| FileAdapter.DuplicateCardIgnoresSelection | app/src/main/java/com/filecleaner/app/ui/adapters/FileAdapter.kt:88-104 | a duplicate's card looks the same whether or not it is selected |
| FileAdapter.ToggleFlipsOnlyPath | app/src/main/java/com/filecleaner/app/ui/adapters/FileAdapter.kt:152-154 | toggling flips the path's membership, changes no other path, and toggling twice restores the selection |
| FileAdapter.SelectedItemsAreListed | app/src/main/java/com/filecleaner/app/ui/adapters/FileAdapter.kt:185 | the selected items are exactly the listed items whose path is selected; nothing selected gives none |
| FileAdapter.SelectedItemsKeepOrder | app/src/main/java/com/filecleaner/app/ui/adapters/FileAdapter.kt:185 | the selected items follow the list's order |
| FileAdapter.SortDropsNewest | app/src/main/java/com/filecleaner/app/ui/adapters/FileAdapter.kt:172-173 | dropping the head of a group's stable descending sort removes exactly its earliest newest member |
| FileAdapter.DuplicateGroupsSelectExceptBest | app/src/main/java/com/filecleaner/app/ui/adapters/FileAdapter.kt:169-174 | the loop over the groups selects the same paths as the specification of the operation |
| FileAdapter.DuplicateIdsMembers | app/src/main/java/com/filecleaner/app/ui/adapters/FileAdapter.kt:169 | the group ids are exactly the non-negative duplicate groups present in the list |
| FileAdapter.ExceptBestSelectsOnlyDuplicates | app/src/main/java/com/filecleaner/app/ui/adapters/FileAdapter.kt:169 | every selected path belongs to a listed duplicate |
| FileAdapter.NewestIsKept | app/src/main/java/com/filecleaner/app/ui/adapters/FileAdapter.kt:172-173 | a group's earliest newest member is not selected |
| FileAdapter.OthersAreSelected | app/src/main/java/com/filecleaner/app/ui/adapters/FileAdapter.kt:172-173 | every other member of a group is selected |
| FileAdapter.ExceptBestKeepsNewestOfEachGroup | app/src/main/java/com/filecleaner/app/ui/adapters/FileAdapter.kt:167-177 | in the whole list, each group's earliest newest member stays unselected and all its others are selected |
| FileAdapter.BestOnlyInOwnGroup | app/src/main/java/com/filecleaner/app/ui/adapters/FileAdapter.kt:167-177 | a group's kept member is selected by no group, its own or another |
| FileAdapter.ExceptBestExample | app/src/main/java/com/filecleaner/app/ui/adapters/FileAdapter.kt:167-177 | the group [X at 5, Y at 10, Z at 10] selects X and Z but not Y |
| FileAdapter.FileAdapter.constructor | app/src/main/java/com/filecleaner/app/ui/adapters/FileAdapter.kt:33 | a new adapter has an empty list and an empty selection |
| FileAdapter.FileAdapter.SubmitList | app/src/main/java/com/filecleaner/app/ui/adapters/FileAdapter.kt:21 | the list the adapter shows (`ListAdapter.currentList`) becomes the one submitted |
| FileAdapter.FileAdapter.SetViewMode | app/src/main/java/com/filecleaner/app/ui/adapters/FileAdapter.kt:40-46 | the view mode becomes the one given |
| FileAdapter.FileAdapter.NotifySelectionChanged | app/src/main/java/com/filecleaner/app/ui/adapters/FileAdapter.kt:156-158 | the listener receives the current selected items |
| FileAdapter.FileAdapter.ToggleSelection | app/src/main/java/com/filecleaner/app/ui/adapters/FileAdapter.kt:152-154 | the selection is toggled at the path |
| FileAdapter.FileAdapter.ToggleItem | app/src/main/java/com/filecleaner/app/ui/adapters/FileAdapter.kt:116-133 | a tap toggles the item's path and notifies the new selection |
| FileAdapter.FileAdapter.SelectAll | app/src/main/java/com/filecleaner/app/ui/adapters/FileAdapter.kt:160-164 | the selection becomes the old one plus every listed path, and the listener is notified |
| FileAdapter.FileAdapter.AddPaths | app/src/main/java/com/filecleaner/app/ui/adapters/FileAdapter.kt:161 | adding paths one at a time leaves the old selection plus exactly the items' paths |
| FileAdapter.FileAdapter.SelectAllDuplicatesExceptBest | app/src/main/java/com/filecleaner/app/ui/adapters/FileAdapter.kt:167-177 | the old selection is discarded and replaced by every duplicate except each group's newest, then the listener is notified |
| FileAdapter.FileAdapter.SelectExceptBest | app/src/main/java/com/filecleaner/app/ui/adapters/FileAdapter.kt:168-174 | clearing the selection and running the per-group loop leaves exactly every duplicate except each group's newest |
| FileAdapter.FileAdapter.SelectGroups | app/src/main/java/com/filecleaner/app/ui/adapters/FileAdapter.kt:170-174 | the loop over the groups adds each group's members except its newest |
| FileAdapter.FileAdapter.DeselectAll | app/src/main/java/com/filecleaner/app/ui/adapters/FileAdapter.kt:179-183 | the selection becomes empty and the listener receives no items |
| FileAdapter.FileAdapter.GetSelectedItems | app/src/main/java/com/filecleaner/app/ui/adapters/FileAdapter.kt:185 | every returned item is listed and selected, and every listed item with a selected path is returned |
| FileAdapter.FileAdapter.GetSelectedPaths | app/src/main/java/com/filecleaner/app/ui/adapters/FileAdapter.kt:188 | the copy holds exactly the selected paths |
| FileAdapter.FileAdapter.RestoreSelection | app/src/main/java/com/filecleaner/app/ui/adapters/FileAdapter.kt:191-196 | the selection becomes exactly the given paths and the listener is notified |

## Left out

- **Android and `java.io` I/O.** `Environment.getExternalStorageDirectory`, `listFiles`, `length`, `lastModified`, `exists`, `delete` and the cache file's `readText`/`writeText` are not called. The model takes instead an `Entry` tree and a root path, a set of existing paths, a sequence of delete outcomes, and a `CacheFile` value (missing, unparsable, or a parsed JSON value).
- **JSON text.** org.json's text parsing and `toString()` printing are left out. The model works on the JSON value tree only.
- **Coroutines and threading.** `withContext` and `viewModelScope.launch` are left out. Every post takes effect in program order, and repeated progress posts are not coalesced. One exception is modelled: `postValue` does not change `.value` until the main thread runs the queued update. So the reads at MainViewModel.kt:135-137 see the lists before the deletion, as the Findings row and `MainViewModel.StaleDeleteStats` state.
- **Cancellation.** `ensureActive` is modelled as an optional count of directories after which the walk stops, checked only at the head of the loop.
- **The root directory `/`.** A child path is always the directory path, `/` and the name, so the root `/` is not special-cased.
- **Integer overflow of sums.** Sizes, counts and their sums are unbounded integers. The `Long` overflow of `sumOf`, and the `Int` overflow of `scanned` and `totalFileCount` sums, are not modelled.
- **Fractional cache numbers.** A JSON number is an integer here (`Json.JNumber`). org.json's `getLong` would truncate a stored `1.5` to 1; the model cannot hold such a value.
- **Out-of-range cache numbers.** A stored number outside the `Long` range is a decode error. `getInt` wraps to 32 bits as `Number.intValue()` does.
- **Lenient getters.** `getString` and `getLong` accept only a string or number field. org.json's coercions between strings and numbers are not modelled; those inputs are decode errors.
- **`FileItem.sizeReadable`.** It uses floating-point formatting.
- **`FileItem.file`.** It is not modelled, because a path stands for the file.
- **Rendering in `FileAdapter`.** View holders, inflation, thumbnails, colour resources, accessibility text, `notifyDataSetChanged`, `onItemClick` and long-press handling are left out. The model keeps the view type, the colour index and which card style applies.
- **`FileContextMenu.kt`.** It is popup menus, dialogs and intents, and it calls view-model methods that `MainViewModel.kt` does not define.
- **Finders.** The bodies of `DuplicateFinder` and `JunkFinder` are not part of this model. Their results are uninterpreted parameters.
- **Order of `filesByCategory` keys.** `groupBy` keeps first-occurrence order of its keys; the model is a `map`, so that order is not kept. Each group's own order is kept.
- **`dirMap` order.** `LinkedHashMap` insertion order is modelled (`Collections.LinkedMap`), but `nodeMap` is a plain `map`, because it is only looked up.
- **Missing allFiles in `deleteFiles`.** When `_allFiles.value` is null, `?: return@launch` stops after posting the delete result. The model's lists are never null, so that path is not modelled.
- **The fallback root node.** `scanWithTree`'s empty node, used when the root is missing from `nodeMap`, is not modelled: the root is always recorded, and `FileScanner.BuildTree` proves it is found.
- FileScanner.Classify: case folding covers ASCII letters only (`Text.LowerChar`). Kotlin's `lowercase()` folds all of Unicode: `film.MKV` with the Kelvin sign U+212A for the K has extension `mkv` in Kotlin, so the file is a video there. In the model it is an unknown extension, so Other, or Download under `/Download/`. For the same reason, lowercasing keeps the length here, which Kotlin does not for U+0130.
- FileScanner.WalkWithTree: requires `WellFormed(root)`: no name contains `/` and sibling names are distinct, as in a real listing. Without it two children could share a `dirMap` key. The same holds for `FileScanner.ScanWithTree` and the recording methods. `FileScanner.ScanAll` needs no such requirement.
- FileAdapter.ExceptBestKeepsNewestOfEachGroup: assumes the list's paths are distinct. With two items sharing a path, selection is by path, so keeping one of them keeps both.

## Findings

| source | as written | input that shows it | evidently intended | confidence | as-written member | corrected member |
|---|---|---|---|---|---|---|
| app/src/main/java/com/filecleaner/app/viewmodel/MainViewModel.kt:135-137 | after posting the filtered duplicates, large and junk lists, the stats read them back through `.value`. `postValue` does not update `.value` synchronously, so the old, pre-deletion lists are read | the only duplicate `a` (100 bytes) is deleted: the duplicates view becomes empty, but the posted `duplicateSize` stays 100 | junk, duplicate and large sizes computed from the filtered lists, as `totalFiles` and `totalSize` are computed from `remaining` | not executed | MainViewModel.StaleStatsCountDeletedDuplicate | MainViewModel.MainViewModel.DeleteFiles |

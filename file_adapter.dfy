/** The selection logic of the file list (ui/adapters/FileAdapter.kt) and the view modes it
    lays out (ui/adapters/ViewMode.kt). The adapter's list is `currentList`, its selection the
    set `selectedPaths`; every list handed to the `onSelectionChanged` callback is recorded in
    `notified`. */
module FileAdapter {
  import opened FileData
  import opened Collections

  datatype ViewMode = List | ListWithThumbnails | GridSmall | GridMedium | GridLarge

  /** The number of columns of each mode. */
  function SpanCount(m: ViewMode): int {
    match m
    case List => 1
    case ListWithThumbnails => 1
    case GridSmall => 4
    case GridMedium => 3
    case GridLarge => 2
  }

  const TypeList: int := 0
  const TypeGrid: int := 1

  /** `getItemViewType`: the two list modes use the list layout, the three grid modes the grid
      layout. */
  function ItemViewType(m: ViewMode): (t: int)
    ensures t == TypeList || t == TypeGrid
    ensures t == TypeList <==> m == List || m == ListWithThumbnails
  {
    match m
    case List => TypeList
    case ListWithThumbnails => TypeList
    case GridSmall => TypeGrid
    case GridMedium => TypeGrid
    case GridLarge => TypeGrid
  }

  /** The test `onBindViewHolder` uses to choose grid thumbnails. */
  predicate IsGrid(m: ViewMode) {
    m != List && m != ListWithThumbnails
  }

  /** The layout, the thumbnail choice and the column count agree: a mode is laid out as a
      grid exactly when the binder treats it as one, and exactly when it has several columns. */
  lemma LayoutAgreesWithMode(m: ViewMode)
    ensures ItemViewType(m) == TypeGrid <==> IsGrid(m)
    ensures ItemViewType(m) == TypeGrid <==> SpanCount(m) > 1
  {
  }

  const DuplicateColorCount: int := 6

  /** The index into the six duplicate-group colours. */
  function DuplicateColorIndex(group: int): (k: int)
    requires group >= 0
    ensures 0 <= k < DuplicateColorCount
  {
    group % DuplicateColorCount
  }

  /** The colours repeat every six groups, and any six consecutive groups have six different
      colours. */
  lemma DuplicateColorsCycle(g: int, h: int)
    requires 0 <= g
    ensures DuplicateColorIndex(g + DuplicateColorCount) == DuplicateColorIndex(g)
    ensures g < h < g + DuplicateColorCount ==> DuplicateColorIndex(g) != DuplicateColorIndex(h)
  {
    if g < h < g + DuplicateColorCount {
      var q := g / 6;
      var r := g % 6;
      if r + (h - g) < 6 {
        ModOfSplit(h, q, r + (h - g));
      } else {
        ModOfSplit(h, q + 1, r + (h - g) - 6);
      }
    }
  }

  /** `x % 6` is the remainder of any split of `x` into sixes and a rest below six. */
  lemma ModOfSplit(x: int, q: int, r: int)
    requires x == 6 * q + r && 0 <= r < 6
    ensures x % 6 == r
  {
  }

  datatype CardStyle = GroupColor(index: int) | SelectedStyle | DefaultStyle

  /** The card's visual state: a duplicate shows its group colour, otherwise a selected card is
      highlighted and any other card is plain. */
  function CardStyleOf(item: FileItem, isSelected: bool): (st: CardStyle)
    ensures st.GroupColor? <==> item.duplicateGroup >= 0
    ensures st.GroupColor? ==> 0 <= st.index < DuplicateColorCount
    ensures st == SelectedStyle <==> item.duplicateGroup < 0 && isSelected
  {
    if item.duplicateGroup >= 0 then GroupColor(DuplicateColorIndex(item.duplicateGroup))
    else if isSelected then SelectedStyle
    else DefaultStyle
  }

  /** Selecting a duplicate does not change its card: the group colour wins. */
  lemma DuplicateCardIgnoresSelection(item: FileItem)
    requires item.duplicateGroup >= 0
    ensures CardStyleOf(item, true) == CardStyleOf(item, false)
  {
  }

  /** The selection after `toggleSelection(path)`. */
  function Toggled(selected: set<string>, path: string): set<string> {
    if path in selected then selected - {path} else selected + {path}
  }

  /** Toggling flips the membership of `path` and of no other path, so toggling twice restores
      the selection. */
  lemma ToggleFlipsOnlyPath(selected: set<string>, path: string)
    ensures path in Toggled(selected, path) <==> path !in selected
    ensures forall q :: q != path ==> (q in Toggled(selected, path) <==> q in selected)
    ensures Toggled(Toggled(selected, path), path) == selected
  {
  }

  /** `it.path in selectedPaths`. */
  function IsSelectedIn(selected: set<string>): FileItem -> bool {
    (item: FileItem) => item.path in selected
  }

  /** `currentList.filter { it.path in selectedPaths }`. */
  function SelectedItems(list: seq<FileItem>, selected: set<string>): seq<FileItem> {
    Filter(list, IsSelectedIn(selected))
  }

  /** The selected items are the listed items whose path is selected, in list order; a
      selected path that is not listed contributes nothing, and an empty selection gives the
      empty list `deselectAll` reports. */
  lemma SelectedItemsAreListed(list: seq<FileItem>, selected: set<string>)
    ensures forall k :: 0 <= k < |SelectedItems(list, selected)| ==>
              SelectedItems(list, selected)[k] in list && SelectedItems(list, selected)[k].path in selected
    ensures forall i :: 0 <= i < |list| && list[i].path in selected ==> list[i] in SelectedItems(list, selected)
    ensures selected == {} ==> SelectedItems(list, selected) == []
  {
    var keep := IsSelectedIn(selected);
    FilterMembers(list, keep);
    forall k | 0 <= k < |Filter(list, keep)|
      ensures Filter(list, keep)[k].path in selected
    {
      assert keep(Filter(list, keep)[k]);
    }
    forall i | 0 <= i < |list| && list[i].path in selected
      ensures list[i] in Filter(list, keep)
    {
      assert keep(list[i]);
    }
    if selected == {} {
      NothingSelected(list, selected);
    }
  }

  /** Selecting from a concatenation keeps the order of its parts. */
  lemma SelectedItemsKeepOrder(a: seq<FileItem>, b: seq<FileItem>, selected: set<string>)
    ensures SelectedItems(a + b, selected) == SelectedItems(a, selected) + SelectedItems(b, selected)
  {
    FilterAppend(a, b, IsSelectedIn(selected));
  }

  /** With nothing selected no item is selected. */
  lemma {:induction false} NothingSelected(list: seq<FileItem>, selected: set<string>)
    requires selected == {}
    ensures SelectedItems(list, selected) == []
  {
    if list != [] {
      NothingSelected(list[1..], selected);
    }
  }

  /** The key of `sortedByDescending { it.lastModified }`. */
  function LastModified(item: FileItem): int {
    item.lastModified
  }

  /** `it.duplicateGroup >= 0`. */
  function IsDuplicate(item: FileItem): bool {
    item.duplicateGroup >= 0
  }

  /** `it.duplicateGroup == g`. */
  function InGroup(g: int): FileItem -> bool {
    (item: FileItem) => item.duplicateGroup == g
  }

  /** The keys of `groupBy { it.duplicateGroup }`, in order of first occurrence. */
  function GroupIds(items: seq<FileItem>): seq<int> {
    if items == [] then []
    else
      var ids := GroupIds(items[..|items| - 1]);
      var g := items[|items| - 1].duplicateGroup;
      if g in ids then ids else ids + [g]
  }

  /** The members of group `g`, in list order. */
  function Members(items: seq<FileItem>, g: int): seq<FileItem> {
    Filter(items, InGroup(g))
  }

  /** `sortedByDescending { it.lastModified }.drop(1)`: the files of a group the loop selects. */
  function AllButNewest(group: seq<FileItem>): seq<FileItem> {
    var sorted := SortedByDescending(group, LastModified);
    if sorted == [] then [] else sorted[1..]
  }

  /** The group without the first of its files with the latest modification time. */
  function WithoutNewest(group: seq<FileItem>): seq<FileItem> {
    if group == [] then []
    else
      RemoveAt(group, FirstMaxIndex(group, LastModified))
  }

  /** The stable sort puts the first newest file in front, so dropping the head leaves the
      other files of the group. */
  lemma SortDropsNewest(group: seq<FileItem>)
    ensures multiset(AllButNewest(group)) == multiset(WithoutNewest(group))
  {
    if group != [] {
      SortDropsFirstMax(group, LastModified);
    }
  }

  /** Lists with the same elements have the same paths. */
  lemma PathSetOfPermutation(a: seq<FileItem>, b: seq<FileItem>)
    requires multiset(a) == multiset(b)
    ensures PathSet(a) == PathSet(b)
  {
    PathSetMembers(a);
    PathSetMembers(b);
    forall p | p in PathSet(a)
      ensures p in PathSet(b)
    {
      var i :| 0 <= i < |a| && a[i].path == p;
      assert a[i] in multiset(b);
      var j :| 0 <= j < |b| && b[j] == a[i];
    }
    forall p | p in PathSet(b)
      ensures p in PathSet(a)
    {
      var j :| 0 <= j < |b| && b[j].path == p;
      assert b[j] in multiset(a);
      var i :| 0 <= i < |a| && a[i] == b[j];
    }
  }

  /** The paths selected for group `g` of the list: all of its files but the first newest. */
  function GroupSelection(list: seq<FileItem>): int -> set<string> {
    (g: int) => PathSet(WithoutNewest(Members(list, g)))
  }

  /** The union of `pick(g)` over the groups `ids`, built group by group. */
  function UnionOver(ids: seq<int>, pick: int -> set<string>): set<string> {
    if ids == [] then {} else UnionOver(ids[..|ids| - 1], pick) + pick(ids[|ids| - 1])
  }

  /** The duplicate groups of the list, in order of first occurrence. */
  function DuplicateIds(list: seq<FileItem>): seq<int> {
    GroupIds(Filter(list, IsDuplicate))
  }

  /** What `selectAllDuplicatesExceptBest` selects in `list`, whatever was selected before. */
  function ExceptBest(list: seq<FileItem>): set<string> {
    UnionOver(DuplicateIds(list), GroupSelection(list))
  }

  /** `duplicates.groupBy { it.duplicateGroup }.values`: the duplicate groups' files, one
      list per group in order of first occurrence. */
  function DuplicateGroups(list: seq<FileItem>): (r: seq<seq<FileItem>>)
    ensures |r| == |DuplicateIds(list)|
  {
    var duplicates := Filter(list, IsDuplicate);
    var ids := GroupIds(duplicates);
    seq(|ids|, i requires 0 <= i < |ids| => Members(duplicates, ids[i]))
  }

  /** The paths the loop selects for the groups, group by group. */
  function UnionOfGroups(groups: seq<seq<FileItem>>): set<string> {
    if groups == [] then {}
    else UnionOfGroups(groups[..|groups| - 1]) + PathSet(WithoutNewest(groups[|groups| - 1]))
  }

  /** Selecting the grouped duplicates is selecting from each duplicate group of the list. */
  lemma DuplicateGroupsSelectExceptBest(list: seq<FileItem>)
    ensures UnionOfGroups(DuplicateGroups(list)) == ExceptBest(list)
  {
    var groups := DuplicateGroups(list);
    var ids := DuplicateIds(list);
    var pick := GroupSelection(list);
    forall i | 0 <= i < |ids|
      ensures PathSet(WithoutNewest(groups[i])) == pick(ids[i])
    {
      DuplicateIdIsNonNegative(list, i);
      MembersOfDuplicates(list, ids[i]);
    }
    UnionsAgree(groups, ids, pick);
  }

  /** Unions over lists that agree group by group are equal. */
  lemma {:induction false} UnionsAgree(groups: seq<seq<FileItem>>, ids: seq<int>, pick: int -> set<string>)
    requires |groups| == |ids|
    requires forall i :: 0 <= i < |ids| ==> PathSet(WithoutNewest(groups[i])) == pick(ids[i])
    ensures UnionOfGroups(groups) == UnionOver(ids, pick)
  {
    if ids != [] {
      var n := |ids| - 1;
      forall i | 0 <= i < n
        ensures PathSet(WithoutNewest(groups[..n][i])) == pick(ids[..n][i])
      {
        assert groups[..n][i] == groups[i] && ids[..n][i] == ids[i];
      }
      UnionsAgree(groups[..n], ids[..n], pick);
    }
  }

  /** No path occurs twice in the list. */
  predicate DistinctPaths(s: seq<FileItem>) {
    forall i, j :: 0 <= i < j < |s| ==> s[i].path != s[j].path
  }

  /** A group id occurs exactly when some item has it. */
  lemma {:induction false} GroupIdsMembers(items: seq<FileItem>, g: int)
    ensures g in GroupIds(items) <==> exists i :: 0 <= i < |items| && items[i].duplicateGroup == g
  {
    if items != [] {
      var n := |items| - 1;
      GroupIdsMembers(items[..n], g);
      if exists i :: 0 <= i < n && items[..n][i].duplicateGroup == g {
        var i :| 0 <= i < n && items[..n][i].duplicateGroup == g;
        assert items[i].duplicateGroup == g;
      }
      if exists i :: 0 <= i < |items| && items[i].duplicateGroup == g {
        var i :| 0 <= i < |items| && items[i].duplicateGroup == g;
        if i < n {
          assert items[..n][i].duplicateGroup == g;
        }
      }
    }
  }

  /** The duplicate groups are exactly the non-negative groups some listed file has. */
  lemma DuplicateIdsMembers(list: seq<FileItem>, g: int)
    ensures g in DuplicateIds(list) <==> g >= 0 && exists i :: 0 <= i < |list| && list[i].duplicateGroup == g
  {
    var duplicates := Filter(list, IsDuplicate);
    GroupIdsMembers(duplicates, g);
    if g in DuplicateIds(list) {
      var m :| 0 <= m < |duplicates| && duplicates[m].duplicateGroup == g;
      FilteredFileIsListed(list, IsDuplicate, m);
    }
    if g >= 0 && exists i :: 0 <= i < |list| && list[i].duplicateGroup == g {
      var i :| 0 <= i < |list| && list[i].duplicateGroup == g;
      FilterComplete(list, IsDuplicate);
      assert list[i] in duplicates;
    }
  }

  /** Every duplicate group id is non-negative. */
  lemma DuplicateIdIsNonNegative(list: seq<FileItem>, k: nat)
    requires k < |DuplicateIds(list)|
    ensures DuplicateIds(list)[k] >= 0
  {
    DuplicateIdsMembers(list, DuplicateIds(list)[k]);
  }

  /** Grouping the duplicates gives each duplicate group all of its listed files. */
  lemma MembersOfDuplicates(list: seq<FileItem>, g: int)
    requires g >= 0
    ensures Members(Filter(list, IsDuplicate), g) == Members(list, g)
  {
    FilterNarrowed(list, IsDuplicate, InGroup(g));
  }

  /** A path of the union comes from one of the groups. */
  lemma {:induction false} UnionOverFrom(ids: seq<int>, pick: int -> set<string>, p: string)
    requires p in UnionOver(ids, pick)
    ensures exists k :: 0 <= k < |ids| && p in pick(ids[k])
  {
    var n := |ids| - 1;
    if p in UnionOver(ids[..n], pick) {
      UnionOverFrom(ids[..n], pick, p);
      var k :| 0 <= k < n && p in pick(ids[..n][k]);
      assert ids[..n][k] == ids[k];
    } else {
      assert p in pick(ids[n]);
    }
  }

  /** The union includes every group's paths. */
  lemma {:induction false} UnionOverIncludes(ids: seq<int>, pick: int -> set<string>, k: nat)
    requires k < |ids|
    ensures pick(ids[k]) <= UnionOver(ids, pick)
  {
    var n := |ids| - 1;
    if k < n {
      UnionOverIncludes(ids[..n], pick, k);
      assert ids[..n][k] == ids[k];
    }
  }

  /** Removing the newest file shifts the files after it down by one. */
  lemma WithoutNewestAt(group: seq<FileItem>)
    requires group != []
    ensures |WithoutNewest(group)| == |group| - 1
    ensures forall k :: 0 <= k < |group| - 1 ==>
              WithoutNewest(group)[k] == group[if k < FirstMaxIndex(group, LastModified) then k else k + 1]
  {
  }

  /** Each file left after removing the newest is a file of the group. */
  lemma WithoutNewestFromGroup(group: seq<FileItem>, k: nat)
    requires k < |WithoutNewest(group)|
    ensures WithoutNewest(group)[k] in group
  {
    WithoutNewestAt(group);
    var b := FirstMaxIndex(group, LastModified);
    assert WithoutNewest(group)[k] == group[if k < b then k else k + 1];
  }

  /** A path selected for a group is the path of one of its files. */
  lemma SelectedPathInGroup(group: seq<FileItem>, p: string)
    requires p in PathSet(WithoutNewest(group))
    ensures exists j :: 0 <= j < |group| && group[j].path == p
  {
    var rest := WithoutNewest(group);
    PathSetMembers(rest);
    var k :| 0 <= k < |rest| && rest[k].path == p;
    WithoutNewestFromGroup(group, k);
  }

  /** A file of a filtered list is an accepted file of the list. */
  lemma FilteredFileIsListed(list: seq<FileItem>, keep: FileItem -> bool, j: nat)
    requires j < |Filter(list, keep)|
    ensures exists i :: 0 <= i < |list| && list[i] == Filter(list, keep)[j] && keep(list[i])
  {
    FilterSound(list, keep);
  }

  /** A path selected from a group of accepted files of the list is the path of an
      accepted file of the list. */
  lemma SelectedIsListed(list: seq<FileItem>, keep: FileItem -> bool, group: seq<FileItem>, p: string)
    requires forall j :: 0 <= j < |group| ==> group[j] in list && keep(group[j])
    requires p in PathSet(WithoutNewest(group))
    ensures exists i :: 0 <= i < |list| && list[i].path == p && keep(list[i])
  {
    SelectedPathInGroup(group, p);
  }

  /** Only duplicates are selected: every selected path is the path of a listed file whose
      duplicate group is not negative. */
  lemma ExceptBestSelectsOnlyDuplicates(list: seq<FileItem>, p: string)
    requires p in ExceptBest(list)
    ensures exists i :: 0 <= i < |list| && list[i].path == p && list[i].duplicateGroup >= 0
  {
    var ids := DuplicateIds(list);
    UnionOverFrom(ids, GroupSelection(list), p);
    var k :| 0 <= k < |ids| && p in GroupSelection(list)(ids[k]);
    DuplicateIdIsNonNegative(list, k);
    FilterSound(list, InGroup(ids[k]));
    SelectedIsListed(list, InGroup(ids[k]), Members(list, ids[k]), p);
  }

  /** The first newest file of a group with distinct paths is not selected for it. */
  lemma NewestIsKept(group: seq<FileItem>)
    requires DistinctPaths(group) && |group| > 0
    ensures group[FirstMaxIndex(group, LastModified)].path !in PathSet(WithoutNewest(group))
  {
    var b := FirstMaxIndex(group, LastModified);
    var rest := WithoutNewest(group);
    WithoutNewestAt(group);
    PathSetMembers(rest);
    forall k | 0 <= k < |rest|
      ensures rest[k].path != group[b].path
    {
      var i := if k < b then k else k + 1;
      assert group[i] == rest[k] && i != b;
    }
  }

  /** Every other file of a group is selected for it. */
  lemma OthersAreSelected(group: seq<FileItem>, j: nat)
    requires j < |group| && j != FirstMaxIndex(group, LastModified)
    ensures group[j].path in PathSet(WithoutNewest(group))
  {
    var b := FirstMaxIndex(group, LastModified);
    var rest := WithoutNewest(group);
    WithoutNewestAt(group);
    var k := if j < b then j else j - 1;
    assert rest[k] == group[j];
    PathSetMembers(rest);
  }

  /** `selectAllDuplicatesExceptBest` on a list with distinct paths: in every duplicate group,
      the first of the files with the latest modification time stays unselected and every
      other file of the group is selected, so a group of k files contributes k - 1. */
  lemma ExceptBestKeepsNewestOfEachGroup(list: seq<FileItem>, g: int)
    requires DistinctPaths(list) && g >= 0 && |Members(list, g)| > 0
    ensures var group := Members(list, g);
            && group[FirstMaxIndex(group, LastModified)].path !in ExceptBest(list)
            && forall j :: 0 <= j < |group| && j != FirstMaxIndex(group, LastModified) ==>
                 group[j].path in ExceptBest(list)
  {
    var ids := DuplicateIds(list);
    var group := Members(list, g);
    var pick := GroupSelection(list);
    FilteredFileIsListed(list, InGroup(g), 0);
    DuplicateIdsMembers(list, g);
    var k :| 0 <= k < |ids| && ids[k] == g;
    UnionOverIncludes(ids, pick, k);
    forall j | 0 <= j < |group| && j != FirstMaxIndex(group, LastModified)
      ensures group[j].path in ExceptBest(list)
    {
      OthersAreSelected(group, j);
    }
    var best := group[FirstMaxIndex(group, LastModified)];
    if best.path in ExceptBest(list) {
      UnionOverFrom(ids, pick, best.path);
      var k' :| 0 <= k' < |ids| && best.path in pick(ids[k']);
      BestOnlyInOwnGroup(list, g, ids[k']);
      FilterKeepsDistinct(list, InGroup(g));
      NewestIsKept(group);
      assert false;
    }
  }

  /** In a list with distinct paths, a file of group `g` is selected for no other group. */
  lemma BestOnlyInOwnGroup(list: seq<FileItem>, g: int, h: int)
    requires DistinctPaths(list) && |Members(list, g)| > 0
    requires var group := Members(list, g);
             group[FirstMaxIndex(group, LastModified)].path in GroupSelection(list)(h)
    ensures h == g
  {
    var group := Members(list, g);
    var best := group[FirstMaxIndex(group, LastModified)];
    FilterSound(list, InGroup(h));
    SelectedIsListed(list, InGroup(h), Members(list, h), best.path);
    var i :| 0 <= i < |list| && list[i].path == best.path && list[i].duplicateGroup == h;
    FilteredFileIsListed(list, InGroup(g), FirstMaxIndex(group, LastModified));
    var i' :| 0 <= i' < |list| && list[i'] == best && list[i'].duplicateGroup == g;
    assert i == i';
  }

  /** Filtering keeps paths distinct. */
  lemma {:induction false} FilterKeepsDistinct(s: seq<FileItem>, keep: FileItem -> bool)
    requires DistinctPaths(s)
    ensures DistinctPaths(Filter(s, keep))
  {
    if s != [] {
      FilterKeepsDistinct(s[1..], keep);
      FilterSound(s[1..], keep);
      var t := Filter(s[1..], keep);
      forall k | 0 <= k < |t|
        ensures t[k].path != s[0].path
      {
        var i :| 0 <= i < |s[1..]| && s[1..][i] == t[k];
        assert s[i + 1] == t[k];
      }
    }
  }

  class FileAdapter {
    var currentList: seq<FileItem>
    var selectedPaths: set<string>
    var viewMode: ViewMode
    var notified: seq<seq<FileItem>>

    /** A new adapter: nothing listed or selected, list mode, nothing reported. */
    constructor()
      ensures currentList == [] && selectedPaths == {} && viewMode == List && notified == []
    {
      currentList := [];
      selectedPaths := {};
      viewMode := List;
      notified := [];
    }

    /** `submitList`: the list the adapter shows from now on. */
    method SubmitList(list: seq<FileItem>)
      modifies this`currentList
      ensures currentList == list
    {
      currentList := list;
    }

    /** The `viewMode` setter: stores a different mode; the same mode changes nothing. */
    method SetViewMode(m: ViewMode)
      modifies this`viewMode
      ensures viewMode == m
    {
      if viewMode != m {
        viewMode := m;
      }
    }

    /** `notifySelectionChanged`: reports the listed items whose path is selected. */
    method NotifySelectionChanged()
      modifies this`notified
      ensures notified == old(notified) + [SelectedItems(currentList, selectedPaths)]
    {
      notified := notified + [SelectedItems(currentList, selectedPaths)];
    }

    /** `toggleSelection(path)`. */
    method ToggleSelection(path: string)
      modifies this`selectedPaths
      ensures selectedPaths == Toggled(old(selectedPaths), path)
    {
      if path in selectedPaths {
        selectedPaths := selectedPaths - {path};
      } else {
        selectedPaths := selectedPaths + {path};
      }
    }

    /** A click on a selectable row: toggles its path and reports the new selection. */
    method ToggleItem(item: FileItem)
      modifies this`selectedPaths, this`notified
      ensures selectedPaths == Toggled(old(selectedPaths), item.path)
      ensures notified == old(notified) + [SelectedItems(currentList, selectedPaths)]
    {
      ToggleSelection(item.path);
      NotifySelectionChanged();
    }

    /** `addAll` of the items' paths, one `add` at a time. */
    method AddPaths(items: seq<FileItem>)
      modifies this`selectedPaths
      ensures selectedPaths == old(selectedPaths) + PathSet(items)
    {
      var j := 0;
      while j < |items|
        invariant 0 <= j <= |items|
        invariant selectedPaths == old(selectedPaths) + PathSet(items[..j])
      {
        assert items[..j + 1][..j] == items[..j];
        selectedPaths := selectedPaths + {items[j].path};
        j := j + 1;
      }
      assert items[..j] == items;
    }

    /** One pass of the loop: sorts the group newest first and selects all but the head. */
    method SelectGroup(group: seq<FileItem>)
      modifies this`selectedPaths
      ensures selectedPaths == old(selectedPaths) + PathSet(WithoutNewest(group))
    {
      var rest := AllButNewest(group);
      AddPaths(rest);
      SortDropsNewest(group);
      PathSetOfPermutation(rest, WithoutNewest(group));
    }

    /** `selectAll`: adds every listed path to the selection and reports it. */
    method SelectAll()
      modifies this`selectedPaths, this`notified
      ensures selectedPaths == old(selectedPaths) + PathSet(currentList)
      ensures notified == old(notified) + [SelectedItems(currentList, selectedPaths)]
    {
      AddPaths(currentList);
      NotifySelectionChanged();
    }

    /** `selectAllDuplicatesExceptBest`: clears the selection, then for each duplicate group
        selects every file but the newest, and reports the selection. */
    method SelectAllDuplicatesExceptBest()
      modifies this`selectedPaths, this`notified
      ensures selectedPaths == ExceptBest(currentList)
      ensures notified == old(notified) + [SelectedItems(currentList, selectedPaths)]
    {
      SelectExceptBest(currentList);
      NotifySelectionChanged();
    }

    /** The selection loop: groups the duplicates of `list` and selects each group but its
        newest file, replacing whatever was selected before. */
    method SelectExceptBest(list: seq<FileItem>)
      modifies this`selectedPaths
      ensures selectedPaths == ExceptBest(list)
    {
      selectedPaths := {};
      var groups := DuplicateGroups(list);
      SelectGroups(groups);
      DuplicateGroupsSelectExceptBest(list);
    }

    /** `groups.values.forEach`: selects every group but its newest file. */
    method SelectGroups(groups: seq<seq<FileItem>>)
      modifies this`selectedPaths
      ensures selectedPaths == old(selectedPaths) + UnionOfGroups(groups)
    {
      var k := 0;
      while k < |groups|
        invariant 0 <= k <= |groups|
        invariant selectedPaths == old(selectedPaths) + UnionOfGroups(groups[..k])
      {
        assert groups[..k + 1][..k] == groups[..k];
        SelectGroup(groups[k]);
        k := k + 1;
      }
      assert groups[..k] == groups;
    }

    /** `deselectAll`: clears the selection and reports the empty list. */
    method DeselectAll()
      modifies this`selectedPaths, this`notified
      ensures selectedPaths == {}
      ensures notified == old(notified) + [[]]
    {
      selectedPaths := {};
      notified := notified + [[]];
    }

    /** `getSelectedItems`. */
    function GetSelectedItems(): (r: seq<FileItem>)
      reads this
      ensures |r| <= |currentList|
      ensures forall k :: 0 <= k < |r| ==> r[k] in currentList && r[k].path in selectedPaths
      ensures forall i :: 0 <= i < |currentList| && currentList[i].path in selectedPaths ==> currentList[i] in r
    {
      SelectedItemsAreListed(currentList, selectedPaths);
      SelectedItems(currentList, selectedPaths)
    }

    /** `getSelectedPaths`: a copy of the selection. */
    method GetSelectedPaths() returns (paths: set<string>)
      ensures paths == selectedPaths
    {
      paths := selectedPaths;
    }

    /** `restoreSelection(paths)`: the selection becomes exactly `paths`, and is reported. */
    method RestoreSelection(paths: set<string>)
      modifies this`selectedPaths, this`notified
      ensures selectedPaths == paths
      ensures notified == old(notified) + [SelectedItems(currentList, paths)]
    {
      selectedPaths := {};
      selectedPaths := selectedPaths + paths;
      NotifySelectionChanged();
    }
  }

  /** The duplicate group [X (t = 5), Y (t = 10), Z (t = 10)] keeps Y, the first of the newest,
      and selects X and Z. */
  lemma ExceptBestExample(x: FileItem, y: FileItem, z: FileItem)
    requires x.duplicateGroup == 0 && y.duplicateGroup == 0 && z.duplicateGroup == 0
    requires x.lastModified == 5 && y.lastModified == 10 && z.lastModified == 10
    requires x.path != y.path && y.path != z.path && x.path != z.path
    ensures ExceptBest([x, y, z]) == {x.path, z.path}
  {
    var list := [x, y, z];
    ExampleGroup(x, y, z);
    ExceptBestKeepsNewestOfEachGroup(list, 0);
    assert x.path in ExceptBest(list) && z.path in ExceptBest(list) && y.path !in ExceptBest(list);
    forall p | p in ExceptBest(list)
      ensures p == x.path || p == z.path
    {
      ExceptBestSelectsOnlyDuplicates(list, p);
    }
  }

  /** The example's group is the whole list; its first newest file is Y. */
  lemma ExampleGroup(x: FileItem, y: FileItem, z: FileItem)
    requires x.duplicateGroup == 0 && y.duplicateGroup == 0 && z.duplicateGroup == 0
    requires x.lastModified == 5 && y.lastModified == 10 && z.lastModified == 10
    requires x.path != y.path && y.path != z.path && x.path != z.path
    ensures DistinctPaths([x, y, z])
    ensures Members([x, y, z], 0) == [x, y, z]
    ensures FirstMaxIndex([x, y, z], LastModified) == 1
  {
    var list := [x, y, z];
    forall i | 0 <= i < |list|
      ensures InGroup(0)(list[i])
    {
    }
    FilterKeepsAll(list, InGroup(0));
    assert list[1..] == [y, z] && list[1..][1..] == [z];
    assert FirstMaxIndex([z], LastModified) == 0;
    assert FirstMaxIndex([y, z], LastModified) == 0;
  }
}

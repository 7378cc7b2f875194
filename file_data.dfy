/** The records the scanner produces and every other component consumes
    (data/FileItem.kt, data/DirectoryNode.kt), with the aggregate invariant
    a directory tree is meant to keep. */
module FileData {
  import opened Wrappers

  /** The closed set of categories, in declaration order. */
  datatype FileCategory = Image | Video | Audio | Document | Apk | Archive | Download | Other

  const Categories: seq<FileCategory> := [Image, Video, Audio, Document, Apk, Archive, Download, Other]

  /** The enum constant's `name`, which is what the cache stores. */
  function CategoryName(c: FileCategory): string {
    match c
    case Image => "IMAGE"
    case Video => "VIDEO"
    case Audio => "AUDIO"
    case Document => "DOCUMENT"
    case Apk => "APK"
    case Archive => "ARCHIVE"
    case Download => "DOWNLOAD"
    case Other => "OTHER"
  }

  /** `FileCategory.valueOf`: `None` where Kotlin throws IllegalArgumentException. */
  function CategoryValueOf(s: string): (r: Option<FileCategory>)
    ensures r.Some? ==> CategoryName(r.value) == s
    ensures r.None? ==> forall c :: CategoryName(c) != s
  {
    if s == "IMAGE" then Some(Image)
    else if s == "VIDEO" then Some(Video)
    else if s == "AUDIO" then Some(Audio)
    else if s == "DOCUMENT" then Some(Document)
    else if s == "APK" then Some(Apk)
    else if s == "ARCHIVE" then Some(Archive)
    else if s == "DOWNLOAD" then Some(Download)
    else if s == "OTHER" then Some(Other)
    else None
  }

  /** Every category is recovered from its name, so names are pairwise distinct. */
  lemma CategoryNameRoundTrip(c: FileCategory)
    ensures CategoryValueOf(CategoryName(c)) == Some(c)
  {
  }

  /** `duplicateGroup` of a file that belongs to no duplicate set. */
  const NoDuplicateGroup: int := -1

  datatype FileItem = FileItem(
    path: string,
    name: string,
    size: int,          // bytes
    lastModified: int,  // epoch milliseconds
    category: FileCategory,
    duplicateGroup: int)

  datatype DirectoryNode = DirectoryNode(
    path: string,
    name: string,
    files: seq<FileItem>,
    children: seq<DirectoryNode>,
    totalSize: int,
    totalFileCount: int,
    depth: int)

  // Ranges of Kotlin's Long and Int, which the record fields have in the source.
  const MinLong: int := -0x8000_0000_0000_0000
  const MaxLong: int := 0x7FFF_FFFF_FFFF_FFFF
  const MinInt: int := -0x8000_0000
  const MaxInt: int := 0x7FFF_FFFF

  predicate IsLong(x: int) { MinLong <= x <= MaxLong }
  predicate IsInt(x: int) { MinInt <= x <= MaxInt }

  /** The item's numeric fields lie in the ranges of their Kotlin types. */
  predicate ItemInRange(item: FileItem) {
    IsLong(item.size) && IsLong(item.lastModified) && IsInt(item.duplicateGroup)
  }

  /** Every numeric field of the node and of everything below it lies in its Kotlin range. */
  predicate NodeInRange(n: DirectoryNode) {
    && IsLong(n.totalSize) && IsInt(n.totalFileCount) && IsInt(n.depth)
    && (forall f :: f in n.files ==> ItemInRange(f))
    && (forall c :: c in n.children ==> NodeInRange(c))
  }

  /** `sumOf { it.size }` over a file list. */
  function SumSizes(files: seq<FileItem>): int {
    if files == [] then 0 else files[0].size + SumSizes(files[1..])
  }

  /** `sumOf { it.totalSize }` over a list of nodes. */
  function SumTotalSizes(nodes: seq<DirectoryNode>): int {
    if nodes == [] then 0 else nodes[0].totalSize + SumTotalSizes(nodes[1..])
  }

  /** `sumOf { it.totalFileCount }` over a list of nodes. */
  function SumFileCounts(nodes: seq<DirectoryNode>): int {
    if nodes == [] then 0 else nodes[0].totalFileCount + SumFileCounts(nodes[1..])
  }

  /** The aggregates of this node are its own files plus its children's totals,
      and the same holds of every node below it. */
  predicate Consistent(n: DirectoryNode) {
    && n.totalSize == SumSizes(n.files) + SumTotalSizes(n.children)
    && n.totalFileCount == |n.files| + SumFileCounts(n.children)
    && forall c :: c in n.children ==> Consistent(c)
  }

  /** The paths of a list of items. */
  function PathSet(items: seq<FileItem>): set<string> {
    if items == [] then {} else PathSet(items[..|items| - 1]) + {items[|items| - 1].path}
  }

  /** A path is in the set exactly when some item has it, and the set has at most as many
      elements as the list. */
  lemma PathSetMembers(items: seq<FileItem>)
    ensures forall p :: p in PathSet(items) <==> exists i :: 0 <= i < |items| && items[i].path == p
    ensures |PathSet(items)| <= |items|
  {
    forall p | p in PathSet(items)
      ensures exists i :: 0 <= i < |items| && items[i].path == p
    {
      PathSetSound(items, p);
    }
    forall i | 0 <= i < |items|
      ensures items[i].path in PathSet(items)
    {
      PathSetComplete(items, i);
    }
    PathSetSize(items);
  }

  lemma {:induction false} PathSetSound(items: seq<FileItem>, p: string)
    requires p in PathSet(items)
    ensures exists i :: 0 <= i < |items| && items[i].path == p
  {
    var n := |items| - 1;
    if p in PathSet(items[..n]) {
      PathSetSound(items[..n], p);
      var i :| 0 <= i < n && items[..n][i].path == p;
      assert items[i].path == p;
    } else {
      assert items[n].path == p;
    }
  }

  lemma {:induction false} PathSetComplete(items: seq<FileItem>, i: nat)
    requires i < |items|
    ensures items[i].path in PathSet(items)
  {
    var n := |items| - 1;
    if i < n {
      PathSetComplete(items[..n], i);
      assert items[..n][i].path == items[i].path;
    }
  }

  lemma {:induction false} PathSetSize(items: seq<FileItem>)
    ensures |PathSet(items)| <= |items|
  {
    if items != [] {
      PathSetSize(items[..|items| - 1]);
    }
  }

  /** Every file of the subtree: the node's own files, then each child's subtree in order. */
  function AllFiles(n: DirectoryNode): seq<FileItem> {
    n.files + AllFilesOf(n.children)
  }

  function AllFilesOf(nodes: seq<DirectoryNode>): seq<FileItem> {
    if nodes == [] then [] else AllFiles(nodes[0]) + AllFilesOf(nodes[1..])
  }

  lemma {:induction false} SumSizesAppend(a: seq<FileItem>, b: seq<FileItem>)
    ensures SumSizes(a + b) == SumSizes(a) + SumSizes(b)
  {
    if a != [] {
      assert (a + b)[1..] == a[1..] + b;
      SumSizesAppend(a[1..], b);
    } else {
      assert a + b == b;
    }
  }

  /** In a consistent tree the stored aggregates are exactly the size sum and the
      number of all files of the subtree. */
  lemma {:induction false} ConsistentTotals(n: DirectoryNode)
    requires Consistent(n)
    ensures n.totalSize == SumSizes(AllFiles(n))
    ensures n.totalFileCount == |AllFiles(n)|
  {
    ConsistentTotalsOf(n.children);
    SumSizesAppend(n.files, AllFilesOf(n.children));
  }

  lemma {:induction false} ConsistentTotalsOf(nodes: seq<DirectoryNode>)
    requires forall c :: c in nodes ==> Consistent(c)
    ensures SumTotalSizes(nodes) == SumSizes(AllFilesOf(nodes))
    ensures SumFileCounts(nodes) == |AllFilesOf(nodes)|
  {
    if nodes != [] {
      ConsistentTotals(nodes[0]);
      ConsistentTotalsOf(nodes[1..]);
      SumSizesAppend(AllFiles(nodes[0]), AllFilesOf(nodes[1..]));
    }
  }
}

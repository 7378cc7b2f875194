/** The snapshot cache (utils/ScanCache.kt): file items and directory trees to and from the
    JSON value tree, the document `save` writes, `load` with its existence filtering and
    corruption handling, and `pruneDeletedFiles`. Which paths still exist on disk is the
    parameter `existing`. */
module ScanCache {
  import opened Wrappers
  import opened FileData
  import opened Collections
  import opened Json

  // ---------------------------------------------------------------------------
  // FileItem

  /** `fileItemToJson`: the six fields, the category by its enum name. */
  function ItemToJson(item: FileItem): (j: Json)
    ensures j.JObject? && j.fields.Keys == {"path", "name", "size", "lastModified", "category", "duplicateGroup"}
    ensures GetString(j, "path") == Some(item.path) && GetString(j, "name") == Some(item.name)
    ensures GetString(j, "category") == Some(CategoryName(item.category))
    ensures IsLong(item.size) ==> GetLong(j, "size") == Some(item.size)
    ensures IsLong(item.lastModified) ==> GetLong(j, "lastModified") == Some(item.lastModified)
  {
    JObject(map[
      "path" := JString(item.path),
      "name" := JString(item.name),
      "size" := JNumber(item.size),
      "lastModified" := JNumber(item.lastModified),
      "category" := JString(CategoryName(item.category)),
      "duplicateGroup" := JNumber(item.duplicateGroup)])
  }

  /** The category of a decoded item: `valueOf` of the stored name, and Other when the name
      is missing, no string, or no category's name. */
  function CategoryOrOther(name: Option<string>): (c: FileCategory)
    ensures name.Some? && CategoryValueOf(name.value).Some? ==> c == CategoryValueOf(name.value).value
    ensures name.None? || CategoryValueOf(name.value).None? ==> c == Other
  {
    match name
    case Some(s) =>
      (match CategoryValueOf(s)
       case Some(c) => c
       case None => Other)
    case None => Other
  }

  /** A stored name that is some category's name reads back as that category; any other
      text, or no text at all, reads as Other. */
  lemma CategoryOrOtherReadsNames(c: FileCategory, s: string)
    ensures CategoryOrOther(Some(CategoryName(c))) == c
    ensures (forall k :: CategoryName(k) != s) ==> CategoryOrOther(Some(s)) == Other
    ensures CategoryOrOther(None) == Other
  {
    CategoryNameRoundTrip(c);
  }

  /** `jsonToFileItem`: `None` where a required field is missing or mistyped. */
  function JsonToItem(j: Json): (r: Option<FileItem>)
    ensures r.Some? <==>
              GetString(j, "path").Some? && GetString(j, "name").Some?
              && GetLong(j, "size").Some? && GetLong(j, "lastModified").Some?
    ensures r.Some? ==>
              && r.value.path == GetString(j, "path").value && r.value.name == GetString(j, "name").value
              && r.value.size == GetLong(j, "size").value
              && r.value.lastModified == GetLong(j, "lastModified").value
              && r.value.category == CategoryOrOther(GetString(j, "category"))
              && r.value.duplicateGroup == OptInt(j, "duplicateGroup", NoDuplicateGroup)
  {
    var path := GetString(j, "path");
    var name := GetString(j, "name");
    var size := GetLong(j, "size");
    var lastModified := GetLong(j, "lastModified");
    if path.Some? && name.Some? && size.Some? && lastModified.Some? then
      Some(FileItem(path.value, name.value, size.value, lastModified.value,
                    CategoryOrOther(GetString(j, "category")),
                    OptInt(j, "duplicateGroup", NoDuplicateGroup)))
    else None
  }

  /** Decoding inverts encoding for every item whose numbers fit their Kotlin types. */
  lemma ItemRoundTrip(item: FileItem)
    requires ItemInRange(item)
    ensures JsonToItem(ItemToJson(item)) == Some(item)
  {
    var fields := ItemToJson(item).fields;
    NumberFieldsReadBack(fields, "size", item.size, NoDuplicateGroup);
    NumberFieldsReadBack(fields, "lastModified", item.lastModified, NoDuplicateGroup);
    NumberFieldsReadBack(fields, "duplicateGroup", item.duplicateGroup, NoDuplicateGroup);
    CategoryNameRoundTrip(item.category);
  }

  /** Decoding defaults: an unknown category name gives Other, and an item stored without
      `duplicateGroup` belongs to no duplicate group. */
  lemma DecodeDefaults(path: string, name: string, size: int, lastModified: int)
    requires IsLong(size) && IsLong(lastModified)
    ensures var j := JObject(map["path" := JString(path), "name" := JString(name), "size" := JNumber(size),
                                 "lastModified" := JNumber(lastModified), "category" := JString("PICTURE")]);
            JsonToItem(j) == Some(FileItem(path, name, size, lastModified, Other, NoDuplicateGroup))
  {
    var j := JObject(map["path" := JString(path), "name" := JString(name), "size" := JNumber(size),
                         "lastModified" := JNumber(lastModified), "category" := JString("PICTURE")]);
    assert GetString(j, "category") == Some("PICTURE");
    assert GetInt(j, "duplicateGroup") == None;
  }

  /** The items of an array, each decoded; `None` as soon as one fails. */
  function JsonToItems(js: seq<Json>): (r: Option<seq<FileItem>>)
    ensures r.Some? <==> forall i :: 0 <= i < |js| ==> JsonToItem(js[i]).Some?
    ensures r.Some? ==> |r.value| == |js| && forall i :: 0 <= i < |js| ==> Some(r.value[i]) == JsonToItem(js[i])
  {
    if js == [] then Some([])
    else
      var head := JsonToItem(js[0]);
      var tail := JsonToItems(js[1..]);
      if head.Some? && tail.Some? then Some([head.value] + tail.value) else None
  }

  /** The array `save` writes for a list of items. */
  function ItemsToJson(items: seq<FileItem>): (js: seq<Json>)
    ensures |js| == |items| && forall i :: 0 <= i < |items| ==> js[i] == ItemToJson(items[i])
  {
    seq(|items|, i requires 0 <= i < |items| => ItemToJson(items[i]))
  }

  lemma ItemsRoundTrip(items: seq<FileItem>)
    requires forall i :: 0 <= i < |items| ==> ItemInRange(items[i])
    ensures JsonToItems(ItemsToJson(items)) == Some(items)
  {
    var js := ItemsToJson(items);
    forall i | 0 <= i < |items|
      ensures JsonToItem(js[i]) == Some(items[i])
    {
      ItemRoundTrip(items[i]);
    }
    var r := JsonToItems(js).value;
    assert r == items;
  }

  // ---------------------------------------------------------------------------
  // DirectoryNode

  /** `directoryNodeToJson`: the scalar fields, then the files and the children as arrays. */
  function NodeToJson(n: DirectoryNode): (j: Json)
    ensures j.JObject?
    ensures j.fields.Keys == {"path", "name", "totalSize", "totalFileCount", "depth", "files", "children"}
    ensures GetString(j, "path") == Some(n.path) && GetString(j, "name") == Some(n.name)
    ensures GetArray(j, "files") == Some(ItemsToJson(n.files))
    ensures GetArray(j, "children").Some? && |GetArray(j, "children").value| == |n.children|
    decreases n
  {
    JObject(map[
      "path" := JString(n.path),
      "name" := JString(n.name),
      "totalSize" := JNumber(n.totalSize),
      "totalFileCount" := JNumber(n.totalFileCount),
      "depth" := JNumber(n.depth),
      "files" := JArray(ItemsToJson(n.files)),
      "children" := JArray(seq(|n.children|, i requires 0 <= i < |n.children| => NodeToJson(n.children[i])))])
  }

  /** `jsonToDirectoryNode`: `None` where a field is missing or mistyped, or an element of
      either array fails to decode. The aggregates are taken as stored. */
  function JsonToNode(j: Json): (r: Option<DirectoryNode>)
    ensures r.Some? ==>
              && GetArray(j, "files").Some? && GetArray(j, "children").Some?
              && JsonToItems(GetArray(j, "files").value).Some?
              && r.value.files == JsonToItems(GetArray(j, "files").value).value
              && JsonToNodes(GetArray(j, "children").value) == Some(r.value.children)
              && |r.value.children| == |GetArray(j, "children").value|
              && GetString(j, "path").Some? && r.value.path == GetString(j, "path").value
              && GetString(j, "name").Some? && r.value.name == GetString(j, "name").value
              && GetLong(j, "totalSize").Some? && r.value.totalSize == GetLong(j, "totalSize").value
              && GetInt(j, "totalFileCount").Some? && r.value.totalFileCount == GetInt(j, "totalFileCount").value
              && GetInt(j, "depth").Some? && r.value.depth == GetInt(j, "depth").value
    ensures (&& GetArray(j, "files").Some? && GetArray(j, "children").Some?
             && JsonToItems(GetArray(j, "files").value).Some? && JsonToNodes(GetArray(j, "children").value).Some?
             && GetString(j, "path").Some? && GetString(j, "name").Some? && GetLong(j, "totalSize").Some?
             && GetInt(j, "totalFileCount").Some? && GetInt(j, "depth").Some?) ==> r.Some?
    decreases j
  {
    var fs := GetArray(j, "files");
    var cs := GetArray(j, "children");
    if fs.None? || cs.None? then None
    else
      var files := JsonToItems(fs.value);
      var children := JsonToNodes(cs.value);
      var path := GetString(j, "path");
      var name := GetString(j, "name");
      var size := GetLong(j, "totalSize");
      var count := GetInt(j, "totalFileCount");
      var depth := GetInt(j, "depth");
      if files.Some? && children.Some? && path.Some? && name.Some? && size.Some? && count.Some? && depth.Some? then
        Some(DirectoryNode(path.value, name.value, files.value, children.value, size.value, count.value, depth.value))
      else None
  }

  /** The children of a node, each decoded; `None` as soon as one fails. */
  function JsonToNodes(cs: seq<Json>): (r: Option<seq<DirectoryNode>>)
    ensures r.Some? ==> |r.value| == |cs|
    decreases cs
  {
    if cs == [] then Some([])
    else
      var head := JsonToNode(cs[0]);
      var tail := JsonToNodes(cs[1..]);
      if head.Some? && tail.Some? then Some([head.value] + tail.value) else None
  }

  /** Every getter `jsonToDirectoryNode` calls on an encoded node finds the field it reads. */
  lemma NodeFieldsReadBack(n: DirectoryNode)
    requires IsLong(n.totalSize) && IsInt(n.totalFileCount) && IsInt(n.depth)
    ensures var j := NodeToJson(n);
            && GetArray(j, "files") == Some(ItemsToJson(n.files))
            && GetArray(j, "children") == Some(j.fields["children"].items)
            && GetString(j, "path") == Some(n.path) && GetString(j, "name") == Some(n.name)
            && GetLong(j, "totalSize") == Some(n.totalSize)
            && GetInt(j, "totalFileCount") == Some(n.totalFileCount) && GetInt(j, "depth") == Some(n.depth)
  {
    var fields := NodeToJson(n).fields;
    NumberFieldsReadBack(fields, "totalSize", n.totalSize, 0);
    NumberFieldsReadBack(fields, "totalFileCount", n.totalFileCount, 0);
    NumberFieldsReadBack(fields, "depth", n.depth, 0);
  }

  /** Decoding inverts encoding for every tree whose numbers fit their Kotlin types: paths,
      names, the order of files and children, depths and the stored aggregates come back. */
  lemma {:induction false} NodeRoundTrip(n: DirectoryNode)
    requires NodeInRange(n)
    ensures JsonToNode(NodeToJson(n)) == Some(n)
    decreases n
  {
    var cs := NodeToJson(n).fields["children"].items;
    NodeFieldsReadBack(n);
    ItemsRoundTrip(n.files);
    forall i | 0 <= i < |n.children|
      ensures JsonToNode(cs[i]) == Some(n.children[i])
    {
      assert n.children[i] in n.children;
      NodeRoundTrip(n.children[i]);
    }
    NodesDecode(cs, n.children);
  }

  /** A first element that decodes, before a rest that decodes. */
  lemma ConsDecodes(cs: seq<Json>, head: DirectoryNode, tail: seq<DirectoryNode>)
    requires cs != [] && JsonToNode(cs[0]) == Some(head) && JsonToNodes(cs[1..]) == Some(tail)
    ensures JsonToNodes(cs) == Some([head] + tail)
  {
  }

  /** An array decodes to the nodes its elements decode to. */
  lemma {:induction false} NodesDecode(cs: seq<Json>, ns: seq<DirectoryNode>)
    requires |cs| == |ns| && forall i :: 0 <= i < |ns| ==> JsonToNode(cs[i]) == Some(ns[i])
    ensures JsonToNodes(cs) == Some(ns)
  {
    if ns != [] {
      NodesDecode(cs[1..], ns[1..]);
      ConsDecodes(cs, ns[0], ns[1..]);
      assert ns == [ns[0]] + ns[1..];
    }
  }

  // ---------------------------------------------------------------------------
  // pruneDeletedFiles

  /** `File(it.path).exists()` for a file item. */
  function OnDisk(existing: set<string>): FileItem -> bool {
    (item: FileItem) => item.path in existing
  }

  /** `pruneDeletedFiles`: every node keeps its existing files in order and its pruned
      children, and its aggregates are recomputed from them rather than taken as stored. */
  function PruneDeletedFiles(n: DirectoryNode, existing: set<string>): (r: DirectoryNode)
    ensures r.path == n.path && r.name == n.name && r.depth == n.depth
    ensures forall i :: 0 <= i < |r.files| ==> r.files[i] in n.files && r.files[i].path in existing
    ensures forall i :: 0 <= i < |n.files| && n.files[i].path in existing ==> n.files[i] in r.files
    ensures |r.children| == |n.children|
    decreases n
  {
    FilterMembers(n.files, OnDisk(existing));
    var validFiles := Filter(n.files, OnDisk(existing));
    var prunedChildren := seq(|n.children|, i requires 0 <= i < |n.children| => PruneDeletedFiles(n.children[i], existing));
    n.(files := validFiles, children := prunedChildren,
       totalSize := SumSizes(validFiles) + SumTotalSizes(prunedChildren),
       totalFileCount := |validFiles| + SumFileCounts(prunedChildren))
  }

  /** After pruning every node's aggregates are its own files plus its children's totals,
      whatever the stored aggregates were. */
  lemma {:induction false} PruneIsConsistent(n: DirectoryNode, existing: set<string>)
    ensures Consistent(PruneDeletedFiles(n, existing))
    decreases n
  {
    var r := PruneDeletedFiles(n, existing);
    forall c | c in r.children
      ensures Consistent(c)
    {
      var i :| 0 <= i < |r.children| && r.children[i] == c;
      assert n.children[i] in n.children;
      PruneIsConsistent(n.children[i], existing);
    }
  }

  /** Pruning removes exactly the files that no longer exist from the whole subtree, and
      keeps the order of the rest. */
  lemma {:induction false} PruneFilesAllFiles(n: DirectoryNode, existing: set<string>)
    ensures AllFiles(PruneDeletedFiles(n, existing)) == Filter(AllFiles(n), OnDisk(existing))
    decreases n
  {
    PruneFilesAllFilesOf(n, n.children, PruneDeletedFiles(n, existing).children, existing);
    FilterAppend(n.files, AllFilesOf(n.children), OnDisk(existing));
  }

  lemma {:induction false} PruneFilesAllFilesOf(parent: DirectoryNode, ns: seq<DirectoryNode>,
                                                ps: seq<DirectoryNode>, existing: set<string>)
    requires forall c :: c in ns ==> c < parent
    requires |ps| == |ns| && forall i :: 0 <= i < |ns| ==> ps[i] == PruneDeletedFiles(ns[i], existing)
    ensures AllFilesOf(ps) == Filter(AllFilesOf(ns), OnDisk(existing))
    decreases parent, |ns|
  {
    if ns != [] {
      assert ns[0] in ns;
      assert forall c :: c in ns[1..] ==> c in ns;
      PruneFilesAllFiles(ns[0], existing);
      PruneFilesAllFilesOf(parent, ns[1..], ps[1..], existing);
      FilterAppend(AllFiles(ns[0]), AllFilesOf(ns[1..]), OnDisk(existing));
    }
  }

  /** Pruning twice with the same existing paths is pruning once. */
  lemma {:induction false} PruneIdempotent(n: DirectoryNode, existing: set<string>)
    ensures PruneDeletedFiles(PruneDeletedFiles(n, existing), existing) == PruneDeletedFiles(n, existing)
    decreases n
  {
    var r := PruneDeletedFiles(n, existing);
    var rr := PruneDeletedFiles(r, existing);
    FilterIdempotent(n.files, OnDisk(existing));
    assert rr.children == r.children by {
      forall i | 0 <= i < |r.children|
        ensures rr.children[i] == r.children[i]
      {
        assert n.children[i] in n.children;
        PruneIdempotent(n.children[i], existing);
      }
    }
  }

  /** A consistent tree all of whose files still exist comes out of pruning unchanged. */
  lemma {:induction false} PruneKeepsLiveTree(n: DirectoryNode, existing: set<string>)
    requires Consistent(n)
    requires forall i :: 0 <= i < |AllFiles(n)| ==> AllFiles(n)[i].path in existing
    ensures PruneDeletedFiles(n, existing) == n
    decreases n
  {
    var r := PruneDeletedFiles(n, existing);
    FilterAppend(n.files, AllFilesOf(n.children), OnDisk(existing));
    FilterKeepsAll(AllFiles(n), OnDisk(existing));
    assert Filter(n.files, OnDisk(existing)) == n.files by {
      FilterKeepsAllOfPrefix(n.files, AllFilesOf(n.children), OnDisk(existing));
    }
    assert r.children == n.children by {
      forall i | 0 <= i < |n.children|
        ensures r.children[i] == n.children[i]
      {
        assert n.children[i] in n.children;
        LiveChild(n, i, existing);
        PruneKeepsLiveTree(n.children[i], existing);
      }
    }
  }

  /** Every file of a child's subtree is a file of the parent's subtree. */
  lemma LiveChild(n: DirectoryNode, i: nat, existing: set<string>)
    requires i < |n.children|
    requires forall k :: 0 <= k < |AllFiles(n)| ==> AllFiles(n)[k].path in existing
    ensures forall k :: 0 <= k < |AllFiles(n.children[i])| ==> AllFiles(n.children[i])[k].path in existing
  {
    AllFilesOfChild(n.children, i);
    forall k | 0 <= k < |AllFiles(n.children[i])|
      ensures AllFiles(n.children[i])[k].path in existing
    {
      var f := AllFiles(n.children[i])[k];
      assert f in AllFilesOf(n.children);
      assert f in AllFiles(n);
      var m :| 0 <= m < |AllFiles(n)| && AllFiles(n)[m] == f;
    }
  }

  lemma {:induction false} AllFilesOfChild(ns: seq<DirectoryNode>, i: nat)
    requires i < |ns|
    ensures forall f :: f in AllFiles(ns[i]) ==> f in AllFilesOf(ns)
  {
    if i > 0 {
      AllFilesOfChild(ns[1..], i - 1);
    }
  }

  // ---------------------------------------------------------------------------
  // save and load

  /** The document `save` writes, decoded the way `load` reads it: the flat list and the
      tree, before existence filtering and pruning. */
  function DecodeSnapshot(root: Json): Option<(seq<FileItem>, DirectoryNode)> {
    var filesArray := GetArray(root, "files");
    var tree := GetObject(root, "tree");
    if filesArray.None? || tree.None? then None
    else
      var files := JsonToItems(filesArray.value);
      var node := JsonToNode(tree.value);
      if files.Some? && node.Some? then Some((files.value, node.value)) else None
  }

  /** `save`: the document with the items in list order under "files" and the tree under
      "tree". Writing it out is not modelled. */
  method Save(files: seq<FileItem>, tree: DirectoryNode) returns (root: Json)
    ensures root.JObject? && root.fields.Keys == {"files", "tree"}
    ensures root.fields["files"] == JArray(ItemsToJson(files)) && root.fields["tree"] == NodeToJson(tree)
    ensures (forall i :: 0 <= i < |files| ==> ItemInRange(files[i])) && NodeInRange(tree) ==>
              DecodeSnapshot(root) == Some((files, tree))
  {
    var filesArray := WriteItems(files);
    root := JObject(map["files" := JArray(filesArray), "tree" := NodeToJson(tree)]);
    if (forall i :: 0 <= i < |files| ==> ItemInRange(files[i])) && NodeInRange(tree) {
      SnapshotRoundTrip(files, tree);
    }
  }

  /** The loop of `save` over the items: one JSON object per item, in order. */
  method WriteItems(files: seq<FileItem>) returns (filesArray: seq<Json>)
    ensures filesArray == ItemsToJson(files)
  {
    filesArray := [];
    var i := 0;
    while i < |files|
      invariant 0 <= i <= |files|
      invariant filesArray == ItemsToJson(files[..i])
    {
      filesArray := filesArray + [ItemToJson(files[i])];
      i := i + 1;
    }
    assert files[..i] == files;
  }

  /** What `load` reads back from a document `save` wrote is what was saved. */
  lemma SnapshotRoundTrip(files: seq<FileItem>, tree: DirectoryNode)
    requires forall i :: 0 <= i < |files| ==> ItemInRange(files[i])
    requires NodeInRange(tree)
    ensures DecodeSnapshot(JObject(map["files" := JArray(ItemsToJson(files)), "tree" := NodeToJson(tree)]))
            == Some((files, tree))
  {
    var root := JObject(map["files" := JArray(ItemsToJson(files)), "tree" := NodeToJson(tree)]);
    assert GetArray(root, "files") == Some(ItemsToJson(files));
    assert GetObject(root, "tree") == Some(NodeToJson(tree));
    ItemsRoundTrip(files);
    NodeRoundTrip(tree);
  }

  /** The cache file: absent, or present with a text that parses to a JSON value (`None` when
      the text parses to nothing). */
  datatype CacheFile = Missing | Present(parsed: Option<Json>)

  /** Decoding one more element extends the decoded list by that element. */
  lemma JsonToItemsSnoc(js: seq<Json>, j: Json)
    requires JsonToItems(js).Some? && JsonToItem(j).Some?
    ensures JsonToItems(js + [j]) == Some(JsonToItems(js).value + [JsonToItem(j).value])
  {
    var r := JsonToItems(js + [j]).value;
    assert forall i :: 0 <= i < |js| ==> (js + [j])[i] == js[i];
    assert r == JsonToItems(js).value + [JsonToItem(j).value];
  }

  /** One more decoded element extends the decoded prefix by itself, and the kept items by
      itself when its path exists. */
  lemma DecodedPrefixStep(js: seq<Json>, i: nat, decoded: seq<FileItem>, item: FileItem, existing: set<string>)
    requires i < |js| && JsonToItems(js[..i]) == Some(decoded) && JsonToItem(js[i]) == Some(item)
    ensures JsonToItems(js[..i + 1]) == Some(decoded + [item])
    ensures Filter(decoded + [item], OnDisk(existing))
              == Filter(decoded, OnDisk(existing)) + if item.path in existing then [item] else []
  {
    PrefixStep(js, i);
    JsonToItemsSnoc(js[..i], js[i]);
    FilterAppend(decoded, [item], OnDisk(existing));
    assert Filter([item], OnDisk(existing)) == if item.path in existing then [item] else [];
  }

  /** The loop of `load` over the saved items: each is decoded, and kept when its path still
      exists. `None` when an element fails to decode. */
  method ReadLiveItems(js: seq<Json>, existing: set<string>) returns (files: Option<seq<FileItem>>)
    ensures files.Some? <==> JsonToItems(js).Some?
    ensures files.Some? ==> files.value == Filter(JsonToItems(js).value, OnDisk(existing))
  {
    var live: seq<FileItem> := [];
    ghost var decoded: seq<FileItem> := [];
    var i := 0;
    while i < |js|
      invariant 0 <= i <= |js|
      invariant JsonToItems(js[..i]) == Some(decoded)
      invariant live == Filter(decoded, OnDisk(existing))
    {
      var item := JsonToItem(js[i]);
      if item.None? {
        return None;
      }
      DecodedPrefixStep(js, i, decoded, item.value, existing);
      decoded := decoded + [item.value];
      if item.value.path in existing {
        live := live + [item.value];
      }
      i := i + 1;
    }
    assert js[..i] == js;
    files := Some(live);
  }

  /** `load`: nothing and no deletion without a cache file; the saved items whose path still
      exists, in stored order, and the pruned tree when the document decodes; otherwise the
      corrupt cache file is deleted and nothing is returned. */
  method Load(cache: CacheFile, existing: set<string>)
    returns (result: Option<(seq<FileItem>, DirectoryNode)>, deleted: bool)
    ensures cache.Missing? ==> result.None? && !deleted
    ensures cache.Present? ==> (deleted <==> result.None?)
    ensures cache.Present? && (cache.parsed.None? || DecodeSnapshot(cache.parsed.value).None?) ==> deleted
    ensures cache.Present? && cache.parsed.Some? && DecodeSnapshot(cache.parsed.value).Some? ==>
              var snapshot := DecodeSnapshot(cache.parsed.value).value;
              result == Some((Filter(snapshot.0, OnDisk(existing)), PruneDeletedFiles(snapshot.1, existing)))
  {
    if cache.Missing? {
      return None, false;
    }
    if cache.parsed.None? {
      return None, true;
    }
    var root := cache.parsed.value;
    var filesArray := GetArray(root, "files");
    if filesArray.None? {
      return None, true;
    }
    var files := ReadLiveItems(filesArray.value, existing);
    if files.None? {
      return None, true;
    }
    var treeJson := GetObject(root, "tree");
    if treeJson.None? {
      return None, true;
    }
    var tree := JsonToNode(treeJson.value);
    if tree.None? {
      return None, true;
    }
    result := Some((files.value, PruneDeletedFiles(tree.value, existing)));
    deleted := false;
  }
}

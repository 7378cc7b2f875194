/** The storage walker and classifier (utils/FileScanner.kt). The device's storage is an
    abstract tree of entries; `listFiles()` returning null is an `UnlistableDir`. */
module FileScanner {
  import opened Wrappers
  import opened FileData
  import opened Text
  import opened Collections

  // ---------------------------------------------------------------------------
  // Classification

  const ImageExtensions: set<string> :=
    {"jpg", "jpeg", "png", "gif", "bmp", "webp", "heic", "heif", "tiff", "svg", "raw", "cr2", "nef"}
  const VideoExtensions: set<string> :=
    {"mp4", "mkv", "avi", "mov", "wmv", "flv", "webm", "m4v", "3gp", "ts", "mpeg", "mpg"}
  const AudioExtensions: set<string> :=
    {"mp3", "aac", "flac", "wav", "ogg", "m4a", "wma", "opus", "aiff", "mid"}
  const DocumentExtensions: set<string> :=
    {"pdf", "doc", "docx", "xls", "xlsx", "ppt", "pptx", "txt", "csv", "odt", "ods", "odp", "epub", "mobi", "rtf", "md"}
  const ApkExtensions: set<string> := {"apk", "xapk", "apks"}
  const ArchiveExtensions: set<string> :=
    {"zip", "rar", "7z", "tar", "gz", "bz2", "xz", "cab", "iso", "tgz"}

  /** The extension group of each category; the last two categories have none. */
  function ExtensionsOf(c: FileCategory): set<string> {
    match c
    case Image => ImageExtensions
    case Video => VideoExtensions
    case Audio => AudioExtensions
    case Document => DocumentExtensions
    case Apk => ApkExtensions
    case Archive => ArchiveExtensions
    case Download => {}
    case Other => {}
  }

  function GroupTable(exts: set<string>, c: FileCategory): map<string, FileCategory> {
    map e | e in exts :: c
  }

  /** The six groups put in declaration order, a later `put` replacing an earlier one for the
      same key. */
  function MergedTable(image: set<string>, video: set<string>, audio: set<string>,
                       document: set<string>, apk: set<string>, archive: set<string>): map<string, FileCategory> {
    GroupTable(image, Image) + GroupTable(video, Video) + GroupTable(audio, Audio)
    + GroupTable(document, Document) + GroupTable(apk, Apk) + GroupTable(archive, Archive)
  }

  /** Where a lookup in the merged table lands: the last group listing the key. */
  lemma MergedTableLookup(image: set<string>, video: set<string>, audio: set<string>,
                          document: set<string>, apk: set<string>, archive: set<string>, ext: string)
    ensures var t := MergedTable(image, video, audio, document, apk, archive);
            && (ext in t <==> ext in image + video + audio + document + apk + archive)
            && (ext in t ==> ext in GroupOf(t[ext], image, video, audio, document, apk, archive))
            && (ext in image && ext !in video + audio + document + apk + archive ==> ext in t && t[ext] == Image)
            && (ext in video && ext !in audio + document + apk + archive ==> ext in t && t[ext] == Video)
            && (ext in audio && ext !in document + apk + archive ==> ext in t && t[ext] == Audio)
            && (ext in document && ext !in apk + archive ==> ext in t && t[ext] == Document)
            && (ext in apk && ext !in archive ==> ext in t && t[ext] == Apk)
            && (ext in archive ==> ext in t && t[ext] == Archive)
  {
  }

  /** The group of a category among the six given ones. */
  function GroupOf(c: FileCategory, image: set<string>, video: set<string>, audio: set<string>,
                 document: set<string>, apk: set<string>, archive: set<string>): set<string> {
    match c
    case Image => image
    case Video => video
    case Audio => audio
    case Document => document
    case Apk => apk
    case Archive => archive
    case Download => {}
    case Other => {}
  }

  /** The extensions of the groups put after the group of `c`. */
  function Later(c: FileCategory): set<string> {
    match c
    case Image => VideoExtensions + AudioExtensions + DocumentExtensions + ApkExtensions + ArchiveExtensions
    case Video => AudioExtensions + DocumentExtensions + ApkExtensions + ArchiveExtensions
    case Audio => DocumentExtensions + ApkExtensions + ArchiveExtensions
    case Document => ApkExtensions + ArchiveExtensions
    case Apk => ArchiveExtensions
    case _ => {}
  }

  /** EXT_TO_CATEGORY. */
  const ExtToCategory: map<string, FileCategory> :=
    MergedTable(ImageExtensions, VideoExtensions, AudioExtensions,
                DocumentExtensions, ApkExtensions, ArchiveExtensions)

  ghost predicate IsKnownExtension(ext: string) {
    exists c :: ext in ExtensionsOf(c)
  }

  // No extension is listed under two categories: each group against the later ones.
  lemma ImageExtensionsUnique()
    ensures forall e :: e in ImageExtensions ==>
      e !in VideoExtensions && e !in AudioExtensions && e !in DocumentExtensions
      && e !in ApkExtensions && e !in ArchiveExtensions
  {
    ImagesAreNoMedia();
    ImagesAreNoFiles();
  }

  lemma ImagesAreNoMedia()
    ensures forall e :: e in ImageExtensions ==> e !in VideoExtensions && e !in AudioExtensions
  {
  }

  lemma ImagesAreNoFiles()
    ensures forall e :: e in ImageExtensions ==>
      e !in DocumentExtensions && e !in ApkExtensions && e !in ArchiveExtensions
  {
  }

  lemma VideoExtensionsUnique()
    ensures forall e :: e in VideoExtensions ==>
      e !in AudioExtensions && e !in DocumentExtensions && e !in ApkExtensions && e !in ArchiveExtensions
  {
  }

  lemma AudioExtensionsUnique()
    ensures forall e :: e in AudioExtensions ==>
      e !in DocumentExtensions && e !in ApkExtensions && e !in ArchiveExtensions
  {
  }

  lemma DocumentExtensionsUnique()
    ensures forall e :: e in DocumentExtensions ==> e !in ApkExtensions && e !in ArchiveExtensions
  {
  }

  lemma ApkExtensionsUnique()
    ensures forall e :: e in ApkExtensions ==> e !in ArchiveExtensions
  {
  }

  /** Every listed extension maps to its own category: no later group overrides it. */
  lemma TableSendsGroupToCategory(ext: string, c: FileCategory)
    requires ext in ExtensionsOf(c)
    ensures ext in ExtToCategory && ExtToCategory[ext] == c
  {
    TableLookup(ext);
    match c
    case Image => ImageExtensionsUnique();
    case Video => VideoExtensionsUnique();
    case Audio => AudioExtensionsUnique();
    case Document => DocumentExtensionsUnique();
    case Apk => ApkExtensionsUnique();
    case Archive =>
    case Download =>
    case Other =>
  }

  lemma TableLookup(ext: string)
    ensures var t := ExtToCategory;
            && (ext in t <==> ext in ImageExtensions + VideoExtensions + AudioExtensions
                                  + DocumentExtensions + ApkExtensions + ArchiveExtensions)
            && (ext in t ==> ext in ExtensionsOf(t[ext]))
            && (ext in ImageExtensions && ext !in Later(Image) ==> ext in t && t[ext] == Image)
            && (ext in VideoExtensions && ext !in Later(Video) ==> ext in t && t[ext] == Video)
            && (ext in AudioExtensions && ext !in Later(Audio) ==> ext in t && t[ext] == Audio)
            && (ext in DocumentExtensions && ext !in ApkExtensions + ArchiveExtensions ==> ext in t && t[ext] == Document)
            && (ext in ApkExtensions && ext !in ArchiveExtensions ==> ext in t && t[ext] == Apk)
            && (ext in ArchiveExtensions ==> ext in t && t[ext] == Archive)
  {
    MergedTableLookup(ImageExtensions, VideoExtensions, AudioExtensions,
                      DocumentExtensions, ApkExtensions, ArchiveExtensions, ext);
  }

  /** Every key of the table comes from some group. */
  lemma TableKeyIsKnown(ext: string)
    requires ext in ExtToCategory
    ensures ext in ExtensionsOf(ExtToCategory[ext])
  {
    TableLookup(ext);
  }

  /** The table sends an extension to a category exactly when the extension is listed
      under that category, and knows exactly the listed extensions. */
  lemma ExtensionLookup(ext: string, c: FileCategory)
    ensures (ext in ExtToCategory && ExtToCategory[ext] == c) <==> ext in ExtensionsOf(c)
    ensures ext in ExtToCategory <==> IsKnownExtension(ext)
  {
    if ext in ExtensionsOf(c) {
      TableSendsGroupToCategory(ext, c);
    }
    if ext in ExtToCategory {
      TableKeyIsKnown(ext);
    }
    if IsKnownExtension(ext) {
      var c' :| ext in ExtensionsOf(c');
      TableSendsGroupToCategory(ext, c');
    }
  }

  /** `File.extension`: the text after the last '.', or "" when the name has none. */
  function Extension(name: string): (ext: string)
    ensures '.' !in ext
    ensures '.' in name ==> |ext| < |name| && name == name[..|name| - |ext| - 1] + "." + ext
    ensures '.' !in name ==> ext == ""
  {
    match LastIndexOf(name, '.')
    case None => ""
    case Some(i) =>
      assert name == name[..i] + "." + name[i + 1..];
      name[i + 1..]
  }

  /** The category `toFileItem` assigns: a table hit on the lowercased extension first,
      then a case-insensitive "/Download/" in the path, then Other. */
  function Classify(path: string, name: string): (c: FileCategory)
    ensures IsKnownExtension(Lowercase(Extension(name))) ==> Lowercase(Extension(name)) in ExtensionsOf(c)
    ensures !IsKnownExtension(Lowercase(Extension(name))) ==>
              c == if exists i: nat :: OccursIgnoreCaseAt(path, "/Download/", i) then Download else Other
  {
    var ext := Lowercase(Extension(name));
    ExtensionLookup(ext, Image);
    if ext in ExtToCategory then
      ExtensionLookup(ext, ExtToCategory[ext]);
      ExtToCategory[ext]
    else if ContainsIgnoreCase(path, "/Download/") then Download
    else Other
  }

  lemma UpperCaseExtensionIsImage()
    ensures Classify("/storage/emulated/0/DCIM/PHOTO.JPG", "PHOTO.JPG") == Image
  {
    UpperCaseExtension();
    TableSendsGroupToCategory("jpg", Image);
  }

  lemma UpperCaseExtension()
    ensures Lowercase(Extension("PHOTO.JPG")) == "jpg"
  {
    ExtensionAfterLastDot("PHOTO.JPG", 5);
    assert "PHOTO.JPG"[6..] == "JPG";
    LowercaseJpg();
  }

  lemma LowercaseJpg()
    ensures Lowercase("JPG") == "jpg"
  {
    var r := Lowercase("JPG");
    assert LowerChar('J') == 'j' && LowerChar('P') == 'p' && LowerChar('G') == 'g';
    assert r[0] == 'j' && r[1] == 'p' && r[2] == 'g';
  }

  /** The extension is what follows the last dot. */
  lemma ExtensionAfterLastDot(name: string, i: nat)
    requires i < |name| && name[i] == '.' && '.' !in name[i + 1..]
    ensures Extension(name) == name[i + 1..]
  {
    var j := LastIndexOf(name, '.');
  }

  /** No group lists the empty extension, so a name without a dot never hits the table. */
  lemma EmptyExtensionIsUnknown()
    ensures !IsKnownExtension("")
  {
    forall c
      ensures "" !in ExtensionsOf(c)
    {
    }
  }

  /** A file without an extension falls back on its folder, matched case-insensitively. */
  lemma DownloadFolderFallback()
    ensures Classify("/storage/emulated/0/download/notes", "notes") == Download
  {
    NoExtension();
    EmptyExtensionIsUnknown();
    DownloadFolderMatches();
  }

  lemma NoExtension()
    ensures Lowercase(Extension("notes")) == ""
  {
    assert '.' !in "notes";
  }

  lemma DownloadFolderMatches()
    ensures OccursIgnoreCaseAt("/storage/emulated/0/download/notes", "/Download/", 19)
  {
  }

  /** A known extension wins over the folder. */
  lemma ExtensionBeatsDownloadFolder()
    ensures Classify("/storage/emulated/0/Download/a.mp3", "a.mp3") == Audio
  {
    AudioExtension();
    TableSendsGroupToCategory("mp3", Audio);
  }

  lemma AudioExtension()
    ensures Lowercase(Extension("a.mp3")) == "mp3"
  {
    ExtensionAfterLastDot("a.mp3", 1);
    assert "a.mp3"[2..] == "mp3";
    var r := Lowercase("mp3");
    assert LowerChar('m') == 'm' && LowerChar('p') == 'p' && LowerChar('3') == '3';
    assert r[0] == 'm' && r[1] == 'p' && r[2] == '3';
  }

  // ---------------------------------------------------------------------------
  // The abstract filesystem

  /** A file with its `length()` and `lastModified()`, a directory with its listing, or a
      directory whose `listFiles()` returns null. */
  datatype Entry =
    | FileEntry(name: string, length: int, lastModified: int)
    | DirEntry(name: string, listing: seq<Entry>)
    | UnlistableDir(name: string)
  {
    /** `isDirectory`. */
    predicate IsDirectory() { !FileEntry? }
  }

  /** The absolute path of an entry listed in directory `dirPath`. */
  function ChildPath(dirPath: string, name: string): string {
    dirPath + "/" + name
  }

  /** What a real listing guarantees: entry names contain no separator and are distinct
      within one directory, at every level. */
  ghost predicate WellFormed(e: Entry) {
    match e
    case DirEntry(_, ls) =>
      && (forall i :: 0 <= i < |ls| ==> '/' !in ls[i].name)
      && (forall i, j :: 0 <= i < j < |ls| ==> ls[i].name != ls[j].name)
      && (forall x :: x in ls ==> WellFormed(x))
    case _ => true
  }

  /** `File.toFileItem()` of a file entry at `path`. */
  function ToFileItem(path: string, e: Entry): (item: FileItem)
    requires e.FileEntry?
    ensures item.path == path && item.name == e.name
    ensures item.size == e.length && item.lastModified == e.lastModified
    ensures item.category == Classify(path, e.name)
    ensures item.duplicateGroup == NoDuplicateGroup
  {
    FileItem(path, e.name, e.length, e.lastModified, Classify(path, e.name), NoDuplicateGroup)
  }

  /** SKIP_DIRS, in the iteration order of the set: `any` tries the entries one by one. */
  const SkipDirs: seq<string> :=
    ["Android/data", "Android/obb", ".thumbnails", ".cache", "lost+found", "proc", "sys", "dev"]

  /** `dirs.any { relative.startsWith(it) }`. */
  predicate AnyIsPrefix(dirs: seq<string>, relative: string) {
    dirs != [] && (dirs[0] <= relative || AnyIsPrefix(dirs[1..], relative))
  }

  /** `any` holds exactly when some entry is a prefix. */
  lemma {:induction false} AnyIsPrefixMeansSome(dirs: seq<string>, relative: string)
    ensures AnyIsPrefix(dirs, relative) <==> exists s :: s in dirs && s <= relative
  {
    if dirs != [] {
      AnyIsPrefixMeansSome(dirs[1..], relative);
      if dirs[0] <= relative {
        assert dirs[0] in dirs;
      } else if AnyIsPrefix(dirs[1..], relative) {
        var s :| s in dirs[1..] && s <= relative;
        assert s in dirs;
      } else {
        forall s | s in dirs
          ensures !(s <= relative)
        {
          var k :| 0 <= k < |dirs| && dirs[k] == s;
          if k > 0 {
            assert dirs[1..][k - 1] == s;
            assert s in dirs[1..];
          }
        }
      }
    }
  }

  /** No entry is a prefix when none starts with the relative path's first character. */
  lemma {:induction false} NoEntryStartsWith(dirs: seq<string>, relative: string)
    requires relative != []
    requires forall i :: 0 <= i < |dirs| ==> dirs[i] != [] && dirs[i][0] != relative[0]
    ensures !AnyIsPrefix(dirs, relative)
  {
    if dirs != [] {
      NoEntryStartsWith(dirs[1..], relative);
    }
  }

  /** The text after `rootPath/`, as `substringAfter` computes it. */
  function RelativePath(rootPath: string, path: string): string {
    SubstringAfter(path, rootPath + "/")
  }

  /** The skip rule on a root-relative path: it starts with an entry of SKIP_DIRS (a plain
      string prefix), or the directory's name starts with a dot. */
  predicate SkipsRelative(relative: string, name: string) {
    AnyIsPrefix(SkipDirs, relative) || "." <= name
  }

  /** The skip rule for a child directory at `childPath`. */
  predicate IsSkipped(rootPath: string, childPath: string, name: string) {
    SkipsRelative(RelativePath(rootPath, childPath), name)
  }

  /** Below the root the relative path is just the part after `rootPath/`. */
  lemma SkipRuleBelowRoot(rootPath: string, rest: string, name: string)
    ensures IsSkipped(rootPath, rootPath + "/" + rest, name) == SkipsRelative(rest, name)
  {
    assert rootPath + "/" + rest == (rootPath + "/") + rest;
    SubstringAfterPrefix(rootPath + "/", rest);
  }

  /** The match is a plain prefix: a top-level "development" is skipped as "dev" is. */
  lemma SkipRuleIsPlainPrefix()
    ensures SkipsRelative("development", "development")
  {
    var dirs := SkipDirs;
    assert "development"[..3] == "dev";
    assert dirs[7] in dirs && dirs[7] <= "development";
    AnyIsPrefixMeansSome(dirs, "development");
  }

  /** The match looks at the start of the relative path only: "Music/proc" is walked. */
  lemma SkipRuleLooksAtTheStart()
    ensures !SkipsRelative("Music/proc", "proc")
  {
    assert forall i :: 0 <= i < |SkipDirs| ==> SkipDirs[i][0] in "A.lpsd";
    NoEntryStartsWith(SkipDirs, "Music/proc");
    assert "proc"[0] == 'p';
  }

  lemma SkipRuleIsPlainPrefixBelowRoot(rootPath: string)
    ensures IsSkipped(rootPath, rootPath + "/development", "development")
    ensures !IsSkipped(rootPath, rootPath + "/Music/proc", "proc")
  {
    assert rootPath + "/development" == rootPath + "/" + "development";
    assert rootPath + "/Music/proc" == rootPath + "/" + "Music/proc";
    SkipRuleBelowRoot(rootPath, "development", "development");
    SkipRuleBelowRoot(rootPath, "Music/proc", "proc");
    SkipRuleIsPlainPrefix();
    SkipRuleLooksAtTheStart();
  }

  // ---------------------------------------------------------------------------
  // What one walk is meant to produce

  /** A work-list element: a directory entry, its absolute path and its depth. */
  datatype Frame = Frame(entry: Entry, path: string, depth: int)

  /** The non-directory children of a listing, as FileItems in listing order; a dot in a
      file's name does not exclude it. */
  function OwnFiles(dirPath: string, ls: seq<Entry>): (files: seq<FileItem>)
    ensures |files| <= |ls|
  {
    if ls == [] then []
    else
      var x := ls[|ls| - 1];
      OwnFiles(dirPath, ls[..|ls| - 1])
        + if x.FileEntry? then [ToFileItem(ChildPath(dirPath, x.name), x)] else []
  }

  /** Every file of the listing, whatever its name, becomes an item, and nothing else does. */
  lemma {:induction false} OwnFilesAreTheListedFiles(dirPath: string, ls: seq<Entry>)
    ensures forall item :: item in OwnFiles(dirPath, ls) ==>
              exists x :: x in ls && x.FileEntry? && item == ToFileItem(ChildPath(dirPath, x.name), x)
    ensures forall x :: x in ls && x.FileEntry? ==> ToFileItem(ChildPath(dirPath, x.name), x) in OwnFiles(dirPath, ls)
  {
    if ls != [] {
      var init := ls[..|ls| - 1];
      var x := ls[|ls| - 1];
      OwnFilesAreTheListedFiles(dirPath, init);
      assert ls == init + [x];
      assert forall y :: y in init ==> y in ls;
    }
  }

  /** The child directories of a listing that the skip rule lets through, as frames one
      level deeper, in listing order. */
  function ChildFrames(rootPath: string, dirPath: string, depth: int, ls: seq<Entry>): (fs: seq<Frame>)
    ensures |fs| <= |ls|
  {
    if ls == [] then []
    else
      var x := ls[|ls| - 1];
      var p := ChildPath(dirPath, x.name);
      ChildFrames(rootPath, dirPath, depth, ls[..|ls| - 1])
        + if x.IsDirectory() && !IsSkipped(rootPath, p, x.name) then [Frame(x, p, depth)] else []
  }

  lemma {:induction false} ChildFramesComeFromListing(rootPath: string, dirPath: string, depth: int, ls: seq<Entry>)
    ensures forall fr :: fr in ChildFrames(rootPath, dirPath, depth, ls) ==> fr.entry in ls
  {
    ChildFramesAreTheKeptDirs(rootPath, dirPath, depth, ls);
  }

  /** The frames pushed for a listing are exactly its directories that the skip rule lets
      through, each at its child path one level deeper. */
  lemma {:induction false} ChildFramesAreTheKeptDirs(rootPath: string, dirPath: string, depth: int, ls: seq<Entry>)
    ensures forall j :: 0 <= j < |ChildFrames(rootPath, dirPath, depth, ls)| ==>
              var fr := ChildFrames(rootPath, dirPath, depth, ls)[j];
              && fr.entry in ls && fr.entry.IsDirectory()
              && fr.path == ChildPath(dirPath, fr.entry.name) && fr.depth == depth
              && !IsSkipped(rootPath, fr.path, fr.entry.name)
    ensures forall x :: x in ls && x.IsDirectory() && !IsSkipped(rootPath, ChildPath(dirPath, x.name), x.name)
              ==> Frame(x, ChildPath(dirPath, x.name), depth) in ChildFrames(rootPath, dirPath, depth, ls)
  {
    if ls != [] {
      var init := ls[..|ls| - 1];
      var x := ls[|ls| - 1];
      ChildFramesAreTheKeptDirs(rootPath, dirPath, depth, init);
      assert ls == init + [x];
      assert forall y :: y in init ==> y in ls;
    }
  }

  /** The listing `listFiles()` gives: null for a file and for an unreadable directory. */
  function Listing(e: Entry): Option<seq<Entry>> {
    match e
    case DirEntry(_, ls) => Some(ls)
    case _ => None
  }

  /** The directory tree of a frame's subtree: own files, the non-skipped child directories
      in listing order, and aggregates summed from both; an entry without a listing is an
      empty leaf. */
  function Tree(rootPath: string, f: Frame): (n: DirectoryNode)
    ensures n.path == f.path && n.name == f.entry.name && n.depth == f.depth
    ensures f.entry.DirEntry? ==> n.files == OwnFiles(f.path, f.entry.listing)
    ensures f.entry.DirEntry? ==> |n.children| == |ChildFrames(rootPath, f.path, f.depth + 1, f.entry.listing)|
    ensures !f.entry.DirEntry? ==> n.files == [] && n.children == [] && n.totalSize == 0 && n.totalFileCount == 0
    decreases f.entry
  {
    match f.entry
    case DirEntry(name, ls) =>
      var files := OwnFiles(f.path, ls);
      var kids := ChildFrames(rootPath, f.path, f.depth + 1, ls);
      ChildFramesComeFromListing(rootPath, f.path, f.depth + 1, ls);
      var children := seq(|kids|, j requires 0 <= j < |kids| => Tree(rootPath, kids[j]));
      DirectoryNode(f.path, name, files, children,
        SumSizes(files) + SumTotalSizes(children), |files| + SumFileCounts(children), f.depth)
    case _ =>
      DirectoryNode(f.path, f.entry.name, [], [], 0, 0, f.depth)
  }

  /** The trees of a sequence of frames. */
  function Trees(rootPath: string, fs: seq<Frame>): (ns: seq<DirectoryNode>)
    ensures |ns| == |fs|
    ensures forall j :: 0 <= j < |fs| ==> ns[j] == Tree(rootPath, fs[j])
  {
    seq(|fs|, j requires 0 <= j < |fs| => Tree(rootPath, fs[j]))
  }

  /** The child frames the walk pushes after popping `f`: none when there is no listing. */
  function Kids(rootPath: string, f: Frame): seq<Frame> {
    match Listing(f.entry)
    case Some(ls) => ChildFrames(rootPath, f.path, f.depth + 1, ls)
    case None => []
  }

  /** A directory's children are the trees of its child frames. */
  lemma TreeChildren(rootPath: string, f: Frame)
    ensures Tree(rootPath, f).children == Trees(rootPath, Kids(rootPath, f))
  {
  }

  lemma TreesAppend(rootPath: string, a: seq<Frame>, b: seq<Frame>)
    ensures Trees(rootPath, a + b) == Trees(rootPath, a) + Trees(rootPath, b)
  {
  }

  /** The walk's tree is consistent: every node's aggregates are its own files plus its
      children's totals. */
  lemma {:induction false} TreeIsConsistent(rootPath: string, f: Frame)
    ensures Consistent(Tree(rootPath, f))
    decreases f.entry
  {
    match f.entry
    case DirEntry(name, ls) =>
      var kids := Kids(rootPath, f);
      var children := Trees(rootPath, kids);
      TreeChildren(rootPath, f);
      forall j | 0 <= j < |kids|
        ensures Consistent(children[j])
      {
        KidIsSmaller(rootPath, f, j);
        TreeIsConsistent(rootPath, kids[j]);
      }
      ConsistentFromChildren(Tree(rootPath, f));
    case _ =>
  }

  /** A child frame's entry is listed in its parent's entry. */
  lemma KidIsSmaller(rootPath: string, f: Frame, j: nat)
    requires j < |Kids(rootPath, f)|
    ensures Kids(rootPath, f)[j].entry < f.entry
  {
    if f.entry.DirEntry? {
      ChildFramesAreTheKeptDirs(rootPath, f.path, f.depth + 1, f.entry.listing);
    }
  }

  /** A node whose aggregates add up over consistent children is consistent. */
  lemma ConsistentFromChildren(n: DirectoryNode)
    requires n.totalSize == SumSizes(n.files) + SumTotalSizes(n.children)
    requires n.totalFileCount == |n.files| + SumFileCounts(n.children)
    requires forall j :: 0 <= j < |n.children| ==> Consistent(n.children[j])
    ensures Consistent(n)
  {
  }

  /** Every child node lies one level deeper than its parent. */
  lemma {:induction false} TreeDepths(rootPath: string, f: Frame)
    ensures forall c :: c in Tree(rootPath, f).children ==> c.depth == f.depth + 1
  {
    if f.entry.DirEntry? {
      TreeChildren(rootPath, f);
      ChildFramesDepth(rootPath, f.path, f.depth + 1, f.entry.listing);
      TreesDepth(rootPath, Kids(rootPath, f), f.depth + 1);
    }
  }

  lemma {:induction false} ChildFramesDepth(rootPath: string, dirPath: string, depth: int, ls: seq<Entry>)
    ensures forall fr :: fr in ChildFrames(rootPath, dirPath, depth, ls) ==> fr.depth == depth
  {
    if ls != [] {
      ChildFramesDepth(rootPath, dirPath, depth, ls[..|ls| - 1]);
    }
  }

  lemma TreesDepth(rootPath: string, fs: seq<Frame>, depth: int)
    requires forall fr :: fr in fs ==> fr.depth == depth
    ensures forall c :: c in Trees(rootPath, fs) ==> c.depth == depth
  {
    var ns := Trees(rootPath, fs);
    forall c | c in ns
      ensures c.depth == depth
    {
      var j :| 0 <= j < |ns| && ns[j] == c;
      assert fs[j] in fs;
    }
  }

  /** The order in which a last-in-first-out walk meets the files of a tree: a directory's
      own files, then its children's subtrees, last child first. */
  function WalkOrder(n: DirectoryNode): seq<FileItem> {
    n.files + WalkOrderRev(n.children)
  }

  function WalkOrderRev(ns: seq<DirectoryNode>): seq<FileItem> {
    if ns == [] then [] else WalkOrderRev(ns[1..]) + WalkOrder(ns[0])
  }

  lemma {:induction false} WalkOrderRevAppend(a: seq<DirectoryNode>, b: seq<DirectoryNode>)
    ensures WalkOrderRev(a + b) == WalkOrderRev(b) + WalkOrderRev(a)
  {
    if a == [] {
      assert a + b == b;
    } else {
      assert (a + b)[1..] == a[1..] + b;
      WalkOrderRevAppend(a[1..], b);
    }
  }

  /** The walk meets every file of the tree exactly once: its order is a permutation of
      the tree's own (preorder) file list. */
  lemma {:induction false} WalkOrderIsPermutation(n: DirectoryNode)
    ensures multiset(WalkOrder(n)) == multiset(AllFiles(n))
  {
    WalkOrderRevIsPermutation(n.children);
  }

  lemma {:induction false} WalkOrderRevIsPermutation(ns: seq<DirectoryNode>)
    ensures multiset(WalkOrderRev(ns)) == multiset(AllFilesOf(ns))
    decreases ns
  {
    if ns != [] {
      WalkOrderIsPermutation(ns[0]);
      WalkOrderRevIsPermutation(ns[1..]);
    }
  }

  /** In a consistent tree the walk finds `totalFileCount` files of `totalSize` bytes. */
  lemma {:induction false} WalkTotals(n: DirectoryNode)
    requires Consistent(n)
    ensures |WalkOrder(n)| == n.totalFileCount
    ensures SumSizes(WalkOrder(n)) == n.totalSize
  {
    WalkOrderIsPermutation(n);
    assert |WalkOrder(n)| == |AllFiles(n)| by {
      assert |multiset(WalkOrder(n))| == |multiset(AllFiles(n))|;
    }
    WalkTotalsOf(n.children);
    SumSizesAppend(n.files, WalkOrderRev(n.children));
  }

  lemma {:induction false} WalkTotalsOf(ns: seq<DirectoryNode>)
    requires forall c :: c in ns ==> Consistent(c)
    ensures |WalkOrderRev(ns)| == SumFileCounts(ns)
    ensures SumSizes(WalkOrderRev(ns)) == SumTotalSizes(ns)
    decreases ns
  {
    if ns != [] {
      WalkTotals(ns[0]);
      WalkTotalsOf(ns[1..]);
      SumSizesAppend(WalkOrderRev(ns[1..]), WalkOrder(ns[0]));
    }
  }

  /** Directories of a tree, each popped once by the walk. */
  function NodeCount(n: DirectoryNode): nat {
    1 + NodeCountOf(n.children)
  }

  function NodeCountOf(ns: seq<DirectoryNode>): nat {
    if ns == [] then 0 else NodeCount(ns[0]) + NodeCountOf(ns[1..])
  }

  lemma {:induction false} NodeCountOfAppend(a: seq<DirectoryNode>, b: seq<DirectoryNode>)
    ensures NodeCountOf(a + b) == NodeCountOf(a) + NodeCountOf(b)
  {
    if a == [] {
      assert a + b == b;
    } else {
      assert (a + b)[1..] == a[1..] + b;
      NodeCountOfAppend(a[1..], b);
    }
  }

  // ---------------------------------------------------------------------------
  // The walk

  /** The storage root as the first frame. */
  function RootFrame(rootPath: string, root: Entry): Frame {
    Frame(root, rootPath, 0)
  }

  /** How a walk ends: with its result, or by the coroutine's cancellation. */
  datatype WalkOutcome<T> = Completed(value: T) | Cancelled

  /** `onProgress` is called with 100, 200, ... : once per hundred files counted. */
  predicate ReportsUpTo(progress: seq<int>, scanned: int) {
    && |progress| == scanned / 100
    && forall i :: 0 <= i < |progress| ==> progress[i] == 100 * (i + 1)
  }

  /** The files the walk has still to meet with `stack` pending: the top frame's subtree
      first. */
  ghost function PendingFiles(rootPath: string, stack: seq<Frame>): seq<FileItem> {
    if stack == [] then []
    else WalkOrder(Tree(rootPath, stack[|stack| - 1])) + PendingFiles(rootPath, stack[..|stack| - 1])
  }

  /** The directories the walk has still to pop with `stack` pending. */
  ghost function PendingDirs(rootPath: string, stack: seq<Frame>): nat {
    if stack == [] then 0
    else NodeCount(Tree(rootPath, stack[|stack| - 1])) + PendingDirs(rootPath, stack[..|stack| - 1])
  }

  lemma {:induction false} PendingFilesAppend(rootPath: string, a: seq<Frame>, b: seq<Frame>)
    ensures PendingFiles(rootPath, a + b) == PendingFiles(rootPath, b) + PendingFiles(rootPath, a)
    decreases |b|
  {
    if b == [] {
      assert a + b == a;
    } else {
      var b' := b[..|b| - 1];
      assert (a + b)[..|a + b| - 1] == a + b';
      PendingFilesAppend(rootPath, a, b');
      AppendAssociative(WalkOrder(Tree(rootPath, b[|b| - 1])), PendingFiles(rootPath, b'), PendingFiles(rootPath, a));
    }
  }

  lemma {:induction false} PendingDirsAppend(rootPath: string, a: seq<Frame>, b: seq<Frame>)
    ensures PendingDirs(rootPath, a + b) == PendingDirs(rootPath, b) + PendingDirs(rootPath, a)
    decreases |b|
  {
    if b == [] {
      assert a + b == a;
    } else {
      var b' := b[..|b| - 1];
      assert (a + b)[..|a + b| - 1] == a + b';
      PendingDirsAppend(rootPath, a, b');
    }
  }

  /** Pending frames are the trees the walk still has to go through, last one first. */
  lemma {:induction false} PendingTrees(rootPath: string, fs: seq<Frame>)
    ensures PendingFiles(rootPath, fs) == WalkOrderRev(Trees(rootPath, fs))
    ensures PendingDirs(rootPath, fs) == NodeCountOf(Trees(rootPath, fs))
    decreases |fs|
  {
    if fs != [] {
      var init := fs[..|fs| - 1];
      var f := fs[|fs| - 1];
      assert fs == init + [f];
      PendingTrees(rootPath, init);
      TreesAppend(rootPath, init, [f]);
      SingleTree(rootPath, f);
      WalkOrderRevAppend(Trees(rootPath, init), [Tree(rootPath, f)]);
      NodeCountOfAppend(Trees(rootPath, init), [Tree(rootPath, f)]);
    }
  }

  /** Popping frame `f` off the top of the stack and pushing its child frames: the files
      still to be met are the popped directory's own files, then the rest, and one
      directory fewer remains to be popped. */
  lemma ExpandFrame(rootPath: string, rest: seq<Frame>, f: Frame)
    ensures PendingFiles(rootPath, rest + [f])
         == Tree(rootPath, f).files + PendingFiles(rootPath, rest + Kids(rootPath, f))
    ensures PendingDirs(rootPath, rest + [f]) == 1 + PendingDirs(rootPath, rest + Kids(rootPath, f))
  {
    var kids := Kids(rootPath, f);
    assert (rest + [f])[..|rest|] == rest;
    TreeChildren(rootPath, f);
    PendingTrees(rootPath, kids);
    ExpandFrameFiles(rootPath, rest, f, kids);
    ExpandFrameDirs(rootPath, rest, f, kids);
  }

  lemma ExpandFrameFiles(rootPath: string, rest: seq<Frame>, f: Frame, kids: seq<Frame>)
    requires (rest + [f])[..|rest|] == rest
    requires PendingFiles(rootPath, kids) == WalkOrderRev(Tree(rootPath, f).children)
    ensures PendingFiles(rootPath, rest + [f]) == Tree(rootPath, f).files + PendingFiles(rootPath, rest + kids)
  {
    var own := Tree(rootPath, f).files;
    var below := PendingFiles(rootPath, kids);
    var others := PendingFiles(rootPath, rest);
    PendingFilesAppend(rootPath, rest, kids);
    assert PendingFiles(rootPath, rest + [f]) == (own + below) + others;
    AppendAssociative(own, below, others);
  }

  lemma ExpandFrameDirs(rootPath: string, rest: seq<Frame>, f: Frame, kids: seq<Frame>)
    requires (rest + [f])[..|rest|] == rest
    requires PendingDirs(rootPath, kids) == NodeCountOf(Tree(rootPath, f).children)
    ensures PendingDirs(rootPath, rest + [f]) == 1 + PendingDirs(rootPath, rest + kids)
  {
    PendingDirsAppend(rootPath, rest, kids);
    assert PendingDirs(rootPath, rest + [f]) == NodeCount(Tree(rootPath, f)) + PendingDirs(rootPath, rest);
  }

  /** A stack holding one frame. */
  lemma SingleTree(rootPath: string, f: Frame)
    ensures Trees(rootPath, [f]) == [Tree(rootPath, f)]
    ensures WalkOrderRev([Tree(rootPath, f)]) == WalkOrder(Tree(rootPath, f))
    ensures NodeCountOf([Tree(rootPath, f)]) == NodeCount(Tree(rootPath, f))
  {
    assert [Tree(rootPath, f)][1..] == [];
  }

  /** Counting one more file keeps the reports in step: a report is added exactly when
      the new count is a multiple of a hundred. */
  lemma ReportStep(progress: seq<int>, scanned: int)
    requires scanned >= 0 && ReportsUpTo(progress, scanned)
    ensures ReportsUpTo(if (scanned + 1) % 100 == 0 then progress + [scanned + 1] else progress, scanned + 1)
  {
  }

  lemma {:induction false} OwnFilesAppend(dirPath: string, a: seq<Entry>, b: seq<Entry>)
    ensures OwnFiles(dirPath, a + b) == OwnFiles(dirPath, a) + OwnFiles(dirPath, b)
    decreases |b|
  {
    if b == [] {
      assert a + b == a;
    } else {
      var b' := b[..|b| - 1];
      assert (a + b)[..|a + b| - 1] == a + b';
      OwnFilesAppend(dirPath, a, b');
    }
  }

  lemma {:induction false} ChildFramesAppend(rootPath: string, dirPath: string, depth: int, a: seq<Entry>, b: seq<Entry>)
    ensures ChildFrames(rootPath, dirPath, depth, a + b)
         == ChildFrames(rootPath, dirPath, depth, a) + ChildFrames(rootPath, dirPath, depth, b)
    decreases |b|
  {
    if b == [] {
      assert a + b == a;
    } else {
      var b' := b[..|b| - 1];
      assert (a + b)[..|a + b| - 1] == a + b';
      ChildFramesAppend(rootPath, dirPath, depth, a, b');
    }
  }

  /** One child of a listing: a directory that the skip rule lets through is pushed one
      level deeper; a file is counted, reported when the count reaches a multiple of a
      hundred, and collected. */
  method VisitChild(rootPath: string, f: Frame, child: Entry,
                    results: seq<FileItem>, stack: seq<Frame>, scanned: int, progress: seq<int>)
    returns (results': seq<FileItem>, stack': seq<Frame>, scanned': int, progress': seq<int>)
    requires scanned == |results| && ReportsUpTo(progress, scanned)
    ensures results' == results + OwnFiles(f.path, [child])
    ensures stack' == stack + ChildFrames(rootPath, f.path, f.depth + 1, [child])
    ensures scanned' == |results'| && ReportsUpTo(progress', scanned')
  {
    results', stack', scanned', progress' := results, stack, scanned, progress;
    var childPath := ChildPath(f.path, child.name);
    if child.IsDirectory() {
      if !IsSkipped(rootPath, childPath, child.name) {
        KeptDirChild(rootPath, f.path, f.depth + 1, child);
        stack' := stack' + [Frame(child, childPath, f.depth + 1)];
      } else {
        SkippedDirChild(rootPath, f.path, f.depth + 1, child);
      }
    } else {
      FileChild(rootPath, f.path, f.depth + 1, child);
      scanned', progress' := CountFile(scanned', progress');
      results' := results' + [ToFileItem(childPath, child)];
    }
  }

  /** The loop over one directory's listing, child by child in listing order. */
  method VisitChildren(rootPath: string, f: Frame, children: seq<Entry>,
                       results: seq<FileItem>, stack: seq<Frame>, scanned: int, progress: seq<int>)
    returns (results': seq<FileItem>, stack': seq<Frame>, scanned': int, progress': seq<int>)
    requires scanned == |results| && ReportsUpTo(progress, scanned)
    ensures results' == results + OwnFiles(f.path, children)
    ensures stack' == stack + ChildFrames(rootPath, f.path, f.depth + 1, children)
    ensures scanned' == |results'| && ReportsUpTo(progress', scanned')
  {
    results', stack', scanned', progress' := results, stack, scanned, progress;
    var i := 0;
    ghost var visited: seq<Entry> := [];
    while i < |children|
      invariant 0 <= i <= |children| && visited == children[..i]
      invariant results' == results + OwnFiles(f.path, visited)
      invariant stack' == stack + ChildFrames(rootPath, f.path, f.depth + 1, visited)
      invariant scanned' == |results'| && ReportsUpTo(progress', scanned')
    {
      var child := children[i];
      OwnFilesAppend(f.path, visited, [child]);
      ChildFramesAppend(rootPath, f.path, f.depth + 1, visited, [child]);
      AppendAssociative(results, OwnFiles(f.path, visited), OwnFiles(f.path, [child]));
      AppendAssociative(stack, ChildFrames(rootPath, f.path, f.depth + 1, visited),
                        ChildFrames(rootPath, f.path, f.depth + 1, [child]));
      PrefixStep(children, i);
      results', stack', scanned', progress' :=
        VisitChild(rootPath, f, child, results', stack', scanned', progress');
      visited := visited + [child];
      i := i + 1;
    }
    assert children[..|children|] == children;
  }

  lemma ListedFrame(rootPath: string, f: Frame, children: seq<Entry>)
    requires Listing(f.entry) == Some(children)
    ensures Kids(rootPath, f) == ChildFrames(rootPath, f.path, f.depth + 1, children)
    ensures Tree(rootPath, f).files == OwnFiles(f.path, children)
  {
  }

  lemma UnlistedFrame(rootPath: string, f: Frame)
    requires Listing(f.entry) == None
    ensures Kids(rootPath, f) == [] && Tree(rootPath, f).files == []
  {
  }

  /** One popped directory: `listFiles()` returning null skips it, otherwise its listing
      is visited. */
  method VisitDirectory(rootPath: string, f: Frame,
                        results: seq<FileItem>, stack: seq<Frame>, scanned: int, progress: seq<int>)
    returns (results': seq<FileItem>, stack': seq<Frame>, scanned': int, progress': seq<int>)
    requires scanned == |results| && ReportsUpTo(progress, scanned)
    ensures results' == results + Tree(rootPath, f).files
    ensures stack' == stack + Kids(rootPath, f)
    ensures scanned' == |results'| && ReportsUpTo(progress', scanned')
  {
    match Listing(f.entry)
    case None =>
      UnlistedFrame(rootPath, f);
      assert stack + [] == stack && results + [] == results;
      results', stack', scanned', progress' := results, stack, scanned, progress;
    case Some(children) =>
      ListedFrame(rootPath, f, children);
      results', stack', scanned', progress' :=
        VisitChildren(rootPath, f, children, results, stack, scanned, progress);
  }

  /** `scanAll`: a last-in-first-out walk from the storage root that collects the files it
      meets. `cancelAfter` is the number of directories popped before the coroutine is
      cancelled (None: never); `ensureActive()` notices it at the head of the loop. The
      result is the walk order of the directory tree, and the walk is cancelled exactly
      when the cancellation comes before the last directory is popped. */
  method ScanAll(rootPath: string, root: Entry, cancelAfter: Option<nat>)
    returns (outcome: WalkOutcome<seq<FileItem>>, progress: seq<int>)
    ensures outcome.Cancelled? <==>
              cancelAfter.Some? && cancelAfter.value < NodeCount(Tree(rootPath, RootFrame(rootPath, root)))
    ensures outcome.Completed? ==> outcome.value == WalkOrder(Tree(rootPath, RootFrame(rootPath, root)))
    ensures outcome.Completed? ==> ReportsUpTo(progress, |outcome.value|)
    ensures outcome.Cancelled? ==>
              exists scanned :: 0 <= scanned <= |WalkOrder(Tree(rootPath, RootFrame(rootPath, root)))|
                                && ReportsUpTo(progress, scanned)
  {
    ghost var tree := Tree(rootPath, RootFrame(rootPath, root));
    var results: seq<FileItem> := [];
    var stack: seq<Frame> := [RootFrame(rootPath, root)];
    var scanned := 0;
    var popped: nat := 0;
    progress := [];
    assert PendingFiles(rootPath, stack) == WalkOrder(tree) + [];
    while stack != []
      invariant results + PendingFiles(rootPath, stack) == WalkOrder(tree)
      invariant popped + PendingDirs(rootPath, stack) == NodeCount(tree)
      invariant scanned == |results| && ReportsUpTo(progress, scanned)
      invariant cancelAfter.Some? ==> popped <= cancelAfter.value
      decreases PendingDirs(rootPath, stack)
    {
      if cancelAfter.Some? && popped == cancelAfter.value {
        assert |results| <= |WalkOrder(tree)|;
        outcome := Cancelled;
        return;
      }
      var f := stack[|stack| - 1];
      var rest := stack[..|stack| - 1];
      SplitLast(stack);
      ExpandFrame(rootPath, rest, f);
      stack := rest;
      popped := popped + 1;
      ghost var before := results;
      results, stack, scanned, progress := VisitDirectory(rootPath, f, results, stack, scanned, progress);
      AppendAssociative(before, Tree(rootPath, f).files, PendingFiles(rootPath, stack));
    }
    outcome := Completed(results);
  }

  // ---------------------------------------------------------------------------
  // scanWithTree: the same walk, recording every directory it pushes

  /** A directory path ends where a child's name begins, so children with different names
      have different paths. */
  lemma ChildPathsDiffer(dirPath: string, a: string, b: string)
    requires a != b
    ensures ChildPath(dirPath, a) != ChildPath(dirPath, b)
  {
    assert a == ChildPath(dirPath, a)[|dirPath| + 1..];
    assert b == ChildPath(dirPath, b)[|dirPath| + 1..];
  }

  /** A path `s/` that is neither `q/` nor a prefix of `q` is no prefix of `q/name` either
      when `name` has no separator. */
  lemma NotBelowChild(s: string, q: string, name: string)
    requires '/' !in name && s != q && !(s + "/" <= q)
    ensures !(s + "/" <= ChildPath(q, name))
  {
    var c := ChildPath(q, name);
    if |s| + 1 <= |c| {
      if |s| > |q| {
        assert c[|s|] == name[|s| - |q| - 1];
      } else if |s| == |q| {
        assert c[..|s|] == q;
      } else {
        assert c[..|s| + 1] == q[..|s| + 1];
      }
    }
  }

  /** A path that extends `a` is no prefix of what `a` is no prefix of. */
  lemma NotBelowExtension(a: string, b: string, p: string)
    requires a <= b && !(a <= p)
    ensures !(b <= p)
  {
    assert a == b[..|a|];
  }

  /** `DirInfo`: a recorded directory with its own files and the paths of its recorded
      child directories, both filled in while its listing is visited. */
  datatype DirInfo = DirInfo(file: Entry, files: seq<FileItem>, childPaths: seq<string>, depth: int)

  /** The paths of a sequence of frames. */
  function FramePaths(fs: seq<Frame>): (ps: seq<string>)
    ensures |ps| == |fs| && forall j :: 0 <= j < |fs| ==> ps[j] == fs[j].path
  {
    seq(|fs|, j requires 0 <= j < |fs| => fs[j].path)
  }

  lemma FramePathsAppend(a: seq<Frame>, b: seq<Frame>)
    ensures FramePaths(a + b) == FramePaths(a) + FramePaths(b)
  {
  }

  /** The record made when a directory is pushed: no files and no children yet. */
  function EmptyInfo(f: Frame): DirInfo {
    DirInfo(f.entry, [], [], f.depth)
  }

  /** The frame a record stands for. */
  function FrameOf(path: string, info: DirInfo): Frame {
    Frame(info.file, path, info.depth)
  }

  /** The record of a directory whose listing has been visited: its own files and the
      paths of the child directories the walk pushed. */
  ghost function FullInfo(rootPath: string, f: Frame): DirInfo {
    DirInfo(f.entry, Tree(rootPath, f).files, FramePaths(Kids(rootPath, f)), f.depth)
  }

  /** A popped directory's record is complete and each of its child directories is recorded
      under its own path. */
  ghost predicate Finished(rootPath: string, entries: map<string, DirInfo>, p: string)
    requires p in entries
  {
    var fr := FrameOf(p, entries[p]);
    var kids := Kids(rootPath, fr);
    && entries[p] == FullInfo(rootPath, fr)
    && forall j :: 0 <= j < |kids| ==> kids[j].path in entries && FrameOf(kids[j].path, entries[kids[j].path]) == kids[j]
  }

  /** The root's record keeps the root entry at depth 0. */
  ghost predicate RootRecorded(rootPath: string, root: Entry, entries: map<string, DirInfo>) {
    rootPath in entries && entries[rootPath].file == root && entries[rootPath].depth == 0
  }

  ghost predicate AllWellFormed(entries: map<string, DirInfo>) {
    forall p :: p in entries ==> WellFormed(entries[p].file)
  }

  /** Every record belongs to a popped or a pending directory. */
  ghost predicate Covered(entries: map<string, DirInfo>, done: set<string>, stack: seq<Frame>) {
    forall p :: p in entries ==> p in done || p in FramePaths(stack)
  }

  /** Pending directories are recorded empty and not popped yet. */
  ghost predicate PendingEmpty(entries: map<string, DirInfo>, done: set<string>, stack: seq<Frame>) {
    forall i :: 0 <= i < |stack| ==>
      stack[i].path in entries && stack[i].path !in done && entries[stack[i].path] == EmptyInfo(stack[i])
  }

  ghost predicate DistinctPaths(stack: seq<Frame>) {
    forall i, j :: 0 <= i < j < |stack| ==> stack[i].path != stack[j].path
  }

  /** Nothing under a pending directory is recorded yet. */
  ghost predicate NothingBelow(entries: map<string, DirInfo>, stack: seq<Frame>) {
    forall i, p :: 0 <= i < |stack| && p in entries ==> !(stack[i].path + "/" <= p)
  }

  ghost predicate DoneFinished(rootPath: string, entries: map<string, DirInfo>, done: set<string>) {
    forall p :: p in done ==> p in entries && Finished(rootPath, entries, p)
  }

  /** What `dirMap` holds at the head of the walk loop: popped directories (`done`) are
      finished, directories on the stack are recorded empty, no two pending directories share
      a path, and nothing under a pending directory is recorded yet. */
  ghost predicate Recording(rootPath: string, root: Entry, entries: map<string, DirInfo>,
                            done: set<string>, stack: seq<Frame>)
  {
    && RootRecorded(rootPath, root, entries)
    && AllWellFormed(entries)
    && Covered(entries, done, stack)
    && PendingEmpty(entries, done, stack)
    && DistinctPaths(stack)
    && NothingBelow(entries, stack)
    && DoneFinished(rootPath, entries, done)
  }

  /** What a single entry of a listing contributes: a file gives its item. */
  lemma FileChild(rootPath: string, dirPath: string, depth: int, child: Entry)
    requires child.FileEntry?
    ensures OwnFiles(dirPath, [child]) == [ToFileItem(ChildPath(dirPath, child.name), child)]
    ensures ChildFrames(rootPath, dirPath, depth, [child]) == []
  {
    assert [child][..0] == [];
  }

  /** A directory the skip rule lets through gives its frame. */
  lemma KeptDirChild(rootPath: string, dirPath: string, depth: int, child: Entry)
    requires child.IsDirectory() && !IsSkipped(rootPath, ChildPath(dirPath, child.name), child.name)
    ensures OwnFiles(dirPath, [child]) == []
    ensures ChildFrames(rootPath, dirPath, depth, [child]) == [Frame(child, ChildPath(dirPath, child.name), depth)]
  {
    assert [child][..0] == [];
  }

  /** A directory the skip rule excludes gives nothing. */
  lemma SkippedDirChild(rootPath: string, dirPath: string, depth: int, child: Entry)
    requires child.IsDirectory() && IsSkipped(rootPath, ChildPath(dirPath, child.name), child.name)
    ensures OwnFiles(dirPath, [child]) == []
    ensures ChildFrames(rootPath, dirPath, depth, [child]) == []
  {
    assert [child][..0] == [];
  }

  /** A record with more own files and more child paths: `files.add` and `childPaths.add`
      on the record kept in the map. */
  function Extended(info: DirInfo, files: seq<FileItem>, childPaths: seq<string>): DirInfo {
    info.(files := info.files + files, childPaths := info.childPaths + childPaths)
  }

  /** How visiting part of a listing changes the records: starting from `before`, the
      directory at `dirPath` has gained `files` and the paths of `kids`, each kid is newly
      recorded empty under its own path, and nothing else is touched. */
  ghost predicate RecordedBelow(before: map<string, DirInfo>, after: map<string, DirInfo>,
                                dirPath: string, files: seq<FileItem>, kids: seq<Frame>)
  {
    && (forall p :: p in after <==> p in before || p in FramePaths(kids))
    && dirPath in before
    && after[dirPath] == Extended(before[dirPath], files, FramePaths(kids))
    && (forall p :: p in before && p != dirPath ==> after[p] == before[p])
    && (forall j :: 0 <= j < |kids| ==> kids[j].path !in before && after[kids[j].path] == EmptyInfo(kids[j]))
    && (forall j1, j2 :: 0 <= j1 < j2 < |kids| ==> kids[j1].path != kids[j2].path)
  }

  lemma ExtendedTwice(info: DirInfo, f1: seq<FileItem>, c1: seq<string>, f2: seq<FileItem>, c2: seq<string>)
    ensures Extended(Extended(info, f1, c1), f2, c2) == Extended(info, f1 + f2, c1 + c2)
  {
    AppendAssociative(info.files, f1, f2);
    AppendAssociative(info.childPaths, c1, c2);
  }

  /** Visiting one more part of the listing composes. */
  lemma RecordedBelowTrans(e0: map<string, DirInfo>, e1: map<string, DirInfo>, e2: map<string, DirInfo>,
                           dirPath: string, files1: seq<FileItem>, kids1: seq<Frame>,
                           files2: seq<FileItem>, kids2: seq<Frame>)
    requires RecordedBelow(e0, e1, dirPath, files1, kids1)
    requires RecordedBelow(e1, e2, dirPath, files2, kids2)
    ensures RecordedBelow(e0, e2, dirPath, files1 + files2, kids1 + kids2)
  {
    FramePathsAppend(kids1, kids2);
    ExtendedTwice(e0[dirPath], files1, FramePaths(kids1), files2, FramePaths(kids2));
    var kids := kids1 + kids2;
    forall j | 0 <= j < |kids|
      ensures kids[j].path !in e0 && e2[kids[j].path] == EmptyInfo(kids[j])
    {
      if j < |kids1| {
        assert kids[j] == kids1[j];
        assert kids1[j].path in e1 && kids1[j].path != dirPath;
      } else {
        assert kids[j] == kids2[j - |kids1|];
      }
    }
    forall j1, j2 | 0 <= j1 < j2 < |kids|
      ensures kids[j1].path != kids[j2].path
    {
      if j2 >= |kids1| && j1 < |kids1| {
        assert kids[j1] == kids1[j1] && kids1[j1].path in FramePaths(kids1);
        assert kids[j2] == kids2[j2 - |kids1|];
      } else if j1 >= |kids1| {
        assert kids[j1] == kids2[j1 - |kids1|] && kids[j2] == kids2[j2 - |kids1|];
      }
    }
  }

  /** `dirMap[childPath] = DirInfo(child, depth = depth + 1)` followed by
      `dirMap[dirPath]?.childPaths?.add(childPath)`, for a parent that is recorded. */
  method RecordChildDir(dirMap: LinkedMap<DirInfo>, dirPath: string, fr: Frame)
    returns (dirMap': LinkedMap<DirInfo>)
    requires dirMap.Valid() && dirPath in dirMap.entries && fr.path !in dirMap.entries
    ensures dirMap'.Valid()
    ensures RecordedBelow(dirMap.entries, dirMap'.entries, dirPath, [], [fr])
  {
    dirMap' := dirMap.Put(fr.path, EmptyInfo(fr));
    var info := dirMap'.entries[dirPath];
    dirMap' := dirMap'.Put(dirPath, Extended(info, [], [fr.path]));
    assert FramePaths([fr]) == [fr.path];
  }

  /** `dirMap[dirPath]?.files?.add(item)`, for a parent that is recorded. */
  method RecordFile(dirMap: LinkedMap<DirInfo>, dirPath: string, item: FileItem)
    returns (dirMap': LinkedMap<DirInfo>)
    requires dirMap.Valid() && dirPath in dirMap.entries
    ensures dirMap'.Valid()
    ensures RecordedBelow(dirMap.entries, dirMap'.entries, dirPath, [item], [])
  {
    var info := dirMap.entries[dirPath];
    dirMap' := dirMap.Put(dirPath, Extended(info, [item], []));
    assert FramePaths([]) == [];
  }

  /** A child directory the skip rule excludes changes no record. */
  lemma RecordedNothing(entries: map<string, DirInfo>, dirPath: string)
    requires dirPath in entries
    ensures RecordedBelow(entries, entries, dirPath, [], [])
  {
    assert FramePaths([]) == [];
    assert Extended(entries[dirPath], [], []) == entries[dirPath];
  }

  /** `scanned++` and `if (scanned % 100 == 0) onProgress(scanned)`. */
  method CountFile(scanned: int, progress: seq<int>) returns (scanned': int, progress': seq<int>)
    requires scanned >= 0 && ReportsUpTo(progress, scanned)
    ensures scanned' == scanned + 1 && ReportsUpTo(progress', scanned')
    ensures scanned' % 100 == 0 ==> progress' == progress + [scanned']
    ensures scanned' % 100 != 0 ==> progress' == progress
  {
    ReportStep(progress, scanned);
    scanned' := scanned + 1;
    progress' := progress;
    if scanned' % 100 == 0 {
      progress' := progress' + [scanned'];
    }
  }

  /** One child in the walk of `scanWithTree`: a directory that the skip rule lets through
      is recorded empty under its path, added to the parent's child paths and pushed; a file
      is counted, reported, collected and added to the parent's files. */
  method RecordChild(rootPath: string, f: Frame, child: Entry,
                     results: seq<FileItem>, stack: seq<Frame>, scanned: int, progress: seq<int>,
                     dirMap: LinkedMap<DirInfo>)
    returns (results': seq<FileItem>, stack': seq<Frame>, scanned': int, progress': seq<int>,
             dirMap': LinkedMap<DirInfo>)
    requires scanned == |results| && ReportsUpTo(progress, scanned)
    requires dirMap.Valid() && f.path in dirMap.entries
    requires ChildPath(f.path, child.name) !in dirMap.entries
    ensures results' == results + OwnFiles(f.path, [child])
    ensures stack' == stack + ChildFrames(rootPath, f.path, f.depth + 1, [child])
    ensures scanned' == |results'| && ReportsUpTo(progress', scanned')
    ensures dirMap'.Valid()
    ensures RecordedBelow(dirMap.entries, dirMap'.entries, f.path,
                          OwnFiles(f.path, [child]), ChildFrames(rootPath, f.path, f.depth + 1, [child]))
  {
    if child.IsDirectory() {
      results', stack', scanned', progress', dirMap' := RecordDirChild(rootPath, f, child, results, stack, scanned, progress, dirMap);
    } else {
      FileChild(rootPath, f.path, f.depth + 1, child);
      stack' := stack;
      results', scanned', progress', dirMap' := RecordFileChild(f, child, results, scanned, progress, dirMap);
    }
  }

  /** A child directory: recorded and pushed unless the skip rule excludes it. */
  method RecordDirChild(rootPath: string, f: Frame, child: Entry,
                        results: seq<FileItem>, stack: seq<Frame>, scanned: int, progress: seq<int>,
                        dirMap: LinkedMap<DirInfo>)
    returns (results': seq<FileItem>, stack': seq<Frame>, scanned': int, progress': seq<int>,
             dirMap': LinkedMap<DirInfo>)
    requires scanned == |results| && ReportsUpTo(progress, scanned)
    requires dirMap.Valid() && f.path in dirMap.entries
    requires ChildPath(f.path, child.name) !in dirMap.entries
    requires child.IsDirectory()
    ensures results' == results + OwnFiles(f.path, [child])
    ensures stack' == stack + ChildFrames(rootPath, f.path, f.depth + 1, [child])
    ensures scanned' == |results'| && ReportsUpTo(progress', scanned')
    ensures dirMap'.Valid()
    ensures RecordedBelow(dirMap.entries, dirMap'.entries, f.path,
                          OwnFiles(f.path, [child]), ChildFrames(rootPath, f.path, f.depth + 1, [child]))
  {
    results', stack', scanned', progress', dirMap' := results, stack, scanned, progress, dirMap;
    var dirPath := f.path;
    var childPath := ChildPath(dirPath, child.name);
    if !IsSkipped(rootPath, childPath, child.name) {
      var fr := Frame(child, childPath, f.depth + 1);
      KeptDirChild(rootPath, f.path, f.depth + 1, child);
      dirMap' := RecordChildDir(dirMap', dirPath, fr);
      stack' := stack' + [fr];
    } else {
      SkippedDirChild(rootPath, f.path, f.depth + 1, child);
      RecordedNothing(dirMap.entries, dirPath);
    }
  }

  /** A child file: counted, reported, collected and added to the parent's files. */
  method RecordFileChild(f: Frame, child: Entry,
                         results: seq<FileItem>, scanned: int, progress: seq<int>, dirMap: LinkedMap<DirInfo>)
    returns (results': seq<FileItem>, scanned': int, progress': seq<int>, dirMap': LinkedMap<DirInfo>)
    requires child.FileEntry? && scanned == |results| && ReportsUpTo(progress, scanned)
    requires dirMap.Valid() && f.path in dirMap.entries
    ensures results' == results + [ToFileItem(ChildPath(f.path, child.name), child)]
    ensures scanned' == |results'| && ReportsUpTo(progress', scanned')
    ensures dirMap'.Valid()
    ensures RecordedBelow(dirMap.entries, dirMap'.entries, f.path, [ToFileItem(ChildPath(f.path, child.name), child)], [])
  {
    var item := ToFileItem(ChildPath(f.path, child.name), child);
    scanned', progress' := CountFile(scanned, progress);
    results' := results + [item];
    dirMap' := RecordFile(dirMap, f.path, item);
  }

  /** Sibling names are distinct, so a child's path is not among those pushed before it. */
  lemma FreshSibling(rootPath: string, dirPath: string, depth: int, ls: seq<Entry>, i: nat)
    requires i < |ls|
    requires forall a, b :: 0 <= a < b < |ls| ==> ls[a].name != ls[b].name
    ensures ChildPath(dirPath, ls[i].name) !in FramePaths(ChildFrames(rootPath, dirPath, depth, ls[..i]))
  {
    var kf := ChildFrames(rootPath, dirPath, depth, ls[..i]);
    ChildFramesAreTheKeptDirs(rootPath, dirPath, depth, ls[..i]);
    forall j | 0 <= j < |kf|
      ensures kf[j].path != ChildPath(dirPath, ls[i].name)
    {
      var m :| 0 <= m < i && ls[..i][m] == kf[j].entry;
      ChildPathsDiffer(dirPath, ls[m].name, ls[i].name);
    }
  }

  /** The loop of `scanWithTree` over one directory's listing, child by child. */
  method RecordChildren(rootPath: string, f: Frame, children: seq<Entry>,
                        results: seq<FileItem>, stack: seq<Frame>, scanned: int, progress: seq<int>,
                        dirMap: LinkedMap<DirInfo>)
    returns (results': seq<FileItem>, stack': seq<Frame>, scanned': int, progress': seq<int>,
             dirMap': LinkedMap<DirInfo>)
    requires scanned == |results| && ReportsUpTo(progress, scanned)
    requires dirMap.Valid() && f.path in dirMap.entries
    requires forall p :: p in dirMap.entries ==> !(f.path + "/" <= p)
    requires forall a, b :: 0 <= a < b < |children| ==> children[a].name != children[b].name
    ensures results' == results + OwnFiles(f.path, children)
    ensures stack' == stack + ChildFrames(rootPath, f.path, f.depth + 1, children)
    ensures scanned' == |results'| && ReportsUpTo(progress', scanned')
    ensures dirMap'.Valid()
    ensures RecordedBelow(dirMap.entries, dirMap'.entries, f.path,
                          OwnFiles(f.path, children), ChildFrames(rootPath, f.path, f.depth + 1, children))
  {
    results', stack', scanned', progress', dirMap' := results, stack, scanned, progress, dirMap;
    var i := 0;
    ghost var visited: seq<Entry> := [];
    RecordedNothing(dirMap.entries, f.path);
    while i < |children|
      invariant 0 <= i <= |children| && visited == children[..i]
      invariant results' == results + OwnFiles(f.path, visited)
      invariant stack' == stack + ChildFrames(rootPath, f.path, f.depth + 1, visited)
      invariant scanned' == |results'| && ReportsUpTo(progress', scanned')
      invariant dirMap'.Valid()
      invariant RecordedBelow(dirMap.entries, dirMap'.entries, f.path,
                              OwnFiles(f.path, visited), ChildFrames(rootPath, f.path, f.depth + 1, visited))
    {
      PrefixStep(children, i);
      results', stack', scanned', progress', dirMap' :=
        RecordNext(rootPath, f, children, i, results, stack, dirMap.entries,
                   results', stack', scanned', progress', dirMap');
      visited := visited + [children[i]];
      i := i + 1;
    }
    assert children[..|children|] == children;
  }

  /** One pass of the loop over a listing: records child `i` after children `0..i-1`. */
  method RecordNext(rootPath: string, f: Frame, children: seq<Entry>, i: nat,
                    ghost results0: seq<FileItem>, ghost stack0: seq<Frame>,
                    ghost entries0: map<string, DirInfo>,
                    results: seq<FileItem>, stack: seq<Frame>, scanned: int, progress: seq<int>,
                    dirMap: LinkedMap<DirInfo>)
    returns (results': seq<FileItem>, stack': seq<Frame>, scanned': int, progress': seq<int>,
             dirMap': LinkedMap<DirInfo>)
    requires i < |children|
    requires forall p :: p in entries0 ==> !(f.path + "/" <= p)
    requires forall a, b :: 0 <= a < b < |children| ==> children[a].name != children[b].name
    requires results == results0 + OwnFiles(f.path, children[..i])
    requires stack == stack0 + ChildFrames(rootPath, f.path, f.depth + 1, children[..i])
    requires scanned == |results| && ReportsUpTo(progress, scanned)
    requires dirMap.Valid()
    requires RecordedBelow(entries0, dirMap.entries, f.path,
                           OwnFiles(f.path, children[..i]), ChildFrames(rootPath, f.path, f.depth + 1, children[..i]))
    ensures results' == results0 + OwnFiles(f.path, children[..i + 1])
    ensures stack' == stack0 + ChildFrames(rootPath, f.path, f.depth + 1, children[..i + 1])
    ensures scanned' == |results'| && ReportsUpTo(progress', scanned')
    ensures dirMap'.Valid()
    ensures RecordedBelow(entries0, dirMap'.entries, f.path,
                          OwnFiles(f.path, children[..i + 1]), ChildFrames(rootPath, f.path, f.depth + 1, children[..i + 1]))
  {
    var child := children[i];
    ghost var visited := children[..i];
    FreshSibling(rootPath, f.path, f.depth + 1, children, i);
    assert f.path + "/" <= ChildPath(f.path, child.name);
    OwnFilesAppend(f.path, visited, [child]);
    ChildFramesAppend(rootPath, f.path, f.depth + 1, visited, [child]);
    AppendAssociative(results0, OwnFiles(f.path, visited), OwnFiles(f.path, [child]));
    AppendAssociative(stack0, ChildFrames(rootPath, f.path, f.depth + 1, visited),
                      ChildFrames(rootPath, f.path, f.depth + 1, [child]));
    PrefixStep(children, i);
    results', stack', scanned', progress', dirMap' :=
      RecordChild(rootPath, f, child, results, stack, scanned, progress, dirMap);
    RecordedBelowTrans(entries0, dirMap.entries, dirMap'.entries, f.path,
                       OwnFiles(f.path, visited), ChildFrames(rootPath, f.path, f.depth + 1, visited),
                       OwnFiles(f.path, [child]), ChildFrames(rootPath, f.path, f.depth + 1, [child]));
  }

  /** One popped directory in the walk of `scanWithTree`: `listFiles()` returning null
      leaves its record empty, otherwise its listing is visited. */
  method RecordDirectory(rootPath: string, f: Frame,
                         results: seq<FileItem>, stack: seq<Frame>, scanned: int, progress: seq<int>,
                         dirMap: LinkedMap<DirInfo>)
    returns (results': seq<FileItem>, stack': seq<Frame>, scanned': int, progress': seq<int>,
             dirMap': LinkedMap<DirInfo>)
    requires scanned == |results| && ReportsUpTo(progress, scanned)
    requires dirMap.Valid() && f.path in dirMap.entries
    requires forall p :: p in dirMap.entries ==> !(f.path + "/" <= p)
    requires WellFormed(f.entry)
    ensures results' == results + Tree(rootPath, f).files
    ensures stack' == stack + Kids(rootPath, f)
    ensures scanned' == |results'| && ReportsUpTo(progress', scanned')
    ensures dirMap'.Valid()
    ensures RecordedBelow(dirMap.entries, dirMap'.entries, f.path, Tree(rootPath, f).files, Kids(rootPath, f))
  {
    match Listing(f.entry)
    case None =>
      UnlistedFrame(rootPath, f);
      RecordedNothing(dirMap.entries, f.path);
      assert stack + [] == stack && results + [] == results;
      results', stack', scanned', progress', dirMap' := results, stack, scanned, progress, dirMap;
    case Some(children) =>
      ListedFrame(rootPath, f, children);
      results', stack', scanned', progress', dirMap' :=
        RecordChildren(rootPath, f, children, results, stack, scanned, progress, dirMap);
  }

  lemma PrefixTransitive(a: string, b: string, c: string)
    requires a <= b && b <= c
    ensures a <= c
  {
    assert b[..|a|] == c[..|a|];
  }

  /** The directory on top of the stack is recorded empty, is well formed, and nothing under
      it is recorded yet. */
  lemma TopOfStack(rootPath: string, root: Entry, entries: map<string, DirInfo>, done: set<string>,
                   rest: seq<Frame>, f: Frame)
    requires AllWellFormed(entries) && PendingEmpty(entries, done, rest + [f]) && NothingBelow(entries, rest + [f])
    ensures f.path in entries && f.path !in done && entries[f.path] == EmptyInfo(f)
    ensures WellFormed(f.entry)
    ensures forall p :: p in entries ==> !(f.path + "/" <= p)
  {
    assert (rest + [f])[|rest|] == f;
  }

  /** The child frames of a well-formed directory: each sits at its own name below the
      directory, one level deeper, its name has no separator and its entry is well formed. */
  lemma KidsFacts(rootPath: string, f: Frame)
    requires WellFormed(f.entry)
    ensures forall j :: 0 <= j < |Kids(rootPath, f)| ==>
              var k := Kids(rootPath, f)[j];
              && k.path == ChildPath(f.path, k.entry.name) && k.depth == f.depth + 1
              && '/' !in k.entry.name && WellFormed(k.entry)
  {
    if f.entry.DirEntry? {
      ChildFramesAreTheKeptDirs(rootPath, f.path, f.depth + 1, f.entry.listing);
    }
  }

  /** Recording a directory changes no record's entry or depth. */
  lemma RecordKeepsFrames(entries: map<string, DirInfo>, entries': map<string, DirInfo>, dirPath: string,
                          files: seq<FileItem>, kids: seq<Frame>)
    requires RecordedBelow(entries, entries', dirPath, files, kids)
    ensures forall p :: p in entries ==> p in entries' && FrameOf(p, entries'[p]) == FrameOf(p, entries[p])
  {
  }

  /** After the popped directory is recorded: the root is kept, every record is well formed
      and every record is finished or pending. */
  lemma RecordStepKeys(rootPath: string, root: Entry, entries: map<string, DirInfo>,
                          entries': map<string, DirInfo>, done: set<string>, rest: seq<Frame>, f: Frame,
                          files: seq<FileItem>, kids: seq<Frame>)
    requires RootRecorded(rootPath, root, entries) && AllWellFormed(entries) && Covered(entries, done, rest + [f])
    requires RecordedBelow(entries, entries', f.path, files, kids)
    requires f.path in entries && f.path !in done && entries[f.path] == EmptyInfo(f)
    requires forall p :: p in entries ==> !(f.path + "/" <= p)
    requires forall j :: 0 <= j < |kids| ==>
               var k := kids[j];
               && k.path == ChildPath(f.path, k.entry.name) && k.depth == f.depth + 1
               && '/' !in k.entry.name && WellFormed(k.entry)
    ensures RootRecorded(rootPath, root, entries') && AllWellFormed(entries')
    ensures Covered(entries', done + {f.path}, rest + kids)
  {
    RecordKeepsFrames(entries, entries', f.path, files, kids);
    FramePathsAppend(rest, [f]);
    FramePathsAppend(rest, kids);
    assert FramePaths([f]) == [f.path];
    forall p | p in entries'
      ensures WellFormed(entries'[p].file)
      ensures p in done + {f.path} || p in FramePaths(rest + kids)
    {
      if p in entries {
        assert FrameOf(p, entries'[p]) == FrameOf(p, entries[p]);
      } else {
        var j :| 0 <= j < |kids| && FramePaths(kids)[j] == p;
      }
    }
  }

  /** After the popped directory is recorded: the pending directories are recorded empty
      under distinct paths. */
  lemma RecordStepPending(rootPath: string, root: Entry, entries: map<string, DirInfo>,
                          entries': map<string, DirInfo>, done: set<string>, rest: seq<Frame>, f: Frame,
                          files: seq<FileItem>, kids: seq<Frame>)
    requires PendingEmpty(entries, done, rest + [f]) && DistinctPaths(rest + [f])
    requires forall p :: p in done ==> p in entries
    requires RecordedBelow(entries, entries', f.path, files, kids)
    requires f.path in entries && f.path !in done && entries[f.path] == EmptyInfo(f)
    requires forall p :: p in entries ==> !(f.path + "/" <= p)
    requires forall j :: 0 <= j < |kids| ==>
               var k := kids[j];
               && k.path == ChildPath(f.path, k.entry.name) && k.depth == f.depth + 1
               && '/' !in k.entry.name && WellFormed(k.entry)
    ensures PendingEmpty(entries', done + {f.path}, rest + kids) && DistinctPaths(rest + kids)
  {
    var st := rest + [f];
    var st' := rest + kids;
    assert st[|rest|] == f;
    forall i | 0 <= i < |st'|
      ensures st'[i].path in entries' && st'[i].path !in done + {f.path} && entries'[st'[i].path] == EmptyInfo(st'[i])
    {
      if i < |rest| {
        assert st'[i] == st[i];
      } else {
        assert st'[i] == kids[i - |rest|];
        assert kids[i - |rest|].path in FramePaths(kids);
      }
    }
    forall i, j | 0 <= i < j < |st'|
      ensures st'[i].path != st'[j].path
    {
      if j < |rest| {
        assert st'[i] == st[i] && st'[j] == st[j];
      } else if i < |rest| {
        assert st'[i] == st[i] && st'[j] == kids[j - |rest|];
      } else {
        assert st'[i] == kids[i - |rest|] && st'[j] == kids[j - |rest|];
      }
    }
  }

  /** After the popped directory is recorded: nothing under a pending directory is recorded. */
  lemma RecordStepBelow(entries: map<string, DirInfo>, entries': map<string, DirInfo>,
                        rest: seq<Frame>, f: Frame, files: seq<FileItem>, kids: seq<Frame>)
    requires NothingBelow(entries, rest + [f]) && DistinctPaths(rest + [f])
    requires RecordedBelow(entries, entries', f.path, files, kids)
    requires forall j :: 0 <= j < |kids| ==>
               var k := kids[j];
               && k.path == ChildPath(f.path, k.entry.name) && k.depth == f.depth + 1
               && '/' !in k.entry.name && WellFormed(k.entry)
    ensures NothingBelow(entries', rest + kids)
  {
    var st := rest + [f];
    var st' := rest + kids;
    assert st[|rest|] == f;
    forall i, p | 0 <= i < |st'| && p in entries'
      ensures !(st'[i].path + "/" <= p)
    {
      if i < |rest| {
        assert st'[i] == st[i];
        if p !in entries {
          var j :| 0 <= j < |kids| && FramePaths(kids)[j] == p;
          NotBelowChild(st[i].path, f.path, kids[j].entry.name);
        }
      } else {
        var k := kids[i - |rest|];
        assert st'[i] == k;
        if p in entries {
          NotBelowExtension(f.path + "/", k.path + "/", p);
        } else {
          var j :| 0 <= j < |kids| && FramePaths(kids)[j] == p;
          NotBelowChild(k.path, f.path, kids[j].entry.name);
        }
      }
    }
  }

  /** A finished record stays finished when no record changes its entry or depth. */
  lemma FinishedKept(rootPath: string, entries: map<string, DirInfo>, entries': map<string, DirInfo>, p: string)
    requires p in entries && Finished(rootPath, entries, p)
    requires p in entries' && entries'[p] == entries[p]
    requires forall q :: q in entries ==> q in entries' && FrameOf(q, entries'[q]) == FrameOf(q, entries[q])
    ensures Finished(rootPath, entries', p)
  {
  }

  /** The popped directory's record is finished once its listing is visited. */
  lemma FinishedNow(rootPath: string, entries': map<string, DirInfo>, f: Frame)
    requires f.path in entries' && entries'[f.path] == FullInfo(rootPath, f)
    requires forall j :: 0 <= j < |Kids(rootPath, f)| ==>
               Kids(rootPath, f)[j].path in entries' && entries'[Kids(rootPath, f)[j].path] == EmptyInfo(Kids(rootPath, f)[j])
    ensures Finished(rootPath, entries', f.path)
  {
    assert FrameOf(f.path, entries'[f.path]) == f;
  }

  /** After the popped directory is recorded: every popped directory is finished. */
  lemma RecordStepDone(rootPath: string, entries: map<string, DirInfo>, entries': map<string, DirInfo>,
                       done: set<string>, f: Frame)
    requires DoneFinished(rootPath, entries, done)
    requires RecordedBelow(entries, entries', f.path, Tree(rootPath, f).files, Kids(rootPath, f))
    requires f.path in entries && f.path !in done && entries[f.path] == EmptyInfo(f)
    ensures DoneFinished(rootPath, entries', done + {f.path})
  {
    var kids := Kids(rootPath, f);
    RecordKeepsFrames(entries, entries', f.path, Tree(rootPath, f).files, kids);
    assert entries'[f.path] == FullInfo(rootPath, f);
    forall j | 0 <= j < |kids|
      ensures kids[j].path in entries' && entries'[kids[j].path] == EmptyInfo(kids[j])
    {
      assert FramePaths(kids)[j] == kids[j].path;
    }
    FinishedNow(rootPath, entries', f);
    forall p | p in done
      ensures p in entries' && Finished(rootPath, entries', p)
    {
      FinishedKept(rootPath, entries, entries', p);
    }
  }

  /** Popping the top directory and recording its listing keeps the records in step with
      the walk. */
  lemma RecordStep(rootPath: string, root: Entry, entries: map<string, DirInfo>,
                   entries': map<string, DirInfo>, done: set<string>, rest: seq<Frame>, f: Frame)
    requires Recording(rootPath, root, entries, done, rest + [f])
    requires RecordedBelow(entries, entries', f.path, Tree(rootPath, f).files, Kids(rootPath, f))
    ensures Recording(rootPath, root, entries', done + {f.path}, rest + Kids(rootPath, f))
  {
    var files := Tree(rootPath, f).files;
    var kids := Kids(rootPath, f);
    TopOfStack(rootPath, root, entries, done, rest, f);
    KidsFacts(rootPath, f);
    RecordStepKeys(rootPath, root, entries, entries', done, rest, f, files, kids);
    RecordStepPending(rootPath, root, entries, entries', done, rest, f, files, kids);
    RecordStepBelow(entries, entries', rest, f, files, kids);
    RecordStepDone(rootPath, entries, entries', done, f);
  }

  /** One iteration of the walk of `scanWithTree`: pop the top directory and visit it. The
      popped directory's subtree gives its own files now and leaves the rest pending, and
      the records stay in step with the stack. */
  method PopAndRecord(rootPath: string, root: Entry,
                      results: seq<FileItem>, stack: seq<Frame>, scanned: int, progress: seq<int>,
                      dirMap: LinkedMap<DirInfo>, ghost done: set<string>)
    returns (results': seq<FileItem>, stack': seq<Frame>, scanned': int, progress': seq<int>,
             dirMap': LinkedMap<DirInfo>, ghost done': set<string>)
    requires stack != []
    requires scanned == |results| && ReportsUpTo(progress, scanned)
    requires dirMap.Valid() && Recording(rootPath, root, dirMap.entries, done, stack)
    ensures results' + PendingFiles(rootPath, stack') == results + PendingFiles(rootPath, stack)
    ensures 1 + PendingDirs(rootPath, stack') == PendingDirs(rootPath, stack)
    ensures scanned' == |results'| && ReportsUpTo(progress', scanned')
    ensures dirMap'.Valid() && Recording(rootPath, root, dirMap'.entries, done', stack')
  {
    var f := stack[|stack| - 1];
    var rest := stack[..|stack| - 1];
    SplitLast(stack);
    ExpandFrame(rootPath, rest, f);
    TopOfStack(rootPath, root, dirMap.entries, done, rest, f);
    results', stack', scanned', progress', dirMap' :=
      RecordDirectory(rootPath, f, results, rest, scanned, progress, dirMap);
    AppendAssociative(results, Tree(rootPath, f).files, PendingFiles(rootPath, stack'));
    RecordStep(rootPath, root, dirMap.entries, dirMap'.entries, done, rest, f);
    done' := done + {f.path};
  }

  /** The walk of `scanWithTree`: the walk of `scanAll` that also records every directory it
      pushes. When the stack is empty every record is finished. */
  method WalkWithTree(rootPath: string, root: Entry, cancelAfter: Option<nat>)
    returns (outcome: WalkOutcome<seq<FileItem>>, progress: seq<int>, dirMap: LinkedMap<DirInfo>)
    requires WellFormed(root)
    ensures outcome.Cancelled? <==>
              cancelAfter.Some? && cancelAfter.value < NodeCount(Tree(rootPath, RootFrame(rootPath, root)))
    ensures outcome.Completed? ==> outcome.value == WalkOrder(Tree(rootPath, RootFrame(rootPath, root)))
    ensures outcome.Completed? ==> ReportsUpTo(progress, |outcome.value|)
    ensures outcome.Cancelled? ==>
              exists scanned :: 0 <= scanned <= |WalkOrder(Tree(rootPath, RootFrame(rootPath, root)))|
                                && ReportsUpTo(progress, scanned)
    ensures outcome.Completed? ==>
              && dirMap.Valid() && RootRecorded(rootPath, root, dirMap.entries)
              && forall p :: p in dirMap.entries ==> Finished(rootPath, dirMap.entries, p)
  {
    ghost var tree := Tree(rootPath, RootFrame(rootPath, root));
    var results: seq<FileItem> := [];
    dirMap := LinkedMap([], map[]).Put(rootPath, EmptyInfo(RootFrame(rootPath, root)));
    var stack: seq<Frame> := [RootFrame(rootPath, root)];
    progress := [];
    assert PendingFiles(rootPath, stack) == WalkOrder(tree) + [];
    assert FramePaths(stack) == [rootPath];
    outcome, progress, dirMap := WalkFrom(rootPath, root, cancelAfter, results, stack, 0, progress, dirMap, {});
  }

  /** The loop of `scanWithTree`, from a state reached after `popped` pops. */
  method WalkFrom(rootPath: string, root: Entry, cancelAfter: Option<nat>,
                  results: seq<FileItem>, stack: seq<Frame>, popped: nat, progress: seq<int>,
                  dirMap: LinkedMap<DirInfo>, ghost done: set<string>)
    returns (outcome: WalkOutcome<seq<FileItem>>, progress': seq<int>, dirMap': LinkedMap<DirInfo>)
    requires WellFormed(root)
    requires results + PendingFiles(rootPath, stack) == WalkOrder(Tree(rootPath, RootFrame(rootPath, root)))
    requires popped + PendingDirs(rootPath, stack) == NodeCount(Tree(rootPath, RootFrame(rootPath, root)))
    requires ReportsUpTo(progress, |results|)
    requires cancelAfter.Some? ==> popped <= cancelAfter.value
    requires dirMap.Valid() && Recording(rootPath, root, dirMap.entries, done, stack)
    ensures outcome.Cancelled? <==>
              cancelAfter.Some? && cancelAfter.value < NodeCount(Tree(rootPath, RootFrame(rootPath, root)))
    ensures outcome.Completed? ==> outcome.value == WalkOrder(Tree(rootPath, RootFrame(rootPath, root)))
    ensures outcome.Completed? ==> ReportsUpTo(progress', |outcome.value|)
    ensures outcome.Cancelled? ==>
              exists scanned :: 0 <= scanned <= |WalkOrder(Tree(rootPath, RootFrame(rootPath, root)))|
                                && ReportsUpTo(progress', scanned)
    ensures outcome.Completed? ==>
              && dirMap'.Valid() && RootRecorded(rootPath, root, dirMap'.entries)
              && forall p :: p in dirMap'.entries ==> Finished(rootPath, dirMap'.entries, p)
  {
    ghost var tree := Tree(rootPath, RootFrame(rootPath, root));
    var results, stack, scanned, popped, done := results, stack, |results|, popped, done;
    progress', dirMap' := progress, dirMap;
    while stack != []
      invariant results + PendingFiles(rootPath, stack) == WalkOrder(tree)
      invariant popped + PendingDirs(rootPath, stack) == NodeCount(tree)
      invariant scanned == |results| && ReportsUpTo(progress', scanned)
      invariant cancelAfter.Some? ==> popped <= cancelAfter.value
      invariant dirMap'.Valid() && Recording(rootPath, root, dirMap'.entries, done, stack)
      decreases PendingDirs(rootPath, stack)
    {
      if cancelAfter.Some? && popped == cancelAfter.value {
        assert |results| <= |WalkOrder(tree)|;
        outcome := Cancelled;
        return;
      }
      results, stack, scanned, progress', dirMap', done :=
        PopAndRecord(rootPath, root, results, stack, scanned, progress', dirMap', done);
      popped := popped + 1;
    }
    outcome := Completed(results);
  }

  // ---------------------------------------------------------------------------
  // scanWithTree: building the tree bottom-up from the records

  /** The sort key of the build: a record's depth. */
  function DepthKey(e: (string, DirInfo)): int {
    e.1.depth
  }

  /** The sorted records are exactly the entries of the map. */
  lemma SortedRecords(dirMap: LinkedMap<DirInfo>, sorted: seq<(string, DirInfo)>)
    requires dirMap.Valid()
    requires multiset(sorted) == multiset(EntriesOf(dirMap))
    ensures forall j :: 0 <= j < |sorted| ==> sorted[j].0 in dirMap.entries && sorted[j].1 == dirMap.entries[sorted[j].0]
    ensures forall p :: p in dirMap.entries ==> (p, dirMap.entries[p]) in sorted
  {
    var es := EntriesOf(dirMap);
    forall j | 0 <= j < |sorted|
      ensures sorted[j].0 in dirMap.entries && sorted[j].1 == dirMap.entries[sorted[j].0]
    {
      assert sorted[j] in multiset(es);
      var k :| 0 <= k < |es| && es[k] == sorted[j];
    }
    forall p | p in dirMap.entries
      ensures (p, dirMap.entries[p]) in sorted
    {
      var k :| 0 <= k < |dirMap.order| && dirMap.order[k] == p;
      assert es[k] in multiset(sorted);
    }
  }

  /** The node the build makes for the record of `path`: its own files, the nodes already
      built for its child paths in order, and the sums of both. */
  function NodeOf(path: string, info: DirInfo, nodeMap: map<string, DirectoryNode>): DirectoryNode {
    var childNodes := MapNotNull(info.childPaths, nodeMap);
    DirectoryNode(path, info.file.name, info.files, childNodes,
      SumSizes(info.files) + SumTotalSizes(childNodes), |info.files| + SumFileCounts(childNodes), info.depth)
  }

  /** The target of `path` is the node the build makes from the targets of its children. */
  ghost predicate BuildsAt(entries: map<string, DirInfo>, target: map<string, DirectoryNode>, p: string)
    requires p in entries
  {
    p in target && target[p] == NodeOf(p, entries[p], target)
  }

  /** `target` gives a node for every record, each the node the build makes from the targets
      of its children, and every child record lies one level below its parent. */
  ghost predicate Buildable(entries: map<string, DirInfo>, target: map<string, DirectoryNode>) {
    && entries.Keys <= target.Keys
    && (forall p {:trigger BuildsAt(entries, target, p)} :: p in entries ==> BuildsAt(entries, target, p))
    && (forall p, c :: p in entries && c in entries[p].childPaths ==>
          c in entries && entries[c].depth == entries[p].depth + 1)
  }

  /** Sorting by descending depth puts every child record before its parent: when the
      parent's turn comes the child's node is built. */
  lemma ChildrenBuilt(entries: map<string, DirInfo>, target: map<string, DirectoryNode>,
                      sorted: seq<(string, DirInfo)>, i: nat, built: set<string>)
    requires Buildable(entries, target)
    requires i < |sorted|
    requires Descending(sorted, DepthKey)
    requires forall p :: p in entries ==> (p, entries[p]) in sorted
    requires forall j :: 0 <= j < i ==> sorted[j].0 in built
    requires sorted[i].0 in entries && sorted[i].1 == entries[sorted[i].0]
    ensures forall c :: c in sorted[i].1.childPaths ==> c in built
  {
    forall c | c in sorted[i].1.childPaths
      ensures c in built
    {
      var m :| 0 <= m < |sorted| && sorted[m] == (c, entries[c]);
      assert DepthKey(sorted[m]) == DepthKey(sorted[i]) + 1;
    }
  }

  /** Once the children of a record are built, the build makes the record's target. */
  lemma BuildsTarget(entries: map<string, DirInfo>, target: map<string, DirectoryNode>,
                     nodeMap: map<string, DirectoryNode>, path: string)
    requires Buildable(entries, target) && path in entries
    requires forall q :: q in nodeMap ==> q in target && nodeMap[q] == target[q]
    requires forall c :: c in entries[path].childPaths ==> c in nodeMap
    ensures NodeOf(path, entries[path], nodeMap) == target[path]
  {
    assert BuildsAt(entries, target, path);
    MapNotNullAgree(entries[path].childPaths, nodeMap, target);
  }

  /** The bottom-up build: each record in descending depth order becomes a node whose
      children are the already built nodes of its child paths. Every record's node is its
      target. */
  method BuildNodes(dirMap: LinkedMap<DirInfo>, ghost target: map<string, DirectoryNode>)
    returns (nodeMap: map<string, DirectoryNode>)
    requires dirMap.Valid() && Buildable(dirMap.entries, target)
    ensures forall p :: p in dirMap.entries ==> p in nodeMap && nodeMap[p] == target[p]
  {
    var sorted := SortedByDescending(EntriesOf(dirMap), DepthKey);
    SortIsDescending(EntriesOf(dirMap), DepthKey);
    SortIsPermutation(EntriesOf(dirMap), DepthKey);
    SortedRecords(dirMap, sorted);
    nodeMap := BuildInOrder(dirMap.entries, target, sorted);
  }

  /** The build loop over records sorted by descending depth. */
  method BuildInOrder(ghost entries: map<string, DirInfo>, ghost target: map<string, DirectoryNode>,
                      sorted: seq<(string, DirInfo)>)
    returns (nodeMap: map<string, DirectoryNode>)
    requires Buildable(entries, target) && Descending(sorted, DepthKey)
    requires forall p :: p in entries ==> (p, entries[p]) in sorted
    requires forall j :: 0 <= j < |sorted| ==> sorted[j].0 in entries && sorted[j].1 == entries[sorted[j].0]
    ensures forall q :: q in nodeMap ==> q in target && nodeMap[q] == target[q]
    ensures forall j :: 0 <= j < |sorted| ==> sorted[j].0 in nodeMap
  {
    nodeMap := map[];
    var i := 0;
    while i < |sorted|
      invariant 0 <= i <= |sorted|
      invariant forall q :: q in nodeMap ==> q in target && nodeMap[q] == target[q]
      invariant forall j :: 0 <= j < i ==> sorted[j].0 in nodeMap
    {
      var (path, info) := sorted[i];
      ChildrenBuilt(entries, target, sorted, i, nodeMap.Keys);
      BuildsTarget(entries, target, nodeMap, path);
      nodeMap := nodeMap[path := NodeOf(path, info, nodeMap)];
      i := i + 1;
    }
  }

  /** The trees of the records' frames. */
  ghost function TreeTargets(rootPath: string, entries: map<string, DirInfo>): map<string, DirectoryNode> {
    map p | p in entries :: Tree(rootPath, FrameOf(p, entries[p]))
  }

  /** A finished record whose children's trees are at hand yields the tree of its frame. */
  lemma NodeFromRecord(rootPath: string, entries: map<string, DirInfo>, nodeMap: map<string, DirectoryNode>, path: string)
    requires path in entries && Finished(rootPath, entries, path)
    requires forall q :: q in nodeMap ==> q in entries && nodeMap[q] == Tree(rootPath, FrameOf(q, entries[q]))
    requires forall c :: c in entries[path].childPaths ==> c in nodeMap
    ensures NodeOf(path, entries[path], nodeMap) == Tree(rootPath, FrameOf(path, entries[path]))
  {
    var info := entries[path];
    var fr := FrameOf(path, info);
    var kids := Kids(rootPath, fr);
    forall j | 0 <= j < |kids|
      ensures kids[j].path in nodeMap
    {
      assert info.childPaths[j] == kids[j].path;
    }
    ChildNodesAreTrees(rootPath, entries, nodeMap, kids);
    TreeChildren(rootPath, fr);
    TreeIsConsistent(rootPath, fr);
  }

  /** The built nodes of recorded child frames are the trees of those frames. */
  lemma ChildNodesAreTrees(rootPath: string, entries: map<string, DirInfo>, nodeMap: map<string, DirectoryNode>,
                           kids: seq<Frame>)
    requires forall q :: q in nodeMap ==> q in entries && nodeMap[q] == Tree(rootPath, FrameOf(q, entries[q]))
    requires forall j :: 0 <= j < |kids| ==> kids[j].path in nodeMap
    requires forall j :: 0 <= j < |kids| ==> FrameOf(kids[j].path, entries[kids[j].path]) == kids[j]
    ensures MapNotNull(FramePaths(kids), nodeMap) == Trees(rootPath, kids)
  {
    var paths := FramePaths(kids);
    assert forall k :: k in paths ==> k in nodeMap;
  }

  /** Every pushed child frame lies one level deeper than its parent. */
  lemma KidsDepth(rootPath: string, f: Frame, j: nat)
    requires j < |Kids(rootPath, f)|
    ensures Kids(rootPath, f)[j].depth == f.depth + 1
  {
    if f.entry.DirEntry? {
      ChildFramesAreTheKeptDirs(rootPath, f.path, f.depth + 1, f.entry.listing);
    }
  }

  /** Finished records can be built, and the node built for each is the tree of its frame. */
  lemma FinishedIsBuildable(rootPath: string, entries: map<string, DirInfo>)
    requires forall p :: p in entries ==> Finished(rootPath, entries, p)
    ensures Buildable(entries, TreeTargets(rootPath, entries))
  {
    var target := TreeTargets(rootPath, entries);
    forall p | p in entries
      ensures BuildsAt(entries, target, p)
    {
      NodeFromRecord(rootPath, entries, target, p);
    }
    forall p, c | p in entries && c in entries[p].childPaths
      ensures c in entries && entries[c].depth == entries[p].depth + 1
    {
      var fr := FrameOf(p, entries[p]);
      var j :| 0 <= j < |Kids(rootPath, fr)| && FramePaths(Kids(rootPath, fr))[j] == c;
      KidsDepth(rootPath, fr, j);
    }
  }

  /** `scanWithTree`'s tree: the build over the finished records gives the walk's tree at the
      root; the fallback node for a missing root record is never taken. */
  method BuildTree(rootPath: string, root: Entry, dirMap: LinkedMap<DirInfo>) returns (rootNode: DirectoryNode)
    requires dirMap.Valid() && RootRecorded(rootPath, root, dirMap.entries)
    requires forall p :: p in dirMap.entries ==> Finished(rootPath, dirMap.entries, p)
    ensures rootNode == Tree(rootPath, RootFrame(rootPath, root))
  {
    FinishedIsBuildable(rootPath, dirMap.entries);
    var nodeMap := BuildNodes(dirMap, TreeTargets(rootPath, dirMap.entries));
    rootNode := if rootPath in nodeMap then nodeMap[rootPath]
                else DirectoryNode(rootPath, root.name, [], [], 0, 0, 0);
  }

  /** `scanWithTree`: the walk of `scanAll` with the same files and progress reports, and
      the walk's tree built from the records. */
  method ScanWithTree(rootPath: string, root: Entry, cancelAfter: Option<nat>)
    returns (outcome: WalkOutcome<(seq<FileItem>, DirectoryNode)>, progress: seq<int>)
    requires WellFormed(root)
    ensures outcome.Cancelled? <==>
              cancelAfter.Some? && cancelAfter.value < NodeCount(Tree(rootPath, RootFrame(rootPath, root)))
    ensures outcome.Completed? ==>
              && outcome.value.0 == WalkOrder(Tree(rootPath, RootFrame(rootPath, root)))
              && outcome.value.1 == Tree(rootPath, RootFrame(rootPath, root))
    ensures outcome.Completed? ==> ReportsUpTo(progress, |outcome.value.0|)
    ensures outcome.Cancelled? ==>
              exists scanned :: 0 <= scanned <= |WalkOrder(Tree(rootPath, RootFrame(rootPath, root)))|
                                && ReportsUpTo(progress, scanned)
  {
    var walked, dirMap;
    walked, progress, dirMap := WalkWithTree(rootPath, root, cancelAfter);
    match walked
    case Cancelled =>
      outcome := Cancelled;
    case Completed(results) =>
      var rootNode := BuildTree(rootPath, root, dirMap);
      outcome := Completed((results, rootNode));
  }

  /** The two results of `scanWithTree` agree: the tree is consistent, and its root counts
      exactly the files of the flat list and their total size. */
  lemma ScanResultsAgree(rootPath: string, root: Entry)
    ensures Consistent(Tree(rootPath, RootFrame(rootPath, root)))
    ensures Tree(rootPath, RootFrame(rootPath, root)).totalFileCount == |WalkOrder(Tree(rootPath, RootFrame(rootPath, root)))|
    ensures Tree(rootPath, RootFrame(rootPath, root)).totalSize == SumSizes(WalkOrder(Tree(rootPath, RootFrame(rootPath, root))))
  {
    TreeIsConsistent(rootPath, RootFrame(rootPath, root));
    WalkTotals(Tree(rootPath, RootFrame(rootPath, root)));
  }
}

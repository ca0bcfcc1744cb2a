/** Planning image layers: the directory and file entries of a layer stream, and the split into semantic layers. */
module Layers {
  import opened Wrappers
  import opened Sorting
  import opened Strings
  import opened Paths

  datatype StreamFile = StreamFile(dest: string, content: Bytes, mode: int, category: string, uid: int, gid: int)

  datatype Entry =
    | DirEntry(name: string, mode: int)
    | FileEntry(name: string, content: Bytes, mode: int, uid: int, gid: int)

  /** The categories in layer order. */
  const LAYER_ORDER := ["toolchain", "dependencies", "application", "metadata"]

  const BASE_DIRECTORIES := {"app/", "etc/", "etc/ssl/", "etc/ssl/certs/", "tmp/", "var/", "var/tmp/"}

  // File modes, in decimal: 0755, 01777 and 0770.
  const DIRECTORY_MODE := 493
  const STICKY_MODE := 1023
  const WRITABLE_MODE := 504

  function CategoryOf(f: StreamFile): string {
    if f.category == "" then "application" else f.category
  }

  /** `strings.TrimPrefix(p, "/")`. */
  function TrimSlash(p: string): string {
    if "/" <= p then p[1..] else p
  }

  // ----- Directories -----

  function FileDirectories(files: seq<StreamFile>): set<string> {
    set f, d | f in files && d in SlashPrefixes(f.dest) :: d
  }

  function WritableDirectories(writable: seq<string>): set<string> {
    set w, d | w in writable && d in SlashPrefixes(TrimSlash(w) + "/") :: d
  }

  /** Every directory of a layer: the fixed ones, the parents of the files, the writable paths with theirs. */
  function DirectorySet(files: seq<StreamFile>, writable: seq<string>): set<string> {
    BASE_DIRECTORIES + FileDirectories(files) + WritableDirectories(writable)
  }

  predicate CleanFiles(files: seq<StreamFile>) {
    forall i :: 0 <= i < |files| ==> CleanRelative(files[i].dest)
  }

  /** The inner loop: add `current += segment + "/"` for each segment, skipping ".". */
  method AddSegments(directories: set<string>, segments: seq<string>) returns (r: set<string>)
    requires forall i :: 0 <= i < |segments| ==> segments[i] != "."
    ensures r == directories + Accumulated("", segments)
  {
    r := directories;
    var current := "";
    for i := 0 to |segments|
      invariant r + Accumulated(current, segments[i..]) == directories + Accumulated("", segments)
    {
      var segment := segments[i];
      if segment == "." {
        continue;
      }
      assert segments[i..][0] == segment && segments[i..][1..] == segments[i + 1..];
      current := current + segment + "/";
      r := r + {current};
    }
  }

  /** The segments of `path.Dir(dest)`; a file at the top has only ".", which is skipped. */
  method AddFile(directories: set<string>, dest: string) returns (r: set<string>)
    requires CleanRelative(dest)
    ensures r == directories + SlashPrefixes(dest)
  {
    var segments := Split(Dir(dest));
    if BaseStart(dest) == 0 {
      NoPrefixes(dest);
      SplitOne(".");
      return directories;
    }
    CleanDir(dest);
    SplitPrefixes(Dir(dest));
    r := AddSegments(directories, segments);
  }

  method LayerDirectories(files: seq<StreamFile>, writable: seq<string>) returns (result: seq<string>)
    requires CleanFiles(files)
    requires forall i :: 0 <= i < |writable| ==> CleanRelative(TrimSlash(writable[i]))
    ensures result == Sorted(DirectorySet(files, writable))
  {
    hide SlashPrefixes, FileDirectories, WritableDirectories, CleanRelative;
    NoFilesYet();
    var directories := BASE_DIRECTORIES;
    for i := 0 to |files|
      invariant directories == BASE_DIRECTORIES + FileDirectories(files[..i])
    {
      MoreFiles(files, i);
      directories := AddFile(directories, files[i].dest);
    }
    assert files[..|files|] == files;
    for i := 0 to |writable|
      invariant directories == BASE_DIRECTORIES + FileDirectories(files) + WritableDirectories(writable[..i])
    {
      MoreWritable(writable, i);
      var p := TrimSlash(writable[i]);
      SplitPrefixes(p);
      NoDots(p);
      directories := AddSegments(directories, Split(p));
    }
    assert writable[..|writable|] == writable;
    result := CollectSorted(directories);
  }

  lemma NoFilesYet()
    ensures FileDirectories([]) == {} && WritableDirectories([]) == {}
  {
  }

  lemma NoDots(p: string)
    requires CleanRelative(p)
    ensures forall i :: 0 <= i < |Split(p)| ==> Split(p)[i] != "."
  {
  }

  lemma MoreFiles(files: seq<StreamFile>, i: nat)
    requires i < |files|
    ensures FileDirectories(files[..i + 1]) == FileDirectories(files[..i]) + SlashPrefixes(files[i].dest)
  {
    assert files[..i + 1] == files[..i] + [files[i]];
  }

  lemma MoreWritable(writable: seq<string>, i: nat)
    requires i < |writable|
    ensures WritableDirectories(writable[..i + 1]) == WritableDirectories(writable[..i]) + SlashPrefixes(TrimSlash(writable[i]) + "/")
  {
    assert writable[..i + 1] == writable[..i] + [writable[i]];
  }

  /** List a set in any order and sort the list. */
  method CollectSorted(directories: set<string>) returns (result: seq<string>)
    ensures result == Sorted(directories)
  {
    result := [];
    var unseen := directories;
    while unseen != {}
      invariant unseen <= directories && Distinct(result)
      invariant forall d :: d in result <==> d in directories && d !in unseen
      decreases unseen
    {
      var d :| d in unseen;
      unseen := unseen - {d};
      DistinctAppend(result, d);
      result := result + [d];
    }
    SortStringsOfSet(result, directories);
    result := SortStrings(result);
  }

  /** The directory set is closed under parents: every slash-ended prefix of a member is a member. */
  lemma DirectoriesClosed(files: seq<StreamFile>, writable: seq<string>, d: string, e: string)
    requires d in DirectorySet(files, writable) && e in SlashPrefixes(d)
    ensures e in DirectorySet(files, writable)
  {
    if d in BASE_DIRECTORIES {
      BaseClosed(d, e);
    } else if d in FileDirectories(files) {
      var f :| f in files && d in SlashPrefixes(f.dest);
      PrefixClosed(f.dest, d, e);
    } else {
      var w :| w in writable && d in SlashPrefixes(TrimSlash(w) + "/");
      PrefixClosed(TrimSlash(w) + "/", d, e);
    }
  }

  lemma BaseClosed(d: string, e: string)
    requires d in BASE_DIRECTORIES && e in SlashPrefixes(d)
    ensures e in BASE_DIRECTORIES
  {
    var i :| 0 <= i < |d| && d[i] == '/' && d[..i + 1] == e;
    if d == "etc/ssl/" {
      assert i == 3 || i == 7;
      assert d[..4] == "etc/" && d[..8] == d;
    } else if d == "etc/ssl/certs/" {
      assert i == 3 || i == 7 || i == 13;
      assert d[..4] == "etc/" && d[..8] == "etc/ssl/" && d[..14] == d;
    } else if d == "var/tmp/" {
      assert i == 3 || i == 7;
      assert d[..4] == "var/" && d[..8] == d;
    } else {
      assert i == |d| - 1 && d[..i + 1] == d;
    }
  }

  // ----- One layer -----

  /** A directory's mode depends only on its name and the writable paths. */
  function DirMode(d: string, writable: seq<string>): int {
    if exists w :: w in writable && d == TrimSlash(w) + "/" then WRITABLE_MODE
    else if d == "tmp/" || d == "var/tmp/" then STICKY_MODE
    else DIRECTORY_MODE
  }

  predicate DestLess(a: StreamFile, b: StreamFile) {
    Less(a.dest, b.dest)
  }

  lemma DestOrder()
    ensures StrictOrder(DestLess)
  {
    LessIsStrictOrder();
  }

  predicate DistinctDests(files: seq<StreamFile>) {
    forall i, j :: 0 <= i < j < |files| ==> files[i].dest != files[j].dest
  }

  function SortedFiles(files: seq<StreamFile>): (r: seq<StreamFile>)
    ensures SortedBy(DestLess, r) && Permutation(r, files)
  {
    DestOrder();
    Sort(DestLess, files)
  }

  function DirEntries(names: seq<string>, writable: seq<string>): (es: seq<Entry>)
    ensures |es| == |names| && forall i :: 0 <= i < |es| ==> es[i] == DirEntry(names[i], DirMode(names[i], writable))
  {
    seq(|names|, i requires 0 <= i < |names| => DirEntry(names[i], DirMode(names[i], writable)))
  }

  function FileEntryOf(f: StreamFile): Entry {
    FileEntry(f.dest, f.content, f.mode, f.uid, f.gid)
  }

  function FileEntries(files: seq<StreamFile>): (es: seq<Entry>)
    ensures |es| == |files| && forall i :: 0 <= i < |es| ==> es[i] == FileEntryOf(files[i])
  {
    seq(|files|, i requires 0 <= i < |files| => FileEntryOf(files[i]))
  }

  /** The stream of one layer: sorted directories, then sorted files. */
  ghost function LayerEntries(files: seq<StreamFile>, writable: seq<string>): seq<Entry> {
    DirEntries(Sorted(DirectorySet(files, writable)), writable) + FileEntries(SortedFiles(files))
  }

  /** The mode of a directory entry, by the loop over the writable paths. */
  method ComputeDirMode(directory: string, writable: seq<string>) returns (mode: int)
    ensures mode == DirMode(directory, writable)
  {
    mode := DIRECTORY_MODE;
    if directory == "tmp/" || directory == "var/tmp/" {
      mode := STICKY_MODE;
    }
    for i := 0 to |writable|
      invariant mode == if exists j :: 0 <= j < i && directory == TrimSlash(writable[j]) + "/" then WRITABLE_MODE
                        else if directory == "tmp/" || directory == "var/tmp/" then STICKY_MODE
                        else DIRECTORY_MODE
    {
      if directory == TrimSlash(writable[i]) + "/" {
        mode := WRITABLE_MODE;
      }
    }
    assert (exists w :: w in writable && directory == TrimSlash(w) + "/") <==>
           exists j :: 0 <= j < |writable| && directory == TrimSlash(writable[j]) + "/";
  }

  method WriteLayerStream(files: seq<StreamFile>, writable: seq<string>) returns (entries: seq<Entry>)
    requires CleanFiles(files)
    requires forall i :: 0 <= i < |writable| ==> CleanRelative(TrimSlash(writable[i]))
    ensures entries == LayerEntries(files, writable)
  {
    hide DirMode, Sorted, DirectorySet;
    entries := [];
    var directories := LayerDirectories(files, writable);
    for i := 0 to |directories|
      invariant entries == DirEntries(directories[..i], writable)
    {
      var mode := ComputeDirMode(directories[i], writable);
      entries := entries + [DirEntry(directories[i], mode)];
    }
    assert directories[..|directories|] == directories;
    ghost var first := entries;
    var sortedFiles := SortedFiles(files);
    for i := 0 to |sortedFiles|
      invariant entries == first + FileEntries(sortedFiles[..i])
    {
      entries := entries + [FileEntryOf(sortedFiles[i])];
      assert FileEntries(sortedFiles[..i + 1]) == FileEntries(sortedFiles[..i]) + [FileEntryOf(sortedFiles[i])];
    }
    assert sortedFiles[..|sortedFiles|] == sortedFiles;
  }

  /** The parent directory of an entry's name, slash included; empty at the top. */
  function ParentOf(name: string): string {
    if name != "" && name[|name| - 1] == '/' then name[..BaseStart(name[..|name| - 1])] else name[..BaseStart(name)]
  }

  /** The entries of a layer by position: directories, then files. */
  lemma EntryAt(files: seq<StreamFile>, writable: seq<string>, i: nat)
    requires i < |LayerEntries(files, writable)|
    ensures var dirs, sorted := Sorted(DirectorySet(files, writable)), SortedFiles(files);
            && |LayerEntries(files, writable)| == |dirs| + |files| && |sorted| == |files|
            && (i < |dirs| ==> dirs[i] in dirs && LayerEntries(files, writable)[i] == DirEntry(dirs[i], DirMode(dirs[i], writable)))
            && (i >= |dirs| ==> sorted[i - |dirs|] in files
                                && LayerEntries(files, writable)[i] == FileEntries(sorted)[i - |dirs|]
                                && LayerEntries(files, writable)[i].name == sorted[i - |dirs|].dest)
  {
    hide DirMode, DirectorySet, Sorted, SortedBy, Distinct, SortedFiles;
    SameMembers(SortedFiles(files), files);
  }

  /** In every layer stream each directory and each file comes after its parent directory. */
  lemma ParentsComeFirst(files: seq<StreamFile>, writable: seq<string>, i: nat) returns (j: nat)
    requires i < |LayerEntries(files, writable)| && ParentOf(LayerEntries(files, writable)[i].name) != ""
    ensures j < i && LayerEntries(files, writable)[j] ==
                     DirEntry(ParentOf(LayerEntries(files, writable)[i].name), DirMode(ParentOf(LayerEntries(files, writable)[i].name), writable))
  {
    hide DirMode, LayerEntries, ParentOf, DirectorySet, Sorted, SortedBy, Distinct, SortedFiles;
    EntryAt(files, writable, i);
    var dirs := Sorted(DirectorySet(files, writable));
    var name := LayerEntries(files, writable)[i].name;
    var parent := ParentOf(name);
    if i < |dirs| {
      assert name in dirs;
      ParentInSet(files, writable, name);
    } else {
      FileParent(files, writable, SortedFiles(files)[i - |dirs|]);
    }
    j :| 0 <= j < |dirs| && dirs[j] == parent;
    EntryAt(files, writable, j);
    if i < |dirs| {
      PrefixLess(parent, name);
      SortedPosition(dirs, j, i);
    }
  }

  lemma SortedPosition(xs: seq<string>, j: nat, i: nat)
    requires i < |xs| && j < |xs| && SortedBy(Less, xs) && Less(xs[j], xs[i])
    ensures j < i
  {
    LessAsymmetric(xs[j], xs[i]);
  }

  /** Members of the directory set end in a slash, so they have a shorter parent. */
  lemma ParentInSet(files: seq<StreamFile>, writable: seq<string>, d: string)
    requires d in DirectorySet(files, writable) && ParentOf(d) != ""
    ensures ParentOf(d) in DirectorySet(files, writable) && ParentOf(d) < d
  {
    EndsInSlash(files, writable, d);
    var b := BaseStart(d[..|d| - 1]);
    assert d[..b] == ParentOf(d) && d[b - 1] == '/';
    assert ParentOf(d) in SlashPrefixes(d) by { assert d[..b - 1 + 1] == ParentOf(d); }
    DirectoriesClosed(files, writable, d, ParentOf(d));
  }

  lemma EndsInSlash(files: seq<StreamFile>, writable: seq<string>, d: string)
    requires d in DirectorySet(files, writable)
    ensures d != "" && d[|d| - 1] == '/'
  {
  }

  lemma FileParent(files: seq<StreamFile>, writable: seq<string>, f: StreamFile)
    requires f in files && ParentOf(f.dest) != ""
    ensures ParentOf(f.dest) in DirectorySet(files, writable)
  {
    var p := f.dest;
    var b := |ParentOf(p)|;
    assert p[..b] == ParentOf(p) && b > 0 && p[b - 1] == '/';
    assert ParentOf(p) in SlashPrefixes(p) by { assert p[..b - 1 + 1] == ParentOf(p); }
  }

  /** The stream does not depend on the order in which files are listed. */
  lemma OrderIndependent(a: seq<StreamFile>, b: seq<StreamFile>, writable: seq<string>)
    requires Permutation(a, b) && DistinctDests(a)
    ensures LayerEntries(a, writable) == LayerEntries(b, writable)
  {
    SameMembers(a, b);
    assert FileDirectories(a) == FileDirectories(b);
    SameMembers(SortedFiles(a), a);
    NoDestTies(a);
    assert NoTies(DestLess, SortedFiles(a));
    SortedIsUnique(DestLess, SortedFiles(a), SortedFiles(b));
  }

  lemma NoDestTies(a: seq<StreamFile>)
    requires DistinctDests(a)
    ensures NoTies(DestLess, a)
  {
    forall f, g | f in a && g in a && f != g ensures DestLess(f, g) || DestLess(g, f) {
      var i :| 0 <= i < |a| && a[i] == f;
      var j :| 0 <= j < |a| && a[j] == g;
      assert f.dest != g.dest;
      LessConnected(f.dest, g.dest);
    }
  }

  /** The order of a layer stream: directories by name, then files by destination. */
  lemma StreamIsSorted(files: seq<StreamFile>, writable: seq<string>, i: nat, j: nat)
    requires i < j < |LayerEntries(files, writable)|
    ensures var a, b := LayerEntries(files, writable)[i], LayerEntries(files, writable)[j];
            && (a.DirEntry? && b.DirEntry? ==> Less(a.name, b.name))
            && (a.FileEntry? && b.FileEntry? ==> !Less(b.name, a.name))
            && (a.FileEntry? ==> b.FileEntry?)
  {
    hide DirMode, DirectorySet, Less, LayerEntries;
    EntryAt(files, writable, i);
    EntryAt(files, writable, j);
    var dirs, sorted := Sorted(DirectorySet(files, writable)), SortedFiles(files);
    if j < |dirs| {
      LessConnected(dirs[i], dirs[j]);
    } else if i >= |dirs| {
      assert !DestLess(sorted[j - |dirs|], sorted[i - |dirs|]);
    }
  }
}

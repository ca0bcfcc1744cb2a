/** Splitting files into semantic layers does not change the image's filesystem. */
module LayerEquivalence {
  import opened Wrappers
  import opened Sorting
  import opened Strings
  import opened Paths
  import opened Layers
  import opened LayerSplit

  function Strip(d: string): string {
    if d == "" then "" else d[..|d| - 1]
  }

  predicate Whiteout(p: string) {
    ".wh." <= Base(p)
  }

  /** What a build must satisfy for the layers to be interchangeable. */
  ghost predicate Layerable(files: seq<StreamFile>, writable: seq<string>) {
    && files != [] && DistinctDests(files) && Categorized(files)
    // no path is both a file and a directory
    && (forall f :: f in files ==> f.dest + "/" !in DirectorySet(files, writable))
    // no name is a whiteout
    && (forall f :: f in files ==> !Whiteout(f.dest))
    && (forall d :: d in DirectorySet(files, writable) ==> !Whiteout(Strip(d)))
  }

  ghost function Dests(files: seq<StreamFile>): set<string> {
    set f | f in files :: f.dest
  }

  ghost function StrippedDirs(files: seq<StreamFile>, writable: seq<string>): set<string> {
    set d | d in DirectorySet(files, writable) :: Strip(d)
  }

  ghost function FileAt(files: seq<StreamFile>, p: string): StreamFile
    requires p in Dests(files)
  {
    var f :| f in files && f.dest == p;
    f
  }

  function RegularOf(f: StreamFile): Node {
    Regular(f.content, f.mode, f.uid, f.gid)
  }

  /** The filesystem the image is meant to have. */
  ghost function Target(files: seq<StreamFile>, writable: seq<string>): Filesystem {
    map p | p in StrippedDirs(files, writable) + Dests(files) ::
      if p + "/" in DirectorySet(files, writable) then Directory(DirMode(p + "/", writable))
      else if p in Dests(files) then RegularOf(FileAt(files, p))
      else Directory(DIRECTORY_MODE)
  }

  lemma StripSlash(files: seq<StreamFile>, writable: seq<string>, d: string)
    requires d in DirectorySet(files, writable)
    ensures d != "" && Strip(d) + "/" == d && PathOf(DirEntry(d, 0)) == Strip(d)
  {
    EndsInSlash(files, writable, d);
  }

  lemma UniqueFile(files: seq<StreamFile>, f: StreamFile, g: StreamFile)
    requires DistinctDests(files) && f in files && g in files && f.dest == g.dest
    ensures f == g
  {
    var i :| 0 <= i < |files| && files[i] == f;
    var j :| 0 <= j < |files| && files[j] == g;
  }

  lemma BelowIsPrefix(q: string, p: string)
    requires Below(q, p)
    ensures p + "/" in SlashPrefixes(q) && p + "/" in SlashPrefixes(q + "/")
  {
    var i := |p|;
    assert q[i] == '/' && q[..i + 1] == p + "/";
    assert (q + "/")[i] == '/' && (q + "/")[..i + 1] == p + "/";
  }

  /** Nothing lies below a file of the target. */
  lemma TargetLeaves(files: seq<StreamFile>, writable: seq<string>)
    requires Layerable(files, writable)
    ensures FilesAreLeaves(Target(files, writable))
  {
    hide DirMode, Whiteout, DirectorySet, SlashPrefixes, Below;
    var world := Target(files, writable);
    forall p, q | p in world && q in world && world[p].Regular? ensures !Below(q, p) {
      if Below(q, p) {
        NothingBelowAFile(files, writable, p, q);
      }
    }
  }

  lemma NothingBelowAFile(files: seq<StreamFile>, writable: seq<string>, p: string, q: string)
    requires Below(q, p) && q in StrippedDirs(files, writable) + Dests(files)
    ensures p + "/" in DirectorySet(files, writable)
  {
    hide DirMode;
    BelowIsPrefix(q, p);
    if q in Dests(files) {
      var f :| f in files && f.dest == q;
      assert p + "/" in FileDirectories(files);
    } else {
      var d :| d in DirectorySet(files, writable) && Strip(d) == q;
      StripSlash(files, writable, d);
      DirectoriesClosed(files, writable, d, p + "/");
    }
  }

  // ----- Each layer agrees with the target -----

  lemma SubDirectories(files: seq<StreamFile>, group: seq<StreamFile>, writable: seq<string>)
    requires forall f :: f in group ==> f in files
    ensures DirectorySet(group, writable) <= DirectorySet(files, writable)
  {
  }

  lemma DirAgrees(files: seq<StreamFile>, writable: seq<string>, d: string)
    requires Layerable(files, writable) && d in DirectorySet(files, writable)
    ensures Agrees(Target(files, writable), DirEntry(d, DirMode(d, writable)))
  {
    hide DirMode, DirectorySet;
    StripSlash(files, writable, d);
    assert PathOf(DirEntry(d, DirMode(d, writable))) == Strip(d);
    assert Strip(d) in StrippedDirs(files, writable);
  }

  lemma FileAgrees(files: seq<StreamFile>, writable: seq<string>, f: StreamFile)
    requires Layerable(files, writable) && f in files
    ensures Agrees(Target(files, writable), FileEntryOf(f))
  {
    hide DirMode, DirectorySet;
    assert f.dest in Dests(files);
    UniqueFile(files, f, FileAt(files, f.dest));
  }

  lemma LayerAgrees(files: seq<StreamFile>, group: seq<StreamFile>, writable: seq<string>)
    requires Layerable(files, writable) && forall f :: f in group ==> f in files
    ensures AllAgree(Target(files, writable), LayerEntries(group, writable))
  {
    hide Agrees, Target, DirMode, Layerable, DirectorySet, Sorted, SortedBy, Distinct, SortedFiles, LayerEntries;
    SubDirectories(files, group, writable);
    var dirs, sorted := Sorted(DirectorySet(group, writable)), SortedFiles(group);
    var layer := LayerEntries(group, writable);
    forall e | e in layer ensures Agrees(Target(files, writable), e) {
      var i :| 0 <= i < |layer| && layer[i] == e;
      EntryAt(group, writable, i);
      if i < |dirs| {
        DirAgrees(files, writable, dirs[i]);
      } else {
        FileAgrees(files, writable, sorted[i - |dirs|]);
      }
    }
  }

  /** The paths one layer mentions. */
  lemma LayerPaths(group: seq<StreamFile>, writable: seq<string>)
    ensures PathsOf(LayerEntries(group, writable)) == StrippedDirs(group, writable) + Dests(group)
  {
    hide DirMode, DirectorySet, Sorted, Strip, LayerEntries;
    forall p ensures p in PathsOf(LayerEntries(group, writable)) <==> p in StrippedDirs(group, writable) + Dests(group) {
      if p in PathsOf(LayerEntries(group, writable)) {
        PathIsListed(group, writable, p);
      }
      if p in StrippedDirs(group, writable) {
        DirIsListed(group, writable, p);
      }
      if p in Dests(group) {
        FileIsListed(group, writable, p);
      }
    }
  }

  lemma PathIsListed(group: seq<StreamFile>, writable: seq<string>, p: string)
    requires p in PathsOf(LayerEntries(group, writable))
    ensures p in StrippedDirs(group, writable) + Dests(group)
  {
    hide DirMode, DirectorySet, Sorted, SortedBy, Distinct, SortedFiles, LayerEntries, Strip;
    var dirs := Sorted(DirectorySet(group, writable));
    var layer := LayerEntries(group, writable);
    var i :| 0 <= i < |layer| && PathOf(layer[i]) == p;
    EntryAt(group, writable, i);
    if i < |dirs| {
      DirPath(group, writable, dirs[i]);
    }
  }

  lemma DirIsListed(group: seq<StreamFile>, writable: seq<string>, p: string)
    requires p in StrippedDirs(group, writable)
    ensures p in PathsOf(LayerEntries(group, writable))
  {
    hide DirMode, DirectorySet, Sorted, Strip;
    var dirs := Sorted(DirectorySet(group, writable));
    var layer := LayerEntries(group, writable);
    var d :| d in DirectorySet(group, writable) && Strip(d) == p;
    DirPath(group, writable, d);
    var i :| 0 <= i < |dirs| && dirs[i] == d;
    assert layer[i] in layer && PathOf(layer[i]) == p;
  }

  lemma FileIsListed(group: seq<StreamFile>, writable: seq<string>, p: string)
    requires p in Dests(group)
    ensures p in PathsOf(LayerEntries(group, writable))
  {
    hide DirMode, DirectorySet, Sorted;
    var dirs, sorted := Sorted(DirectorySet(group, writable)), SortedFiles(group);
    var layer := LayerEntries(group, writable);
    SameMembers(sorted, group);
    var f :| f in group && f.dest == p;
    var i :| 0 <= i < |sorted| && sorted[i] == f;
    assert layer[|dirs| + i] in layer && PathOf(layer[|dirs| + i]) == p;
  }

  lemma DirPath(group: seq<StreamFile>, writable: seq<string>, d: string)
    requires d in DirectorySet(group, writable)
    ensures PathOf(DirEntry(d, DirMode(d, writable))) == Strip(d)
  {
    hide DirMode;
    StripSlash(group, writable, d);
  }

  // ----- The layers of all categories -----

  /** Layer `l` is the layer of category `c`. */
  ghost predicate IsLayerOf(files: seq<StreamFile>, writable: seq<string>, c: string, l: seq<Entry>) {
    Group(files, c) != [] && l == LayerEntries(Group(files, c), writable)
  }

  lemma {:induction false} LayersForMember(files: seq<StreamFile>, writable: seq<string>, order: seq<string>, l: seq<Entry>)
    ensures l in LayersFor(files, writable, order) <==> exists c :: c in order && IsLayerOf(files, writable, c, l)
    decreases order
  {
    hide LayerEntries, Group;
    if order != [] {
      var first := if Group(files, order[0]) == [] then [] else [LayerEntries(Group(files, order[0]), writable)];
      assert LayersFor(files, writable, order) == first + LayersFor(files, writable, order[1..]);
      assert l in first <==> IsLayerOf(files, writable, order[0], l);
      hide IsLayerOf;
      assert order == [order[0]] + order[1..];
      LayersForMember(files, writable, order[1..], l);
    }
  }

  lemma LayersForMembers(files: seq<StreamFile>, writable: seq<string>, order: seq<string>)
    ensures forall l :: l in LayersFor(files, writable, order) <==> exists c :: c in order && IsLayerOf(files, writable, c, l)
  {
    forall l ensures l in LayersFor(files, writable, order) <==> exists c :: c in order && IsLayerOf(files, writable, c, l) {
      LayersForMember(files, writable, order, l);
    }
  }

  /** Together the semantic layers mention exactly the paths of the single layer. */
  lemma SemanticPaths(files: seq<StreamFile>, writable: seq<string>)
    requires files != [] && Categorized(files)
    ensures AllPaths(LayersFor(files, writable, LAYER_ORDER)) == PathsOf(LayerEntries(files, writable))
  {
    hide LayerEntries, LayersFor, Group;
    var layers := LayersFor(files, writable, LAYER_ORDER);
    LayersForMembers(files, writable, LAYER_ORDER);
    LayerPaths(files, writable);
    forall p ensures p in AllPaths(layers) <==> p in StrippedDirs(files, writable) + Dests(files) {
      if p in AllPaths(layers) {
        var l, e :| l in layers && e in l && PathOf(e) == p;
        var c :| c in LAYER_ORDER && IsLayerOf(files, writable, c, l);
        GroupPath(files, writable, c, p);
      }
      if p in StrippedDirs(files, writable) + Dests(files) {
        var c := PathInSomeGroup(files, writable, p);
        var l := LayerEntries(Group(files, c), writable);
        LayerPaths(Group(files, c), writable);
        assert IsLayerOf(files, writable, c, l) && l in layers;
        var e :| e in l && PathOf(e) == p;
      }
    }
  }

  lemma GroupPath(files: seq<StreamFile>, writable: seq<string>, c: string, p: string)
    requires p in PathsOf(LayerEntries(Group(files, c), writable))
    ensures p in StrippedDirs(files, writable) + Dests(files)
  {
    hide LayerEntries, DirectorySet, Strip;
    LayerPaths(Group(files, c), writable);
    GroupMembers(files, c);
    SubDirectories(files, Group(files, c), writable);
  }

  /** Every path of the single layer is in the layer of some non-empty category. */
  lemma PathInSomeGroup(files: seq<StreamFile>, writable: seq<string>, p: string) returns (c: string)
    requires files != [] && Categorized(files) && p in StrippedDirs(files, writable) + Dests(files)
    ensures c in LAYER_ORDER && Group(files, c) != [] && p in StrippedDirs(Group(files, c), writable) + Dests(Group(files, c))
  {
    hide Strip, SlashPrefixes, LAYER_ORDER;
    if p in Dests(files) {
      var f :| f in files && f.dest == p;
      c := CategoryOf(f);
      GroupMembers(files, c);
      assert f in Group(files, c);
    } else {
      var d :| d in DirectorySet(files, writable) && Strip(d) == p;
      var f := files[0];
      if d in FileDirectories(files) {
        f :| f in files && d in SlashPrefixes(f.dest);
      }
      c := CategoryOf(f);
      GroupMembers(files, c);
      assert f in Group(files, c);
      assert d in DirectorySet(Group(files, c), writable);
    }
  }

  /**
   The main result: applying the semantic layers in order gives the same filesystem (paths,
   contents, modes and owners) as the single layer.
   */
  lemma SemanticLayersPreserveImage(files: seq<StreamFile>, writable: seq<string>)
    requires Layerable(files, writable)
    ensures Flatten(PlannedLayers(files, writable, true)) == Flatten(PlannedLayers(files, writable, false))
  {
    hide LayerEntries, LayersFor, Group, Target, DirectorySet, FilesAreLeaves, AllAgree, DirMode, Whiteout;
    var world := Target(files, writable);
    var many, one := LayersFor(files, writable, LAYER_ORDER), [LayerEntries(files, writable)];
    TargetLeaves(files, writable);
    LayersForMembers(files, writable, LAYER_ORDER);
    forall l | l in many ensures AllAgree(world, l) {
      var c :| c in LAYER_ORDER && IsLayerOf(files, writable, c, l);
      GroupMembers(files, c);
      LayerAgrees(files, Group(files, c), writable);
    }
    LayerAgrees(files, files, writable);
    SemanticPaths(files, writable);
    assert AllPaths(one) == PathsOf(LayerEntries(files, writable));
    SameFlattening(world, many, one);
  }

  /** The flattened image is the target: every directory and file as declared, and nothing else. */
  lemma ImageIsTarget(files: seq<StreamFile>, writable: seq<string>, semantic: bool)
    requires Layerable(files, writable)
    ensures Flatten(PlannedLayers(files, writable, semantic)) == Target(files, writable)
  {
    hide LayerEntries, LayersFor, Group, DirectorySet, FilesAreLeaves, AllAgree, DirMode, Whiteout;
    var world := Target(files, writable);
    var one := [LayerEntries(files, writable)];
    TargetLeaves(files, writable);
    LayerAgrees(files, files, writable);
    LayerPaths(files, writable);
    FlattenWithin(world, one);
    assert AllPaths(one) == PathsOf(LayerEntries(files, writable));
    assert Flatten(one) == world;
    SemanticLayersPreserveImage(files, writable);
  }
}

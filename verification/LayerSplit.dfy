/** Semantic layers flatten to the same filesystem as the single layer. */
module LayerSplit {
  import opened Wrappers
  import opened Sorting
  import opened Strings
  import opened Paths
  import opened Layers

  // ----- Planning -----

  /** The files of one category, in input order. */
  function Group(files: seq<StreamFile>, category: string): seq<StreamFile> {
    if files == [] then []
    else
      var n := |files| - 1;
      Group(files[..n], category) + if CategoryOf(files[n]) == category then [files[n]] else []
  }

  /** One layer per category of `order` that has files. */
  ghost function LayersFor(files: seq<StreamFile>, writable: seq<string>, order: seq<string>): seq<seq<Entry>>
    decreases order
  {
    if order == [] then []
    else
      var group := Group(files, order[0]);
      (if group == [] then [] else [LayerEntries(group, writable)]) + LayersFor(files, writable, order[1..])
  }

  ghost function PlannedLayers(files: seq<StreamFile>, writable: seq<string>, semantic: bool): seq<seq<Entry>> {
    if semantic then LayersFor(files, writable, LAYER_ORDER) else [LayerEntries(files, writable)]
  }

  method GroupFiles(files: seq<StreamFile>) returns (grouped: map<string, seq<StreamFile>>)
    ensures forall c :: (if c in grouped then grouped[c] else []) == Group(files, c)
  {
    hide CategoryOf, Group;
    grouped := map[];
    GroupsOfNothing(files);
    for i := 0 to |files|
      invariant forall c :: (if c in grouped then grouped[c] else []) == Group(files[..i], c)
    {
      var category := files[i].category;
      if category == "" {
        category := "application";
      }
      GroupStep(files, i, category);
      grouped := grouped[category := (if category in grouped then grouped[category] else []) + [files[i]]];
    }
    assert files[..|files|] == files;
  }

  lemma GroupsOfNothing(files: seq<StreamFile>)
    ensures forall c :: Group(files[..0], c) == []
  {
  }

  lemma GroupStep(files: seq<StreamFile>, i: nat, category: string)
    requires i < |files| && category == (if files[i].category == "" then "application" else files[i].category)
    ensures forall c :: Group(files[..i + 1], c) == Group(files[..i], c) + if c == category then [files[i]] else []
  {
    assert files[..i + 1][..i] == files[..i];
  }

  /** One layer, or one per non-empty category in the fixed order. */
  method WriteLayers(files: seq<StreamFile>, writable: seq<string>, semantic: bool) returns (layers: seq<seq<Entry>>)
    requires CleanFiles(files)
    requires forall i :: 0 <= i < |writable| ==> CleanRelative(TrimSlash(writable[i]))
    ensures layers == PlannedLayers(files, writable, semantic)
  {
    hide LayerEntries, CleanRelative, LayersFor;
    if !semantic {
      var layer := WriteLayerStream(files, writable);
      return [layer];
    }
    layers := WriteGroups(files, writable, LAYER_ORDER);
  }

  method WriteGroups(files: seq<StreamFile>, writable: seq<string>, order: seq<string>) returns (layers: seq<seq<Entry>>)
    requires CleanFiles(files)
    requires forall i :: 0 <= i < |writable| ==> CleanRelative(TrimSlash(writable[i]))
    ensures layers == LayersFor(files, writable, order)
  {
    hide LayerEntries, CleanRelative, CleanFiles, Group, LayersFor;
    var grouped := GroupFiles(files);
    layers := [];
    assert order[0..] == order && order[|order|..] == [];
    NoLayers(files, writable);
    for i := 0 to |order|
      invariant layers + LayersFor(files, writable, order[i..]) == LayersFor(files, writable, order)
    {
      var category := order[i];
      LayersStep(files, writable, order, i);
      var group := if category in grouped then grouped[category] else [];
      if |group| == 0 {
        continue;
      }
      GroupMembers(files, category);
      CleanGroup(files, group);
      var layer := WriteLayerStream(group, writable);
      layers := layers + [layer];
    }
  }

  lemma NoLayers(files: seq<StreamFile>, writable: seq<string>)
    ensures LayersFor(files, writable, []) == []
  {
  }

  lemma LayersStep(files: seq<StreamFile>, writable: seq<string>, order: seq<string>, i: nat)
    requires i < |order|
    ensures var group := Group(files, order[i]);
            LayersFor(files, writable, order[i..]) ==
            (if group == [] then [] else [LayerEntries(group, writable)]) + LayersFor(files, writable, order[i + 1..])
  {
    hide LayerEntries, Group;
    assert order[i..][0] == order[i] && order[i..][1..] == order[i + 1..];
  }

  lemma CleanGroup(files: seq<StreamFile>, group: seq<StreamFile>)
    requires CleanFiles(files) && forall f :: f in group ==> f in files
    ensures CleanFiles(group)
  {
    forall i | 0 <= i < |group| ensures CleanRelative(group[i].dest) {
      assert group[i] in group;
      var j :| 0 <= j < |files| && files[j] == group[i];
    }
  }

  lemma {:induction false} GroupMembers(files: seq<StreamFile>, category: string)
    ensures forall f :: f in Group(files, category) <==> f in files && CategoryOf(f) == category
  {
    if files != [] {
      var n := |files| - 1;
      GroupMembers(files[..n], category);
      assert files == files[..n] + [files[n]];
    }
  }

  /** The files of all groups of `order`, one group after the other. */
  function AllGroups(files: seq<StreamFile>, order: seq<string>): seq<StreamFile>
    decreases order
  {
    if order == [] then [] else Group(files, order[0]) + AllGroups(files, order[1..])
  }

  predicate Categorized(files: seq<StreamFile>) {
    forall f :: f in files ==> CategoryOf(f) in LAYER_ORDER
  }

  lemma {:induction false} AddToGroups(files: seq<StreamFile>, f: StreamFile, order: seq<string>)
    requires Distinct(order)
    ensures multiset(AllGroups(files + [f], order)) ==
            multiset(AllGroups(files, order)) + if CategoryOf(f) in order then multiset{f} else multiset{}
    decreases order
  {
    if order != [] {
      assert (files + [f])[..|files|] == files;
      assert order == [order[0]] + order[1..];
      AddToGroups(files, f, order[1..]);
    }
  }

  lemma {:induction false} NoGroups(order: seq<string>)
    ensures AllGroups([], order) == []
    decreases order
  {
    if order != [] {
      NoGroups(order[1..]);
    }
  }

  lemma {:induction false} GroupsCover(files: seq<StreamFile>, order: seq<string>)
    requires Distinct(order) && forall f :: f in files ==> CategoryOf(f) in order
    ensures Permutation(AllGroups(files, order), files)
  {
    if files == [] {
      NoGroups(order);
    } else {
      var n := |files| - 1;
      assert files == files[..n] + [files[n]];
      GroupsCover(files[..n], order);
      AddToGroups(files[..n], files[n], order);
    }
  }

  /** Every file is in exactly one layer: the groups together are a permutation of the files. */
  lemma GroupsPartition(files: seq<StreamFile>)
    requires Categorized(files)
    ensures Permutation(AllGroups(files, LAYER_ORDER), files)
  {
    GroupsCover(files, LAYER_ORDER);
  }

  // ----- Applying layers -----

  datatype Node = Directory(mode: int) | Regular(content: Bytes, mode: int, uid: int, gid: int)

  type Filesystem = map<string, Node>

  /** The path an entry describes: a directory entry's name without its final slash. */
  function PathOf(e: Entry): string {
    if e.DirEntry? && e.name != "" && e.name[|e.name| - 1] == '/' then e.name[..|e.name| - 1] else e.name
  }

  function NodeOf(e: Entry): Node {
    match e
    case DirEntry(_, mode) => Directory(mode)
    case FileEntry(_, content, mode, uid, gid) => Regular(content, mode, uid, gid)
  }

  predicate Below(p: string, ancestor: string) {
    ancestor + "/" <= p
  }

  /** A name that removes a path of lower layers instead of adding one. */
  predicate IsWhiteout(e: Entry) {
    ".wh." <= Base(PathOf(e))
  }

  /** The sibling a whiteout hides; an opaque whiteout hides everything in its directory. */
  predicate Hides(e: Entry, p: string) {
    && IsWhiteout(e)
    && var path := PathOf(e);
       var dir := path[..BaseStart(path)];
       if Base(path) == ".wh..wh..opq" then dir < p
       else var target := dir + Base(path)[4..]; p == target || Below(p, target)
  }

  /** Adding one entry: a file replaces whatever was there, children included; a directory keeps its children. */
  function Add(fs: Filesystem, e: Entry): Filesystem {
    var p := PathOf(e);
    if e.DirEntry? then fs[p := NodeOf(e)]
    else (map q | q in fs && !Below(q, p) :: fs[q])[p := NodeOf(e)]
  }

  function AddAll(fs: Filesystem, layer: seq<Entry>): Filesystem
    decreases layer
  {
    if layer == [] then fs
    else if IsWhiteout(layer[0]) then AddAll(fs, layer[1..])
    else AddAll(Add(fs, layer[0]), layer[1..])
  }

  /** Apply a changeset: whiteouts act on the lower layers only, then the entries are added in order. */
  function ApplyLayer(fs: Filesystem, layer: seq<Entry>): Filesystem {
    AddAll(map q | q in fs && !(exists e :: e in layer && Hides(e, q)) :: fs[q], layer)
  }

  function Flatten(layers: seq<seq<Entry>>): Filesystem {
    if layers == [] then map[] else ApplyLayer(Flatten(layers[..|layers| - 1]), layers[|layers| - 1])
  }

  // ----- The common target -----

  /** The entry describes a node of the target filesystem. */
  predicate Agrees(world: Filesystem, e: Entry) {
    !IsWhiteout(e) && PathOf(e) in world && world[PathOf(e)] == NodeOf(e)
  }

  predicate AllAgree(world: Filesystem, layer: seq<Entry>) {
    forall e :: e in layer ==> Agrees(world, e)
  }

  /** Nothing of the target lies below one of its files. */
  predicate FilesAreLeaves(world: Filesystem) {
    forall p, q :: p in world && q in world && world[p].Regular? ==> !Below(q, p)
  }

  predicate Within(fs: Filesystem, world: Filesystem) {
    forall p :: p in fs ==> p in world && fs[p] == world[p]
  }

  ghost function PathsOf(layer: seq<Entry>): set<string> {
    set e | e in layer :: PathOf(e)
  }

  lemma AddWithin(world: Filesystem, fs: Filesystem, e: Entry)
    requires FilesAreLeaves(world) && Within(fs, world) && Agrees(world, e)
    ensures Within(Add(fs, e), world) && Add(fs, e).Keys == fs.Keys + {PathOf(e)}
  {
    var p := PathOf(e);
    if e.FileEntry? {
      assert forall q :: q in fs ==> !Below(q, p);
    }
  }

  lemma {:induction false} AddAllWithin(world: Filesystem, fs: Filesystem, layer: seq<Entry>)
    requires FilesAreLeaves(world) && Within(fs, world) && AllAgree(world, layer)
    ensures Within(AddAll(fs, layer), world) && AddAll(fs, layer).Keys == fs.Keys + PathsOf(layer)
    decreases layer
  {
    if layer != [] {
      hide FilesAreLeaves, IsWhiteout, Add, Within;
      assert layer[0] in layer && Agrees(world, layer[0]);
      assert layer == [layer[0]] + layer[1..];
      AddWithin(world, fs, layer[0]);
      AddAllWithin(world, Add(fs, layer[0]), layer[1..]);
      assert PathsOf(layer) == {PathOf(layer[0])} + PathsOf(layer[1..]);
    }
  }

  lemma ApplyWithin(world: Filesystem, fs: Filesystem, layer: seq<Entry>)
    requires FilesAreLeaves(world) && Within(fs, world) && AllAgree(world, layer)
    ensures Within(ApplyLayer(fs, layer), world) && ApplyLayer(fs, layer).Keys == fs.Keys + PathsOf(layer)
  {
    var kept := map q | q in fs && !(exists e :: e in layer && Hides(e, q)) :: fs[q];
    assert kept == fs by {
      forall q | q in fs ensures !(exists e :: e in layer && Hides(e, q)) {
        forall e | e in layer ensures !Hides(e, q) {
          assert Agrees(world, e);
        }
      }
    }
    AddAllWithin(world, fs, layer);
  }

  ghost function AllPaths(layers: seq<seq<Entry>>): set<string> {
    set l, e | l in layers && e in l :: PathOf(e)
  }

  lemma {:induction false} FlattenWithin(world: Filesystem, layers: seq<seq<Entry>>)
    requires FilesAreLeaves(world) && forall l :: l in layers ==> AllAgree(world, l)
    ensures Within(Flatten(layers), world) && Flatten(layers).Keys == AllPaths(layers)
  {
    if layers != [] {
      var n := |layers| - 1;
      assert layers == layers[..n] + [layers[n]];
      FlattenWithin(world, layers[..n]);
      ApplyWithin(world, Flatten(layers[..n]), layers[n]);
      assert AllPaths(layers) == AllPaths(layers[..n]) + PathsOf(layers[n]);
    }
  }

  /** Two lists of agreeing layers that mention the same paths flatten to the same filesystem. */
  lemma SameFlattening(world: Filesystem, a: seq<seq<Entry>>, b: seq<seq<Entry>>)
    requires FilesAreLeaves(world)
    requires forall l :: l in a ==> AllAgree(world, l)
    requires forall l :: l in b ==> AllAgree(world, l)
    requires AllPaths(a) == AllPaths(b)
    ensures Flatten(a) == Flatten(b)
  {
    FlattenWithin(world, a);
    FlattenWithin(world, b);
  }

  // ----- The plan does not depend on the order of the files -----

  lemma {:induction false} GroupCounts(files: seq<StreamFile>, category: string, f: StreamFile)
    ensures multiset(Group(files, category))[f] == if CategoryOf(f) == category then multiset(files)[f] else 0
  {
    hide CategoryOf;
    if files != [] {
      var n := |files| - 1;
      GroupCounts(files[..n], category, f);
      assert files == files[..n] + [files[n]];
    }
  }

  lemma GroupPermutes(a: seq<StreamFile>, b: seq<StreamFile>, category: string)
    requires Permutation(a, b)
    ensures Permutation(Group(a, category), Group(b, category))
  {
    hide Group;
    forall f ensures multiset(Group(a, category))[f] == multiset(Group(b, category))[f] {
      GroupCounts(a, category, f);
      GroupCounts(b, category, f);
    }
  }

  lemma {:induction false} GroupDistinct(files: seq<StreamFile>, category: string)
    requires DistinctDests(files)
    ensures DistinctDests(Group(files, category))
  {
    hide CategoryOf;
    if files != [] {
      var n := |files| - 1;
      GroupDistinct(files[..n], category);
      GroupMembers(files[..n], category);
      forall i | 0 <= i < |Group(files[..n], category)| ensures Group(files[..n], category)[i].dest != files[n].dest {
        assert Group(files[..n], category)[i] in files[..n];
      }
    }
  }

  lemma {:induction false} LayersForSame(a: seq<StreamFile>, b: seq<StreamFile>, writable: seq<string>, order: seq<string>)
    requires Permutation(a, b) && DistinctDests(a)
    ensures LayersFor(a, writable, order) == LayersFor(b, writable, order)
    decreases order
  {
    hide LayerEntries, Group, DistinctDests;
    if order != [] {
      var c := order[0];
      GroupPermutes(a, b, c);
      GroupDistinct(a, c);
      SameMembers(Group(a, c), Group(b, c));
      OrderIndependent(Group(a, c), Group(b, c), writable);
      LayersForSame(a, b, writable, order[1..]);
    }
  }

  /** Listing the files in another order plans the same layers, entry for entry. */
  lemma PlanIsOrderIndependent(a: seq<StreamFile>, b: seq<StreamFile>, writable: seq<string>, semantic: bool)
    requires Permutation(a, b) && DistinctDests(a)
    ensures PlannedLayers(a, writable, semantic) == PlannedLayers(b, writable, semantic)
  {
    hide LayerEntries, LayersFor, DistinctDests;
    if semantic {
      LayersForSame(a, b, writable, LAYER_ORDER);
    } else {
      OrderIndependent(a, b, writable);
    }
  }

  /** The layer of one category, if it has files. */
  ghost function LayerOf(files: seq<StreamFile>, writable: seq<string>, category: string): seq<seq<Entry>> {
    if Group(files, category) == [] then [] else [LayerEntries(Group(files, category), writable)]
  }

  /** The order of semantic layers: what changes least comes first. */
  lemma SemanticOrder(files: seq<StreamFile>, writable: seq<string>)
    ensures PlannedLayers(files, writable, true) ==
            LayerOf(files, writable, "toolchain") + LayerOf(files, writable, "dependencies")
            + LayerOf(files, writable, "application") + LayerOf(files, writable, "metadata")
  {
    hide LayerEntries, Group, LayersFor, LayerOf;
    FourLayers(files, writable, "toolchain", "dependencies", "application", "metadata");
  }

  lemma FourLayers(files: seq<StreamFile>, writable: seq<string>, a: string, b: string, c: string, d: string)
    ensures LayersFor(files, writable, [a, b, c, d]) ==
            LayerOf(files, writable, a) + LayerOf(files, writable, b) + LayerOf(files, writable, c) + LayerOf(files, writable, d)
  {
    hide LayersFor, LayerOf;
    FirstLayer(files, writable, a, [b, c, d]);
    FirstLayer(files, writable, b, [c, d]);
    FirstLayer(files, writable, c, [d]);
    FirstLayer(files, writable, d, []);
    NoLayers(files, writable);
    assert [a, b, c, d] == [a] + [b, c, d] && [b, c, d] == [b] + [c, d] && [c, d] == [c] + [d] && [d] == [d] + [];
  }

  lemma FirstLayer(files: seq<StreamFile>, writable: seq<string>, category: string, rest: seq<string>)
    ensures LayersFor(files, writable, [category] + rest) == LayerOf(files, writable, category) + LayersFor(files, writable, rest)
  {
    hide LayerEntries, Group;
    assert ([category] + rest)[1..] == rest;
  }

  /** A group has exactly the files of its category, an empty one being "application". */
  lemma GroupMeans(files: seq<StreamFile>, category: string, f: StreamFile)
    ensures f in Group(files, category) <==> f in files && if f.category == "" then category == "application" else category == f.category
  {
    GroupMembers(files, category);
  }
}

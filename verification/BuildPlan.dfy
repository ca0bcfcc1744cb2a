/** The checks a build makes on its destinations, and the file list it hands to the layer writer. */
module BuildPlan {
  import opened Wrappers
  import opened Sorting
  import opened Paths
  import opened Layers
  import opened LayerSplit
  import opened LayerEquivalence

  /** Owner and group are 32-bit and count only if they are to be preserved. */
  datatype ExtraFile = ExtraFile(dest: string, content: Bytes, mode: int, category: string, preserveOwnership: bool, uid: nat, gid: nat)

  /** What a build is asked to put into its image. */
  datatype Options = Options(
    entrypoint: string,
    binary: Bytes,
    binaryMode: int,
    preserveBinaryOwnership: bool,
    binaryUid: nat,
    binaryGid: nat,
    identityFiles: bool,
    extras: seq<ExtraFile>)

  /** The destinations of the identity files, as the build writes them. */
  const IDENTITY_DESTS := ["etc/passwd", "etc/group", "etc/nsswitch.conf"]

  const DEFAULT_MODE := 365 // 0555
  const DATA_MODE := 292 // 0444
  const MAX_MODE := 4095 // 07777
  const MAX_OWNER := 0x7FFF_FFFF

  predicate ExtraAccepted(e: ExtraFile) {
    && CleanAbsolute(e.dest)
    && (e.category == "" || e.category in LAYER_ORDER)
    && 0 <= e.mode <= MAX_MODE
    && (e.preserveOwnership ==> e.uid <= MAX_OWNER && e.gid <= MAX_OWNER)
  }

  predicate BinaryAccepted(o: Options) {
    && 0 <= o.binaryMode <= MAX_MODE
    && (o.preserveBinaryOwnership ==> o.binaryUid <= MAX_OWNER && o.binaryGid <= MAX_OWNER)
  }

  /** Clean absolute destinations, known categories, no destination used twice, modes and owners in range. */
  predicate OptionsAccepted(o: Options) {
    DestinationsAccepted(o.entrypoint, o.extras) && BinaryAccepted(o)
  }

  predicate DestinationsAccepted(entrypoint: string, extras: seq<ExtraFile>) {
    && CleanAbsolute(entrypoint)
    && (forall i :: 0 <= i < |extras| ==> ExtraAccepted(extras[i]) && extras[i].dest != entrypoint)
    && (forall i, j :: 0 <= i < j < |extras| ==> extras[i].dest != extras[j].dest)
  }

  method CheckOptions(o: Options) returns (ok: bool)
    ensures ok == OptionsAccepted(o)
  {
    hide CleanAbsolute;
    var entrypoint, extras := o.entrypoint, o.extras;
    if !CleanAbsolute(entrypoint) {
      return false;
    }
    var seen := {entrypoint};
    for i := 0 to |extras|
      invariant seen == {entrypoint} + set k | 0 <= k < i :: extras[k].dest
      invariant DestinationsAccepted(entrypoint, extras[..i])
    {
      var e := extras[i];
      if !CleanAbsolute(e.dest) {
        return false;
      }
      if e.dest in seen {
        return false;
      }
      seen := seen + {e.dest};
      if e.category != "" && e.category !in LAYER_ORDER {
        return false;
      }
      if e.mode < 0 || e.mode > MAX_MODE {
        return false;
      }
      if e.preserveOwnership && (e.uid > MAX_OWNER || e.gid > MAX_OWNER) {
        return false;
      }
      assert extras[..i + 1] == extras[..i] + [e];
    }
    assert extras[..|extras|] == extras;
    if o.binaryMode < 0 || o.binaryMode > MAX_MODE {
      return false;
    }
    if o.preserveBinaryOwnership && (o.binaryUid > MAX_OWNER || o.binaryGid > MAX_OWNER) {
      return false;
    }
    return true;
  }

  function OwnershipValue(preserve: bool, value: nat): nat {
    if preserve then value else 0
  }

  function ExtraStream(e: ExtraFile): StreamFile {
    StreamFile(TrimSlash(e.dest), e.content, if e.mode == 0 then DEFAULT_MODE else e.mode,
               if e.category == "" then "application" else e.category, OwnershipValue(e.preserveOwnership, e.uid),
               OwnershipValue(e.preserveOwnership, e.gid))
  }

  function BinaryStream(o: Options): StreamFile {
    StreamFile(TrimSlash(o.entrypoint), o.binary, if o.binaryMode == 0 then DEFAULT_MODE else o.binaryMode, "application",
               OwnershipValue(o.preserveBinaryOwnership, o.binaryUid), OwnershipValue(o.preserveBinaryOwnership, o.binaryGid))
  }

  function IdentityStream(dest: string, content: Bytes): StreamFile {
    StreamFile(dest, content, DATA_MODE, "metadata", 0, 0)
  }

  function IdentityStreams(contents: seq<Bytes>): seq<StreamFile>
    requires |contents| == 3
  {
    [IdentityStream(IDENTITY_DESTS[0], contents[0]), IdentityStream(IDENTITY_DESTS[1], contents[1]),
     IdentityStream(IDENTITY_DESTS[2], contents[2])]
  }

  /** The entrypoint, the identity files if wanted, then the extra files; `contents` are the identity files' texts. */
  function BuildFiles(o: Options, contents: seq<Bytes>): seq<StreamFile>
    requires |contents| == 3
  {
    [BinaryStream(o)]
    + (if o.identityFiles then IdentityStreams(contents) else [])
    + seq(|o.extras|, i requires 0 <= i < |o.extras| => ExtraStream(o.extras[i]))
  }

  /** The build's own file list, appended to step by step. */
  method PlanFiles(o: Options, contents: seq<Bytes>) returns (files: seq<StreamFile>)
    requires |contents| == 3
    ensures files == BuildFiles(o, contents)
  {
    hide TrimSlash;
    var mode := o.binaryMode;
    if mode == 0 {
      mode := DEFAULT_MODE;
    }
    var entry := StreamFile(TrimSlash(o.entrypoint), o.binary, mode, "application", 0, 0);
    if o.preserveBinaryOwnership {
      entry := entry.(uid := o.binaryUid, gid := o.binaryGid);
    }
    files := [entry];
    if o.identityFiles {
      files := files + IdentityStreams(contents);
    }
    ghost var before := files;
    for i := 0 to |o.extras|
      invariant files == before + seq(i, k requires 0 <= k < i => ExtraStream(o.extras[k]))
    {
      var extra := o.extras[i];
      var extraMode := extra.mode;
      if extraMode == 0 {
        extraMode := DEFAULT_MODE;
      }
      var category := extra.category;
      if category == "" {
        category := "application";
      }
      files := files + [StreamFile(TrimSlash(extra.dest), extra.content, extraMode, category,
                                   OwnershipValue(extra.preserveOwnership, extra.uid), OwnershipValue(extra.preserveOwnership, extra.gid))];
    }
  }

  // ----- Destinations written twice -----

  /** No declared destination is one of the identity files. */
  predicate AvoidsIdentity(o: Options) {
    && TrimSlash(o.entrypoint) !in IDENTITY_DESTS
    && forall i :: 0 <= i < |o.extras| ==> TrimSlash(o.extras[i].dest) !in IDENTITY_DESTS
  }

  lemma TrimInjective(a: string, b: string)
    requires "/" <= a && "/" <= b && TrimSlash(a) == TrimSlash(b)
    ensures a == b
  {
    assert a == "/" + TrimSlash(a) && b == "/" + TrimSlash(b);
  }

  /**
   The accepted options do not rule out a destination written twice: the identity files are not
   part of the duplicate check.  The file list is duplicate-free exactly when no identity files
   are wanted or no declared destination is one of theirs.
   */
  lemma DestinationsDistinctIff(o: Options, contents: seq<Bytes>)
    requires |contents| == 3 && OptionsAccepted(o)
    ensures DistinctDests(BuildFiles(o, contents)) <==> (!o.identityFiles || AvoidsIdentity(o))
  {
    var files := BuildFiles(o, contents);
    if o.identityFiles && !AvoidsIdentity(o) {
      ClashIsListed(o, contents);
    } else {
      hide BuildFiles, DestinationsAccepted, AvoidsIdentity;
      BuildDests(o, contents);
      forall i, j | 0 <= i < j < |files| ensures files[i].dest != files[j].dest {
        DestsDiffer(o, i, j);
      }
    }
  }

  function Fixed(o: Options): nat {
    if o.identityFiles then 4 else 1
  }

  /** The destination written at position `i` of the file list. */
  function DestAt(o: Options, i: nat): string
    requires i < |o.extras| + Fixed(o)
  {
    var k := Fixed(o);
    if i >= k then TrimSlash(o.extras[i - k].dest) else if i == 0 then TrimSlash(o.entrypoint) else IDENTITY_DESTS[i - 1]
  }

  lemma BuildDests(o: Options, contents: seq<Bytes>)
    requires |contents| == 3
    ensures var files := BuildFiles(o, contents);
            && |files| == |o.extras| + Fixed(o)
            && forall i :: 0 <= i < |files| ==> files[i].dest == DestAt(o, i)
  {
    hide TrimSlash;
  }

  lemma DestsDiffer(o: Options, i: nat, j: nat)
    requires OptionsAccepted(o) && (!o.identityFiles || AvoidsIdentity(o))
    requires i < j < |o.extras| + Fixed(o)
    ensures DestAt(o, i) != DestAt(o, j)
  {
    hide CleanRelative;
    var k, extras := Fixed(o), o.extras;
    if i >= k {
      NeverEqual(extras[i - k].dest, extras[j - k].dest);
    } else if i == 0 && j >= k {
      NeverEqual(o.entrypoint, extras[j - k].dest);
    } else if j < k && i > 0 {
      IdentityDistinct(i - 1, j - 1);
    } else {
      assert i > 0 ==> IDENTITY_DESTS[i - 1] in IDENTITY_DESTS;
      assert j < k ==> IDENTITY_DESTS[j - 1] in IDENTITY_DESTS;
    }
  }

  lemma NeverEqual(a: string, b: string)
    requires "/" <= a && "/" <= b && a != b
    ensures TrimSlash(a) != TrimSlash(b)
  {
    if TrimSlash(a) == TrimSlash(b) {
      TrimInjective(a, b);
    }
  }

  lemma IdentityDistinct(i: nat, j: nat)
    requires i < j < 3
    ensures IDENTITY_DESTS[i] != IDENTITY_DESTS[j]
  {
    assert |IDENTITY_DESTS[0]| == 10 && |IDENTITY_DESTS[1]| == 9 && |IDENTITY_DESTS[2]| == 17;
  }

  lemma ClashIsListed(o: Options, contents: seq<Bytes>)
    requires |contents| == 3 && o.identityFiles && !AvoidsIdentity(o)
    ensures !DistinctDests(BuildFiles(o, contents))
  {
    var files, extras := BuildFiles(o, contents), o.extras;
    assert forall i :: 0 <= i < |extras| ==> files[4 + i] == ExtraStream(extras[i]);
    assert forall i :: 0 <= i < 3 ==> files[1 + i].dest == IDENTITY_DESTS[i];
    if TrimSlash(o.entrypoint) in IDENTITY_DESTS {
      var i :| 0 <= i < 3 && IDENTITY_DESTS[i] == TrimSlash(o.entrypoint);
      assert files[0].dest == files[1 + i].dest;
    } else {
      var j :| 0 <= j < |extras| && TrimSlash(extras[j].dest) in IDENTITY_DESTS;
      var i :| 0 <= i < 3 && IDENTITY_DESTS[i] == TrimSlash(extras[j].dest);
      assert files[4 + j].dest == files[1 + i].dest;
    }
  }

  /** An extra file at /etc/passwd beside the identity files: accepted, and written twice. */
  lemma PasswdExample(contents: seq<Bytes>) returns (o: Options)
    requires |contents| == 3
    ensures OptionsAccepted(o) && o.identityFiles && !DistinctDests(BuildFiles(o, contents))
  {
    var extra := ExtraFile("/etc/passwd", [], 0, "", false, 0, 0);
    o := Options("/app", [], 0, false, 0, 0, true, [extra]);
    PlainPaths();
    hide CleanAbsolute, BuildFiles;
    assert extra.dest != o.entrypoint by { assert |extra.dest| == 11 && |o.entrypoint| == 4; }
    assert OptionsAccepted(o);
    assert TrimSlash(extra.dest) == IDENTITY_DESTS[0];
    assert !AvoidsIdentity(o) by { assert o.extras[0] == extra; }
    DestinationsDistinctIff(o, contents);
  }

  lemma PlainPaths()
    ensures CleanAbsolute("/etc/passwd") && CleanAbsolute("/app")
  {
    hide Split, FirstSlash;
    assert "/etc/passwd"[1..] == "etc" + "/" + "passwd";
    SplitCons("etc", "passwd");
    SplitOne("passwd");
    assert "/app"[1..] == "app";
    SplitOne("app");
  }

  // ----- Accepted options through to the image -----

  lemma FixedCategories(f: StreamFile)
    requires f.category == "application" || f.category == "metadata"
    ensures CategoryOf(f) in LAYER_ORDER
  {
    assert "application" == LAYER_ORDER[2] && "metadata" == LAYER_ORDER[3];
  }

  lemma ExtraCategorized(e: ExtraFile)
    requires ExtraAccepted(e)
    ensures CategoryOf(ExtraStream(e)) in LAYER_ORDER
  {
    hide CleanAbsolute, TrimSlash;
    assert "application" == LAYER_ORDER[2];
  }

  lemma IdentityClean(i: nat)
    requires i < 3
    ensures CleanRelative(IDENTITY_DESTS[i])
  {
    hide Split, FirstSlash;
    var names := ["passwd", "group", "nsswitch.conf"];
    assert IDENTITY_DESTS[i] == "etc" + "/" + names[i];
    NoSlashes(names[i]);
    SplitCons("etc", names[i]);
    SplitOne(names[i]);
  }

  lemma NoSlashes(name: string)
    requires name == "passwd" || name == "group" || name == "nsswitch.conf"
    ensures '/' !in name && PlainSegment(name)
  {
    assert |name| > 2;
  }

  /** The file at position `i`: its layer is known and its destination is clean. */
  lemma FileAtPosition(o: Options, contents: seq<Bytes>, i: nat)
    requires |contents| == 3 && OptionsAccepted(o) && i < |BuildFiles(o, contents)|
    ensures CategoryOf(BuildFiles(o, contents)[i]) in LAYER_ORDER && CleanRelative(BuildFiles(o, contents)[i].dest)
  {
    hide CleanRelative, CategoryOf;
    var k, f := Fixed(o), BuildFiles(o, contents)[i];
    if i >= k {
      assert f == ExtraStream(o.extras[i - k]);
      ExtraCategorized(o.extras[i - k]);
    } else {
      FixedCategories(f);
      if i > 0 {
        IdentityClean(i - 1);
      }
    }
  }

  lemma PlanIsClean(o: Options, contents: seq<Bytes>)
    requires |contents| == 3 && OptionsAccepted(o)
    ensures CleanFiles(BuildFiles(o, contents)) && Categorized(BuildFiles(o, contents)) && BuildFiles(o, contents) != []
  {
    hide CleanRelative, CategoryOf, OptionsAccepted;
    var files := BuildFiles(o, contents);
    hide BuildFiles;
    forall i | 0 <= i < |files| ensures CategoryOf(files[i]) in LAYER_ORDER && CleanRelative(files[i].dest) {
      FileAtPosition(o, contents, i);
    }
  }

  /** What the checks leave to the caller: no path is both a file and a directory, no name is a whiteout, no identity clash. */
  ghost predicate Unambiguous(o: Options, contents: seq<Bytes>, writable: seq<string>)
    requires |contents| == 3
  {
    var files := BuildFiles(o, contents);
    && (!o.identityFiles || AvoidsIdentity(o))
    && (forall f :: f in files ==> f.dest + "/" !in DirectorySet(files, writable) && !Whiteout(f.dest))
    && (forall d :: d in DirectorySet(files, writable) ==> !Whiteout(Strip(d)))
  }

  lemma AcceptedIsLayerable(o: Options, contents: seq<Bytes>, writable: seq<string>)
    requires |contents| == 3 && OptionsAccepted(o) && Unambiguous(o, contents, writable)
    ensures Layerable(BuildFiles(o, contents), writable)
  {
    hide OptionsAccepted, BuildFiles, DirectorySet, AvoidsIdentity, Whiteout;
    PlanIsClean(o, contents);
    DestinationsDistinctIff(o, contents);
  }

  // ----- The image in terms of the options -----

  /** The image has this declared file: at its path, with its bytes, mode and owner; 0555 and root if none is given. */
  predicate Shows(fs: Filesystem, dest: string, content: Bytes, mode: int, preserve: bool, uid: nat, gid: nat) {
    && dest != "" && dest[1..] in fs
    && fs[dest[1..]] == Regular(content, if mode == 0 then 365 else mode, if preserve then uid else 0, if preserve then gid else 0)
  }

  predicate ShowsIdentity(fs: Filesystem, path: string, content: Bytes) {
    path in fs && fs[path] == Regular(content, 292, 0, 0)
  }

  /** Every file of the image is the entrypoint, an extra file or an identity file, each as declared. */
  ghost predicate ShowsOptions(fs: Filesystem, o: Options, contents: seq<Bytes>)
    requires |contents| == 3
  {
    && Shows(fs, o.entrypoint, o.binary, o.binaryMode, o.preserveBinaryOwnership, o.binaryUid, o.binaryGid)
    && (forall i :: 0 <= i < |o.extras| ==>
          var e := o.extras[i];
          Shows(fs, e.dest, e.content, e.mode, e.preserveOwnership, e.uid, e.gid))
    && (o.identityFiles ==>
          && ShowsIdentity(fs, "etc/passwd", contents[0]) && ShowsIdentity(fs, "etc/group", contents[1])
          && ShowsIdentity(fs, "etc/nsswitch.conf", contents[2]))
    && (forall p :: p in fs && fs[p].Regular? ==>
          || p == o.entrypoint[1..]
          || (exists i :: 0 <= i < |o.extras| && p == o.extras[i].dest[1..])
          || (o.identityFiles && (p == "etc/passwd" || p == "etc/group" || p == "etc/nsswitch.conf")))
  }

  /** The writable path `p` of the container, with or without its leading slash. */
  predicate IsWritable(writable: seq<string>, p: string) {
    exists i :: 0 <= i < |writable| && (writable[i] == "/" + p || (writable[i] == p && !("/" <= p)))
  }

  /** 0770 for a writable path, 01777 for the temporary directories, 0755 for every other directory. */
  predicate ModeIs(writable: seq<string>, p: string, mode: int) {
    mode == if IsWritable(writable, p) then 504 else if p == "tmp" || p == "var/tmp" then 1023 else 493
  }

  /** Every directory has its mode, and what lies above anything in the image is a directory of it. */
  ghost predicate ShowsDirectories(fs: Filesystem, writable: seq<string>) {
    && (forall p :: p in fs && fs[p].Directory? ==> ModeIs(writable, p, fs[p].mode))
    && (forall p, i :: p in fs && 0 <= i < |p| && p[i] == '/' ==> p[..i] in fs && fs[p[..i]].Directory?)
    && (forall d :: d in ["app", "etc", "etc/ssl", "etc/ssl/certs", "tmp", "var", "var/tmp"] ==> d in fs && fs[d].Directory?)
    && (forall i :: 0 <= i < |writable| ==> TrimSlash(writable[i]) in fs && fs[TrimSlash(writable[i])].Directory?)
    && (forall p :: p in fs && fs[p].Directory? ==> Wanted(fs, writable, p))
  }

  /** The directory is a fixed one, or something wanted is in it. */
  ghost predicate Wanted(fs: Filesystem, writable: seq<string>, p: string) {
    || p in ["app", "etc", "etc/ssl", "etc/ssl/certs", "tmp", "var", "var/tmp"]
    || (exists q :: q in fs && fs[q].Regular? && p + "/" <= q)
    || (exists i :: 0 <= i < |writable| && p + "/" <= TrimSlash(writable[i]) + "/")
  }

  lemma DirectoryWanted(files: seq<StreamFile>, writable: seq<string>, p: string)
    requires Layerable(files, writable) && p + "/" in DirectorySet(files, writable)
    ensures Wanted(Target(files, writable), writable, p)
  {
    hide Target, Layerable, DirMode;
    var d := p + "/";
    if d in BASE_DIRECTORIES {
      FixedNames(p);
    } else if d in FileDirectories(files) {
      var f :| f in files && d in SlashPrefixes(f.dest);
      var i :| 0 <= i < |files| && files[i] == f;
      TargetAt(files, writable, i);
      assert d <= f.dest;
    } else {
      var w :| w in writable && d in SlashPrefixes(TrimSlash(w) + "/");
      var i :| 0 <= i < |writable| && writable[i] == w;
      assert d <= TrimSlash(writable[i]) + "/";
    }
  }

  lemma FixedNames(p: string)
    requires p + "/" in BASE_DIRECTORIES
    ensures p in ["app", "etc", "etc/ssl", "etc/ssl/certs", "tmp", "var", "var/tmp"]
  {
    var d := p + "/";
    assert p == d[..|d| - 1];
    assert d == "app/" || d == "etc/" || d == "etc/ssl/" || d == "etc/ssl/certs/" || d == "tmp/" || d == "var/" || d == "var/tmp/";
    SlashCancels(p, "app");
    SlashCancels(p, "etc");
    SlashCancels(p, "etc/ssl");
    SlashCancels(p, "etc/ssl/certs");
    SlashCancels(p, "tmp");
    SlashCancels(p, "var");
    SlashCancels(p, "var/tmp");
  }

  lemma WritableMeans(writable: seq<string>, p: string)
    ensures (exists w :: w in writable && p + "/" == TrimSlash(w) + "/") <==> IsWritable(writable, p)
  {
    if exists w :: w in writable && p + "/" == TrimSlash(w) + "/" {
      var w :| w in writable && p + "/" == TrimSlash(w) + "/";
      assert p == (p + "/")[..|p|] == (TrimSlash(w) + "/")[..|p|] == TrimSlash(w);
      var i :| 0 <= i < |writable| && writable[i] == w;
      if "/" <= w {
        assert w == "/" + p;
      }
    }
    if IsWritable(writable, p) {
      var i :| 0 <= i < |writable| && (writable[i] == "/" + p || (writable[i] == p && !("/" <= p)));
      assert TrimSlash(writable[i]) == p && writable[i] in writable;
    }
  }

  lemma DirectoryAt(files: seq<StreamFile>, writable: seq<string>, p: string)
    requires p + "/" in DirectorySet(files, writable)
    ensures p in Target(files, writable) && Target(files, writable)[p].Directory?
    ensures ModeIs(writable, p, Target(files, writable)[p].mode)
  {
    hide DirectorySet, IsWritable;
    assert Strip(p + "/") == p;
    WritableMeans(writable, p);
    assert p + "/" == "tmp/" <==> p == "tmp" by { SlashCancels(p, "tmp"); }
    assert p + "/" == "var/tmp/" <==> p == "var/tmp" by { SlashCancels(p, "var/tmp"); }
  }

  lemma SlashCancels(a: string, b: string)
    ensures a + "/" == b + "/" <==> a == b
  {
    assert (a + "/")[..|a|] == a && (b + "/")[..|b|] == b;
  }

  lemma DirectoryOf(files: seq<StreamFile>, writable: seq<string>, p: string)
    requires p in Target(files, writable) && Target(files, writable)[p].Directory?
    ensures p + "/" in DirectorySet(files, writable)
  {
    hide DirectorySet, DirMode;
    if p in StrippedDirs(files, writable) {
      var d :| d in DirectorySet(files, writable) && Strip(d) == p;
      StripSlash(files, writable, d);
    }
  }

  lemma AboveIsDirectory(files: seq<StreamFile>, writable: seq<string>, p: string, i: nat)
    requires p in Target(files, writable) && i < |p| && p[i] == '/'
    ensures p[..i] + "/" in DirectorySet(files, writable)
  {
    hide DirMode;
    var d := p[..i] + "/";
    assert d == p[..i + 1] && d in SlashPrefixes(p);
    if p in Dests(files) {
      var f :| f in files && f.dest == p;
      assert d in FileDirectories(files);
    } else {
      var e :| e in DirectorySet(files, writable) && Strip(e) == p;
      StripSlash(files, writable, e);
      assert e[i] == '/' && e[..i + 1] == d;
      DirectoriesClosed(files, writable, e, d);
    }
  }

  lemma FixedDirectories(files: seq<StreamFile>, writable: seq<string>, d: string)
    requires d in ["app", "etc", "etc/ssl", "etc/ssl/certs", "tmp", "var", "var/tmp"]
    ensures d + "/" in DirectorySet(files, writable)
  {
    assert "app" + "/" == "app/" && "etc" + "/" == "etc/" && "etc/ssl" + "/" == "etc/ssl/" && "etc/ssl/certs" + "/" == "etc/ssl/certs/";
    assert "tmp" + "/" == "tmp/" && "var" + "/" == "var/" && "var/tmp" + "/" == "var/tmp/";
  }

  lemma WritableDirectory(files: seq<StreamFile>, writable: seq<string>, i: nat)
    requires i < |writable|
    ensures TrimSlash(writable[i]) + "/" in DirectorySet(files, writable)
  {
    var d := TrimSlash(writable[i]) + "/";
    assert d[|d| - 1] == '/' && d[..|d| - 1 + 1] == d;
    assert d in SlashPrefixes(d) && writable[i] in writable;
  }

  lemma TargetDirectories(files: seq<StreamFile>, writable: seq<string>)
    requires Layerable(files, writable)
    ensures ShowsDirectories(Target(files, writable), writable)
  {
    hide Target, DirectorySet, ModeIs, TrimSlash, Layerable, Wanted;
    var fs := Target(files, writable);
    forall p | p in fs && fs[p].Directory? ensures ModeIs(writable, p, fs[p].mode) && Wanted(fs, writable, p) {
      DirectoryOf(files, writable, p);
      DirectoryAt(files, writable, p);
      DirectoryWanted(files, writable, p);
    }
    forall p, i | p in fs && 0 <= i < |p| && p[i] == '/' ensures p[..i] in fs && fs[p[..i]].Directory? {
      AboveIsDirectory(files, writable, p, i);
      DirectoryAt(files, writable, p[..i]);
    }
    forall d | d in ["app", "etc", "etc/ssl", "etc/ssl/certs", "tmp", "var", "var/tmp"] ensures d in fs && fs[d].Directory? {
      FixedDirectories(files, writable, d);
      DirectoryAt(files, writable, d);
    }
    forall i | 0 <= i < |writable| ensures TrimSlash(writable[i]) in fs && fs[TrimSlash(writable[i])].Directory? {
      WritableDirectory(files, writable, i);
      DirectoryAt(files, writable, TrimSlash(writable[i]));
    }
  }

  lemma TargetAt(files: seq<StreamFile>, writable: seq<string>, i: nat)
    requires Layerable(files, writable) && i < |files|
    ensures files[i].dest in Target(files, writable)
    ensures Target(files, writable)[files[i].dest] == Regular(files[i].content, files[i].mode, files[i].uid, files[i].gid)
  {
    hide DirectorySet, Whiteout, DirMode, Categorized;
    var f := files[i];
    assert f in files && f.dest in Dests(files);
    UniqueFile(files, f, FileAt(files, f.dest));
  }

  /** A regular file of the target is one of the files. */
  lemma TargetFiles(files: seq<StreamFile>, writable: seq<string>, p: string) returns (i: nat)
    requires p in Target(files, writable) && Target(files, writable)[p].Regular?
    ensures i < |files| && files[i].dest == p
  {
    hide DirectorySet, DirMode;
    assert p in Dests(files);
    var f :| f in files && f.dest == p;
    i :| 0 <= i < |files| && files[i] == f;
  }

  lemma TargetShows(o: Options, contents: seq<Bytes>, writable: seq<string>)
    requires |contents| == 3 && OptionsAccepted(o) && Layerable(BuildFiles(o, contents), writable)
    ensures ShowsOptions(Target(BuildFiles(o, contents), writable), o, contents)
  {
    hide Layerable, Target, CleanRelative;
    var files, fs, k := BuildFiles(o, contents), Target(BuildFiles(o, contents), writable), Fixed(o);
    TargetAt(files, writable, 0);
    forall i | 0 <= i < |o.extras|
      ensures var e := o.extras[i];
              Shows(fs, e.dest, e.content, e.mode, e.preserveOwnership, e.uid, e.gid)
    {
      assert ExtraAccepted(o.extras[i]) && files[k + i] == ExtraStream(o.extras[i]);
      TargetAt(files, writable, k + i);
    }
    if o.identityFiles {
      TargetAt(files, writable, 1);
      TargetAt(files, writable, 2);
      TargetAt(files, writable, 3);
    }
    forall p | p in fs && fs[p].Regular?
      ensures || p == o.entrypoint[1..]
              || (exists i :: 0 <= i < |o.extras| && p == o.extras[i].dest[1..])
              || (o.identityFiles && (p == "etc/passwd" || p == "etc/group" || p == "etc/nsswitch.conf"))
    {
      var i := TargetFiles(files, writable, p);
      FileIsDeclared(o, contents, i);
    }
  }

  lemma FileIsDeclared(o: Options, contents: seq<Bytes>, i: nat)
    requires |contents| == 3 && OptionsAccepted(o) && i < |BuildFiles(o, contents)|
    ensures var p := BuildFiles(o, contents)[i].dest;
            || p == o.entrypoint[1..]
            || (exists i :: 0 <= i < |o.extras| && p == o.extras[i].dest[1..])
            || (o.identityFiles && (p == "etc/passwd" || p == "etc/group" || p == "etc/nsswitch.conf"))
  {
    hide CleanRelative;
    var k := Fixed(o);
    if i >= k {
      assert ExtraAccepted(o.extras[i - k]) && BuildFiles(o, contents)[i] == ExtraStream(o.extras[i - k]);
    }
  }

  /**
   From options to layers: refused exactly if the options are, and otherwise the layers, split or
   not, flatten to the image the options describe.
   */
  method BuildLayers(o: Options, contents: seq<Bytes>, writable: seq<string>, semantic: bool) returns (r: Option<seq<seq<Entry>>>)
    requires |contents| == 3
    requires forall i :: 0 <= i < |writable| ==> CleanRelative(TrimSlash(writable[i]))
    ensures r.Some? <==> OptionsAccepted(o)
    ensures r.Some? && Unambiguous(o, contents, writable) ==>
              && Flatten(r.value) == Target(BuildFiles(o, contents), writable)
              && ShowsOptions(Flatten(r.value), o, contents) && ShowsDirectories(Flatten(r.value), writable)
  {
    hide OptionsAccepted, BuildFiles, CleanRelative, CleanFiles, Target, Unambiguous, PlannedLayers, Layerable, Flatten, ShowsOptions, ShowsDirectories;
    var ok := CheckOptions(o);
    if !ok {
      return None;
    }
    var files := PlanFiles(o, contents);
    PlanIsClean(o, contents);
    var layers := WriteLayers(files, writable, semantic);
    if Unambiguous(o, contents, writable) {
      AcceptedIsLayerable(o, contents, writable);
      ImageIsTarget(files, writable, semantic);
      TargetShows(o, contents, writable);
      TargetDirectories(files, writable);
    }
    return Some(layers);
  }
}

/** The shared libraries of an entrypoint: every one that loading can reach must be provided. */
module Elf {
  import opened Wrappers
  import Paths

  datatype Extra = Extra(source: string, dest: string)

  datatype Info = Info(machine: nat, interpreter: string, needed: seq<string>)

  /** What reading a file as ELF gives. */
  datatype Inspection = Unreadable | NotElf | IsElf(info: Info)

  /** A file on the build host: `irregular` if it exists and is not a regular file. */
  datatype File = File(irregular: bool, elf: Inspection)

  const EM_X86_64 := 62
  const EM_AARCH64 := 183

  function MachineFor(architecture: string): nat {
    match architecture
    case "amd64" => EM_X86_64
    case "arm64" => EM_AARCH64
    case _ => 0
  }

  function TrimSlashes(p: string): (q: string)
    ensures q == "" || q[|q| - 1] != '/'
  {
    if p != "" && p[|p| - 1] == '/' then TrimSlashes(p[..|p| - 1]) else p
  }

  /** `path.Base`. */
  function BaseName(p: string): string {
    var q := TrimSlashes(p);
    if p == "" then "." else if q == "" then "/" else Paths.Base(q)
  }

  /** `strings.Contains`. */
  predicate Contains(s: string, part: string) {
    exists i :: 0 <= i <= |s| && part <= s[i..]
  }

  // ----- What acceptance means -----

  predicate ProfileOk(profile: string, entry: Info) {
    && (profile == "static" ==> entry.interpreter == "" && entry.needed == [])
    && (profile == "glibc" && entry.interpreter != "" ==> Contains(entry.interpreter, "ld-linux"))
    && (profile == "musl" && entry.interpreter != "" ==> Contains(entry.interpreter, "ld-musl"))
  }

  predicate MachineOk(architecture: string, entry: Info) {
    MachineFor(architecture) == 0 || entry.machine == MachineFor(architecture)
  }

  predicate InterpreterProvided(entry: Info, extras: seq<Extra>) {
    entry.interpreter == "" || exists i :: 0 <= i < |extras| && extras[i].dest == entry.interpreter
  }

  /** Some extra file is installed under the library's base name. */
  predicate Provided(extras: seq<Extra>, library: string) {
    exists i :: 0 <= i < |extras| && BaseName(extras[i].dest) == BaseName(library)
  }

  predicate AllProvided(extras: seq<Extra>, libraries: seq<string>) {
    forall i :: 0 <= i < |libraries| ==> Provided(extras, libraries[i])
  }

  /** A regular, readable file; if it is ELF then for the entrypoint's machine. */
  predicate SourceOk(file: File, entry: Info) {
    !file.irregular && !file.elf.Unreadable? && (file.elf.IsElf? ==> file.elf.info.machine == entry.machine)
  }

  predicate NeedsProvided(extras: seq<Extra>, file: File) {
    file.elf.IsElf? ==> AllProvided(extras, file.elf.info.needed)
  }

  /** Acceptance of an ELF entrypoint, without an order of checks. */
  predicate Accepts(entry: Info, architecture: string, profile: string, extras: seq<Extra>, files: string -> File) {
    && ProfileOk(profile, entry) && MachineOk(architecture, entry) && InterpreterProvided(entry, extras)
    && (forall i :: 0 <= i < |extras| ==> SourceOk(files(extras[i].source), entry) && NeedsProvided(extras, files(extras[i].source)))
    && AllProvided(extras, entry.needed)
  }

  // ----- The check -----

  ghost function Sources(extras: seq<Extra>): set<string> {
    set i | 0 <= i < |extras| :: extras[i].source
  }

  ghost function Names(extras: seq<Extra>): set<string> {
    set i | 0 <= i < |extras| :: BaseName(extras[i].dest)
  }

  method Tables(extras: seq<Extra>) returns (provided: map<string, bool>, bySource: map<string, string>)
    ensures provided.Keys == Names(extras) && bySource.Keys == Sources(extras)
  {
    hide Names, Sources, BaseName;
    provided, bySource := map[], map[];
    NoTables(extras);
    for i := 0 to |extras|
      invariant provided.Keys == Names(extras[..i]) && bySource.Keys == Sources(extras[..i])
    {
      TableStep(extras, i);
      provided := provided[BaseName(extras[i].dest) := true];
      bySource := bySource[extras[i].source := extras[i].dest];
    }
    assert extras[..|extras|] == extras;
  }

  lemma NoTables(extras: seq<Extra>)
    ensures Names(extras[..0]) == {} && Sources(extras[..0]) == {}
  {
  }

  lemma TableStep(extras: seq<Extra>, k: nat)
    requires k < |extras|
    ensures Names(extras[..k + 1]) == Names(extras[..k]) + {BaseName(extras[k].dest)}
    ensures Sources(extras[..k + 1]) == Sources(extras[..k]) + {extras[k].source}
  {
    hide BaseName;
    var done, more := extras[..k], extras[..k + 1];
    assert more == done + [extras[k]] && more[k] == extras[k];
    assert forall i :: 0 <= i < k ==> more[i] == done[i];
  }

  /** Every source once, in whatever order the map yields them. */
  method CollectRequired(entry: Info, extras: seq<Extra>, bySource: map<string, string>, files: string -> File) returns (r: Option<seq<string>>)
    requires bySource.Keys == Sources(extras)
    ensures r.Some? <==> forall s :: s in bySource ==> SourceOk(files(s), entry)
    ensures r.Some? ==> (AllProvided(extras, r.value) <==>
              AllProvided(extras, entry.needed) && forall s :: s in bySource ==> NeedsProvided(extras, files(s)))
  {
    hide Provided;
    var required := entry.needed;
    var unseen := bySource.Keys;
    while unseen != {}
      invariant unseen <= bySource.Keys
      invariant forall s :: s in bySource && s !in unseen ==> SourceOk(files(s), entry)
      invariant AllProvided(extras, required) <==>
                AllProvided(extras, entry.needed) && forall s :: s in bySource && s !in unseen ==> NeedsProvided(extras, files(s))
      decreases unseen
    {
      var source :| source in unseen;
      unseen := unseen - {source};
      var file := files(source);
      if file.irregular {
        return None;
      }
      if file.elf.Unreadable? {
        return None;
      }
      if file.elf.NotElf? {
        continue;
      }
      if file.elf.info.machine != entry.machine {
        return None;
      }
      BothProvided(extras, required, file.elf.info.needed);
      required := required + file.elf.info.needed;
    }
    return Some(required);
  }

  lemma BothProvided(extras: seq<Extra>, a: seq<string>, b: seq<string>)
    ensures AllProvided(extras, a + b) <==> AllProvided(extras, a) && AllProvided(extras, b)
  {
    hide Provided;
    if AllProvided(extras, a + b) {
      assert forall i :: 0 <= i < |a| ==> (a + b)[i] == a[i];
      forall i | 0 <= i < |b| ensures Provided(extras, b[i]) {
        assert (a + b)[|a| + i] == b[i];
      }
    }
  }

  /** Acceptance is a property of the inputs, not of the order in which the map is read. */
  method ValidateElfClosure(binary: Inspection, architecture: string, profile: string, extras: seq<Extra>, files: string -> File)
    returns (ok: bool)
    ensures ok <==> match binary
                    case Unreadable => false
                    case NotElf => true
                    case IsElf(entry) => Accepts(entry, architecture, profile, extras, files)
  {
    hide BaseName, Contains, AllProvided, SourceOk, NeedsProvided;
    if binary.Unreadable? {
      return false;
    }
    if binary.NotElf? {
      return true;
    }
    var entry := binary.info;
    if profile == "static" && (entry.interpreter != "" || |entry.needed| != 0) {
      return false;
    }
    if profile == "glibc" && entry.interpreter != "" && !Contains(entry.interpreter, "ld-linux") {
      return false;
    }
    if profile == "musl" && entry.interpreter != "" && !Contains(entry.interpreter, "ld-musl") {
      return false;
    }
    var want := MachineFor(architecture);
    if want != 0 && entry.machine != want {
      return false;
    }
    var provided, bySource := Tables(extras);
    if entry.interpreter != "" {
      var found := false;
      for i := 0 to |extras|
        invariant found <==> exists j :: 0 <= j < i && extras[j].dest == entry.interpreter
      {
        if extras[i].dest == entry.interpreter {
          found := true;
        }
      }
      if !found {
        return false;
      }
    }
    EachSource(extras, bySource, entry, files);
    var required := CollectRequired(entry, extras, bySource, files);
    if required.None? {
      return false;
    }
    ok := CheckRequired(required.value, extras, provided);
  }

  lemma EachSource(extras: seq<Extra>, bySource: map<string, string>, entry: Info, files: string -> File)
    requires bySource.Keys == Sources(extras)
    ensures (forall s :: s in bySource ==> SourceOk(files(s), entry)) <==>
            forall i :: 0 <= i < |extras| ==> SourceOk(files(extras[i].source), entry)
    ensures (forall s :: s in bySource ==> NeedsProvided(extras, files(s))) <==>
            forall i :: 0 <= i < |extras| ==> NeedsProvided(extras, files(extras[i].source))
  {
    hide SourceOk, NeedsProvided;
    assert forall i :: 0 <= i < |extras| ==> extras[i].source in bySource;
  }

  method CheckRequired(required: seq<string>, extras: seq<Extra>, provided: map<string, bool>) returns (ok: bool)
    requires provided.Keys == Names(extras)
    ensures ok <==> AllProvided(extras, required)
  {
    hide BaseName;
    for i := 0 to |required|
      invariant forall j :: 0 <= j < i ==> Provided(extras, required[j])
    {
      assert BaseName(required[i]) in Names(extras) <==> Provided(extras, required[i]);
      if BaseName(required[i]) !in provided {
        return false;
      }
    }
    return true;
  }

  // ----- What acceptance promises -----

  /** Loading `library` can load `next`: a file installed under its base name needs it. */
  ghost predicate Loads(extras: seq<Extra>, files: string -> File, library: string, next: string) {
    exists i :: 0 <= i < |extras| && BaseName(extras[i].dest) == BaseName(library)
                && files(extras[i].source).elf.IsElf? && next in files(extras[i].source).elf.info.needed
  }

  /** What the entrypoint itself brings in: its own needs, and those of its dynamic linker. */
  ghost predicate Root(entry: Info, extras: seq<Extra>, files: string -> File, library: string) {
    || library in entry.needed
    || exists i :: 0 <= i < |extras| && extras[i].dest == entry.interpreter
                   && files(extras[i].source).elf.IsElf? && library in files(extras[i].source).elf.info.needed
  }

  /** A chain of needed entries that starts at the entrypoint. */
  ghost predicate Chain(entry: Info, extras: seq<Extra>, files: string -> File, chain: seq<string>) {
    && chain != [] && Root(entry, extras, files, chain[0])
    && forall i :: 0 < i < |chain| ==> Loads(extras, files, chain[i - 1], chain[i])
  }

  ghost predicate ChainsClosed(entry: Info, extras: seq<Extra>, files: string -> File) {
    forall chain :: Chain(entry, extras, files, chain) ==> Provided(extras, chain[|chain| - 1])
  }

  lemma NeededIsProvided(extras: seq<Extra>, file: File, library: string)
    requires NeedsProvided(extras, file) && file.elf.IsElf? && library in file.elf.info.needed
    ensures Provided(extras, library)
  {
  }

  lemma NeedsProvidedCloses(entry: Info, extras: seq<Extra>, files: string -> File)
    requires AllProvided(extras, entry.needed)
    requires forall i :: 0 <= i < |extras| ==> NeedsProvided(extras, files(extras[i].source))
    ensures ChainsClosed(entry, extras, files)
  {
    hide BaseName, Provided, NeedsProvided;
    forall chain | Chain(entry, extras, files, chain) ensures Provided(extras, chain[|chain| - 1]) {
      var n := |chain| - 1;
      if n == 0 && chain[0] in entry.needed {
        var k :| 0 <= k < |entry.needed| && entry.needed[k] == chain[0];
      } else {
        var i := if n == 0 then LinkerNeeding(entry, extras, files, chain[0]) else FileNeeding(extras, files, chain[n - 1], chain[n]);
        NeededIsProvided(extras, files(extras[i].source), chain[n]);
      }
    }
  }

  /** Every library on every chain is provided, and every provided ELF file is for the entry's machine. */
  lemma AcceptedIsClosed(entry: Info, architecture: string, profile: string, extras: seq<Extra>, files: string -> File)
    requires Accepts(entry, architecture, profile, extras, files)
    ensures ChainsClosed(entry, extras, files)
    ensures forall i :: 0 <= i < |extras| && files(extras[i].source).elf.IsElf? ==> files(extras[i].source).elf.info.machine == entry.machine
  {
    NeedsProvidedCloses(entry, extras, files);
  }

  ghost function FileNeeding(extras: seq<Extra>, files: string -> File, library: string, next: string): (i: nat)
    requires Loads(extras, files, library, next)
    ensures i < |extras| && files(extras[i].source).elf.IsElf? && next in files(extras[i].source).elf.info.needed
  {
    var i :| 0 <= i < |extras| && BaseName(extras[i].dest) == BaseName(library)
             && files(extras[i].source).elf.IsElf? && next in files(extras[i].source).elf.info.needed;
    i
  }

  ghost function LinkerNeeding(entry: Info, extras: seq<Extra>, files: string -> File, library: string): (i: nat)
    requires Root(entry, extras, files, library) && library !in entry.needed
    ensures i < |extras| && files(extras[i].source).elf.IsElf? && library in files(extras[i].source).elf.info.needed
  {
    var i :| 0 <= i < |extras| && extras[i].dest == entry.interpreter
             && files(extras[i].source).elf.IsElf? && library in files(extras[i].source).elf.info.needed;
    i
  }

  /** The extra file is the dynamic linker or is loaded at the end of some chain. */
  ghost predicate Reached(entry: Info, extras: seq<Extra>, files: string -> File, extra: Extra) {
    || extra.dest == entry.interpreter
    || exists chain :: Chain(entry, extras, files, chain) && BaseName(chain[|chain| - 1]) == BaseName(extra.dest)
  }

  /**
   With no extra file that loading never reaches, the check of all files at once decides
   exactly whether the libraries that loading reaches are all provided.
   */
  lemma ClosedIffNeedsProvided(entry: Info, extras: seq<Extra>, files: string -> File)
    requires forall i :: 0 <= i < |extras| ==> Reached(entry, extras, files, extras[i])
    ensures ChainsClosed(entry, extras, files) <==>
            AllProvided(extras, entry.needed) && forall i :: 0 <= i < |extras| ==> NeedsProvided(extras, files(extras[i].source))
  {
    hide BaseName, Provided;
    if ChainsClosed(entry, extras, files) {
      forall k | 0 <= k < |entry.needed| ensures Provided(extras, entry.needed[k]) {
        assert Chain(entry, extras, files, [entry.needed[k]]);
      }
      forall i | 0 <= i < |extras| ensures NeedsProvided(extras, files(extras[i].source)) {
        ReachedNeeds(entry, extras, files, i);
      }
    }
    if AllProvided(extras, entry.needed) && forall i :: 0 <= i < |extras| ==> NeedsProvided(extras, files(extras[i].source)) {
      NeedsProvidedCloses(entry, extras, files);
    }
  }

  lemma ReachedNeeds(entry: Info, extras: seq<Extra>, files: string -> File, i: nat)
    requires i < |extras| && Reached(entry, extras, files, extras[i]) && ChainsClosed(entry, extras, files)
    ensures NeedsProvided(extras, files(extras[i].source))
  {
    hide BaseName, Provided;
    var file := files(extras[i].source);
    if file.elf.IsElf? {
      var needed := file.elf.info.needed;
      forall k | 0 <= k < |needed| ensures Provided(extras, needed[k]) {
        if extras[i].dest == entry.interpreter {
          assert Chain(entry, extras, files, [needed[k]]);
        } else {
          var chain :| Chain(entry, extras, files, chain) && BaseName(chain[|chain| - 1]) == BaseName(extras[i].dest);
          assert needed[k] in needed;
          assert Loads(extras, files, chain[|chain| - 1], needed[k]);
          var more := chain + [needed[k]];
          assert Chain(entry, extras, files, more);
          assert more[|more| - 1] == needed[k];
        }
      }
    }
  }

  // ----- The names and codes the check rests on -----

  lemma {:induction false} TrimmedIs(p: string, slashes: string)
    requires (p == "" || p[|p| - 1] != '/') && forall i :: 0 <= i < |slashes| ==> slashes[i] == '/'
    ensures TrimSlashes(p + slashes) == p
  {
    if slashes == "" {
      assert p + slashes == p;
    } else {
      var n := |slashes| - 1;
      assert (p + slashes)[..|p + slashes| - 1] == p + slashes[..n];
      TrimmedIs(p, slashes[..n]);
    }
  }

  /** The base name is what follows the last slash, trailing slashes aside. */
  lemma BaseNameMeans(dir: string, base: string, slashes: string)
    requires base != "" && '/' !in base && forall i :: 0 <= i < |slashes| ==> slashes[i] == '/'
    ensures BaseName(base + slashes) == base && BaseName(dir + "/" + base + slashes) == base
    ensures BaseName("") == "." && (slashes != "" ==> BaseName(slashes) == "/")
  {
    assert base[|base| - 1] in base;
    var p := dir + "/" + base;
    assert p[|p| - 1] == base[|base| - 1];
    TrimmedIs(base, slashes);
    TrimmedIs(p, slashes);
    TrimmedIs("", slashes);
    assert "" + slashes == slashes;
    Paths.BaseStartAfter(dir, base);
    Paths.BaseStartAlone(base);
    assert p[|dir| + 1..] == base && base[0..] == base;
  }

  /** A part is contained exactly if the string can be cut around it. */
  lemma ContainsMeans(s: string, part: string)
    ensures Contains(s, part) <==> exists a, b :: s == a + part + b
  {
    if Contains(s, part) {
      var i :| 0 <= i <= |s| && part <= s[i..];
      assert s == s[..i] + part + s[i + |part|..];
    }
    if exists a, b :: s == a + part + b {
      var a, b :| s == a + part + b;
      assert s[|a|..] == part + b;
    }
  }

  /** The machine codes of the ELF format for the two architectures; any other is not checked. */
  lemma MachineMeans(architecture: string)
    ensures MachineFor(architecture) == if architecture == "amd64" then 62 else if architecture == "arm64" then 183 else 0
  {
  }

  /** Acceptance, with the profile and architecture rules written out. */
  lemma AcceptedMeans(entry: Info, architecture: string, profile: string, extras: seq<Extra>, files: string -> File)
    requires Accepts(entry, architecture, profile, extras, files)
    ensures profile == "static" ==> entry.interpreter == "" && entry.needed == []
    ensures profile == "glibc" && entry.interpreter != "" ==> exists a, b :: entry.interpreter == a + "ld-linux" + b
    ensures profile == "musl" && entry.interpreter != "" ==> exists a, b :: entry.interpreter == a + "ld-musl" + b
    ensures architecture == "amd64" ==> entry.machine == 62
    ensures architecture == "arm64" ==> entry.machine == 183
    ensures entry.interpreter != "" ==> exists i :: 0 <= i < |extras| && extras[i].dest == entry.interpreter
    ensures forall i :: 0 <= i < |extras| ==> !files(extras[i].source).irregular && !files(extras[i].source).elf.Unreadable?
  {
    hide Contains, NeedsProvided, AllProvided;
    ContainsMeans(entry.interpreter, "ld-linux");
    ContainsMeans(entry.interpreter, "ld-musl");
  }
}

/** Docker Save archives: verifying one without extracting it. */
module DockerArchive {
  import opened Wrappers
  import Paths
  import Store

  const MAX_FILES := 10000
  const MAX_TOTAL_BYTES := 0x8000_0000
  const MAX_ENTRY_BYTES := 0x4000_0000
  const MAX_JSON_BYTES := 0x100_0000
  const MANIFEST := "manifest.json"

  /** A tar entry: its header and the bytes that can be read for it. */
  datatype Entry = Entry(header: string, regular: bool, size: int, data: Bytes)

  /** The entries of a tar stream, and whether the stream then ends properly. */
  datatype Archive = Archive(entries: seq<Entry>, complete: bool)

  datatype Image = Image(config: string, tags: seq<string>, layers: seq<string>)

  datatype Report = Report(images: nat, layers: nat, tags: seq<string>)

  /** `strings.TrimSuffix(header.Name, "/")`. */
  function Name(e: Entry): string {
    if e.header != "" && e.header[|e.header| - 1] == '/' then e.header[..|e.header| - 1] else e.header
  }

  /** A non-empty relative path that `path.Clean` keeps, does not climb and holds no NUL. */
  predicate SafeName(name: string) {
    (name == "." || Paths.CleanRelative(name)) && '\0' !in name
  }

  /** Where the extension of a base name begins. */
  function ExtStart(base: string): (i: nat)
    ensures i <= |base|
  {
    LastDot(base, |base|)
  }

  function LastDot(base: string, i: nat): (k: nat)
    requires i <= |base|
    ensures k <= |base|
  {
    if i == 0 then |base| else if base[i - 1] == '.' then i - 1 else LastDot(base, i - 1)
  }

  /** The base name without its extension. */
  function Stem(name: string): string {
    var base := Paths.Base(name);
    base[..ExtStart(base)]
  }

  predicate LowerHex(s: string) {
    forall i :: 0 <= i < |s| ==> '0' <= s[i] <= '9' || 'a' <= s[i] <= 'f'
  }

  predicate ValidTag(tag: string) {
    tag != "" && '\0' !in tag && '\r' !in tag && '\n' !in tag
  }

  // ----- What acceptance means, without an order of checks -----

  predicate EntryOk(e: Entry) {
    && SafeName(Name(e)) && e.regular && 0 <= e.size <= MAX_ENTRY_BYTES && |e.data| == e.size
    && (Name(e) == MANIFEST ==> e.size <= MAX_JSON_BYTES)
  }

  function TotalSize(es: seq<Entry>): int {
    if es == [] then 0 else TotalSize(es[..|es| - 1]) + es[|es| - 1].size
  }

  predicate NamesDistinct(es: seq<Entry>) {
    forall i, j :: 0 <= i < j < |es| ==> Name(es[i]) != Name(es[j])
  }

  predicate EntriesOk(es: seq<Entry>) {
    && (forall i :: 0 <= i < |es| ==> EntryOk(es[i]))
    && NamesDistinct(es) && |es| <= MAX_FILES && TotalSize(es) <= MAX_TOTAL_BYTES
  }

  /** A referenced file is present, and a content-addressed name is the hash of its bytes. */
  predicate ReferenceOk(hash: Bytes -> string, es: seq<Entry>, name: string) {
    && SafeName(name)
    && exists i :: 0 <= i < |es| && Name(es[i]) == name
         && (|Stem(name)| == 64 ==> LowerHex(Stem(name)) && hash(es[i].data) == Stem(name))
  }

  predicate ImageOk(hash: Bytes -> string, es: seq<Entry>, image: Image) {
    && ReferenceOk(hash, es, image.config) && image.layers != []
    && (forall i :: 0 <= i < |image.layers| ==> ReferenceOk(hash, es, image.layers[i]))
    && (forall i :: 0 <= i < |image.tags| ==> ValidTag(image.tags[i]))
  }

  predicate ImagesOk(hash: Bytes -> string, es: seq<Entry>, images: seq<Image>) {
    images != [] && forall i :: 0 <= i < |images| ==> ImageOk(hash, es, images[i])
  }

  /** The bytes of the manifest entry; none is the same as an empty one. */
  function ManifestBytes(es: seq<Entry>): Bytes {
    if es == [] then []
    else if Name(es[|es| - 1]) == MANIFEST then es[|es| - 1].data
    else ManifestBytes(es[..|es| - 1])
  }

  /** Acceptance; `decode` reads exactly one list of images and refuses anything else. */
  predicate Accepts(hash: Bytes -> string, decode: Bytes -> Option<seq<Image>>, a: Archive) {
    && a.complete && EntriesOk(a.entries)
    && ManifestBytes(a.entries) != []
    && decode(ManifestBytes(a.entries)).Some?
    && ImagesOk(hash, a.entries, decode(ManifestBytes(a.entries)).value)
  }

  function LayerCount(images: seq<Image>): nat {
    if images == [] then 0 else LayerCount(images[..|images| - 1]) + |images[|images| - 1].layers|
  }

  function Tags(images: seq<Image>): seq<string> {
    if images == [] then [] else Tags(images[..|images| - 1]) + images[|images| - 1].tags
  }

  /** At most 10000 entries of at most 1 GiB each and 2 GiB in all, the manifest at most 16 MiB. */
  predicate WithinLimits(es: seq<Entry>) {
    && |es| <= 10000 && TotalSize(es) <= 2 * 1024 * 1024 * 1024
    && forall i :: 0 <= i < |es| ==>
         && es[i].regular && |es[i].data| == es[i].size <= 1024 * 1024 * 1024
         && (es[i].header == "manifest.json" ==> es[i].size <= 16 * 1024 * 1024)
  }

  lemma LimitsHold(es: seq<Entry>)
    ensures EntriesOk(es) ==> WithinLimits(es)
  {
    hide SafeName, TotalSize;
    if EntriesOk(es) {
      forall i | 0 <= i < |es|
        ensures es[i].regular && |es[i].data| == es[i].size <= 1024 * 1024 * 1024
        ensures es[i].header == "manifest.json" ==> es[i].size <= 16 * 1024 * 1024
      {
        assert EntryOk(es[i]);
      }
    }
  }

  // ----- The verifier -----

  /** The maps the scan fills describe the entries it has read. */
  predicate Indexed(hash: Bytes -> string, es: seq<Entry>, digests: map<string, string>) {
    && (forall n :: n in digests ==> exists i :: 0 <= i < |es| && Name(es[i]) == n && digests[n] == hash(es[i].data))
    && (forall i :: 0 <= i < |es| ==> Name(es[i]) in digests && digests[Name(es[i])] == hash(es[i].data))
  }

  lemma IndexedStep(hash: Bytes -> string, es: seq<Entry>, e: Entry, digests: map<string, string>)
    requires Indexed(hash, es, digests) && Name(e) !in digests
    ensures Indexed(hash, es + [e], digests[Name(e) := hash(e.data)])
  {
    hide Name;
    var more, after := es + [e], digests[Name(e) := hash(e.data)];
    assert more[|es|] == e && forall i :: 0 <= i < |es| ==> more[i] == es[i];
    forall n | n in after ensures exists i :: 0 <= i < |more| && Name(more[i]) == n && after[n] == hash(more[i].data) {
      if n != Name(e) {
        var i :| 0 <= i < |es| && Name(es[i]) == n && digests[n] == hash(es[i].data);
        assert more[i] == es[i];
      }
    }
  }

  lemma {:induction false} TotalGrows(es: seq<Entry>, k: nat)
    requires k <= |es| && forall i :: 0 <= i < |es| ==> es[i].size >= 0
    ensures 0 <= TotalSize(es[..k]) <= TotalSize(es)
    decreases |es|
  {
    if es == [] {
    } else if k == |es| {
      assert es[..k] == es;
      TotalGrows(es[..k - 1], 0);
    } else {
      var front := es[..|es| - 1];
      assert front[..k] == es[..k];
      TotalGrows(front, k);
    }
  }

  /** An accepted list of entries has only acceptable prefixes. */
  lemma PrefixOk(es: seq<Entry>, k: nat)
    requires EntriesOk(es) && k <= |es|
    ensures EntriesOk(es[..k])
  {
    hide EntryOk, Name;
    assert forall i :: 0 <= i < |es| ==> es[i].size >= 0 by {
      forall i | 0 <= i < |es| ensures es[i].size >= 0 { EntrySize(es[i]); }
    }
    TotalGrows(es, k);
  }

  lemma EntrySize(e: Entry)
    requires EntryOk(e)
    ensures 0 <= e.size
  {
  }

  predicate NewName(es: seq<Entry>, e: Entry) {
    forall i :: 0 <= i < |es| ==> Name(es[i]) != Name(e)
  }

  lemma NameIsNew(hash: Bytes -> string, es: seq<Entry>, e: Entry, digests: map<string, string>)
    requires Indexed(hash, es, digests)
    ensures Name(e) !in digests <==> NewName(es, e)
  {
    hide Name;
  }

  lemma Totals(es: seq<Entry>, e: Entry)
    ensures TotalSize(es + [e]) == TotalSize(es) + e.size
    ensures ManifestBytes(es + [e]) == if Name(e) == MANIFEST then e.data else ManifestBytes(es)
  {
    hide Name;
    assert (es + [e])[..|es|] == es;
  }

  /** One more entry: what the scan decides at each step. */
  lemma OneMore(es: seq<Entry>, e: Entry)
    requires EntriesOk(es)
    ensures EntriesOk(es + [e]) <==>
            EntryOk(e) && |es| < MAX_FILES && TotalSize(es) + e.size <= MAX_TOTAL_BYTES
            && NewName(es, e)
  {
    hide EntryOk, Name;
    var more := es + [e];
    assert more[..|es|] == es && more[|es|] == e;
    assert forall i :: 0 <= i < |es| ==> more[i] == es[i];
  }

  lemma ScanStart(hash: Bytes -> string)
    ensures EntriesOk([]) && Indexed(hash, [], map[]) && TotalSize([]) == 0 && ManifestBytes([]) == []
  {
  }

  /** What reading entry `k` changes, and why refusing it refuses the whole archive. */
  lemma ScanStep(hash: Bytes -> string, es: seq<Entry>, k: nat, digests: map<string, string>)
    requires k < |es| && EntriesOk(es[..k]) && Indexed(hash, es[..k], digests)
    ensures var e, next := es[k], es[..k + 1];
            && TotalSize(next) == TotalSize(es[..k]) + e.size
            && ManifestBytes(next) == (if Name(e) == MANIFEST then e.data else ManifestBytes(es[..k]))
            && (EntriesOk(es) ==> EntriesOk(next))
            && (EntriesOk(next) <==> EntryOk(e) && k < MAX_FILES && TotalSize(next) <= MAX_TOTAL_BYTES && Name(e) !in digests)
            && (Name(e) !in digests ==> Indexed(hash, next, digests[Name(e) := hash(e.data)]))
  {
    hide EntriesOk, Indexed, EntryOk, Name, TotalSize, ManifestBytes;
    var done, e := es[..k], es[k];
    assert es[..k + 1] == done + [e];
    Totals(done, e);
    OneMore(done, e);
    if EntriesOk(es) {
      PrefixOk(es, k + 1);
    }
    NameIsNew(hash, done, e, digests);
    if Name(e) !in digests {
      IndexedStep(hash, done, e, digests);
    }
  }

  /**
   Read every entry once, checking and hashing it. The running total stays within its
   limit at every point, also when the scan stops with an error.
   */
  method Scan(a: Archive, hash: Bytes -> string)
    returns (ok: bool, digests: map<string, string>, manifest: Bytes, total: int)
    ensures ok <==> a.complete && EntriesOk(a.entries)
    ensures 0 <= total <= MAX_TOTAL_BYTES
    ensures ok ==> Indexed(hash, a.entries, digests) && manifest == ManifestBytes(a.entries) && total == TotalSize(a.entries)
  {
    digests, manifest, total := map[], [], 0;
    var es := a.entries;
    var files := 0;
    ok := false;
    hide EntriesOk, Indexed, Name, SafeName, TotalSize, ManifestBytes;
    ScanStart(hash);
    assert es[..0] == [];
    for k := 0 to |es|
      invariant EntriesOk(es[..k]) && Indexed(hash, es[..k], digests)
      invariant files == k && total == TotalSize(es[..k]) && 0 <= total <= MAX_TOTAL_BYTES
      invariant manifest == ManifestBytes(es[..k])
    {
      var e := es[k];
      var name := Name(e);
      ScanStep(hash, es, k, digests);
      if !SafeName(name) {
        return;
      }
      if name in digests {
        return;
      }
      if !e.regular {
        return;
      }
      files := files + 1;
      if files > MAX_FILES || e.size < 0 || e.size > MAX_ENTRY_BYTES || e.size > MAX_TOTAL_BYTES - total {
        return;
      }
      total := total + e.size;
      if name == MANIFEST && e.size > MAX_JSON_BYTES {
        return;
      }
      if |e.data| != e.size {
        return;
      }
      digests := digests[name := hash(e.data)];
      if name == MANIFEST {
        manifest := e.data;
      }
    }
    assert es[..|es|] == es;
    ok := a.complete;
  }

  /** `validateReference`. */
  predicate ValidateReference(name: string, digests: map<string, string>) {
    && SafeName(name) && name in digests
    && (|Stem(name)| == 64 ==> LowerHex(Stem(name)) && digests[name] == Stem(name))
  }

  lemma ReferenceChecked(hash: Bytes -> string, es: seq<Entry>, digests: map<string, string>, name: string)
    requires Indexed(hash, es, digests)
    ensures ValidateReference(name, digests) <==> ReferenceOk(hash, es, name)
  {
    hide Name, Stem, SafeName, LowerHex;
  }

  method CheckImages(images: seq<Image>, digests: map<string, string>, hash: Bytes -> string, ghost es: seq<Entry>)
    returns (r: Option<Report>)
    requires Indexed(hash, es, digests)
    ensures r.Some? <==> forall i :: 0 <= i < |images| ==> ImageOk(hash, es, images[i])
    ensures r.Some? ==> r.value == Report(|images|, LayerCount(images), Tags(images))
  {
    hide Indexed, ReferenceOk, ValidateReference, ValidTag;
    var layers, tags := 0, [];
    for k := 0 to |images|
      invariant forall i :: 0 <= i < k ==> ImageOk(hash, es, images[i])
      invariant layers == LayerCount(images[..k]) && tags == Tags(images[..k])
    {
      var image := images[k];
      assert images[..k + 1][..k] == images[..k];
      ReferenceChecked(hash, es, digests, image.config);
      if !ValidateReference(image.config, digests) {
        return None;
      }
      if image.layers == [] {
        return None;
      }
      for j := 0 to |image.layers|
        invariant forall i :: 0 <= i < j ==> ReferenceOk(hash, es, image.layers[i])
        invariant layers == LayerCount(images[..k]) + j
      {
        ReferenceChecked(hash, es, digests, image.layers[j]);
        if !ValidateReference(image.layers[j], digests) {
          return None;
        }
        layers := layers + 1;
      }
      for j := 0 to |image.tags|
        invariant forall i :: 0 <= i < j ==> ValidTag(image.tags[i])
        invariant tags == Tags(images[..k]) + image.tags[..j]
      {
        if !ValidTag(image.tags[j]) {
          return None;
        }
        tags := tags + [image.tags[j]];
      }
      assert image.tags[..|image.tags|] == image.tags;
    }
    assert images[..|images|] == images;
    return Some(Report(|images|, layers, tags));
  }

  /** `Verify`: acceptance does not depend on the order of the entries' checks. */
  method Verify(a: Archive, hash: Bytes -> string, decode: Bytes -> Option<seq<Image>>) returns (r: Option<Report>)
    ensures r.Some? <==> Accepts(hash, decode, a)
    ensures r.Some? ==> var images := decode(ManifestBytes(a.entries)).value;
                        r.value == Report(|images|, LayerCount(images), Tags(images))
    ensures r.Some? ==> WithinLimits(a.entries)
  {
    LimitsHold(a.entries);
    hide EntriesOk, Indexed, ImageOk, WithinLimits;
    var ok, digests, manifest, total := Scan(a, hash);
    if !ok || manifest == [] {
      return None;
    }
    var images := decode(manifest);
    if images.None? || images.value == [] {
      return None;
    }
    r := CheckImages(images.value, digests, hash, a.entries);
  }

  // ----- What acceptance promises -----

  /** Every file an image refers to. */
  ghost function References(images: seq<Image>): set<string> {
    set i, n | 0 <= i < |images| && n in [images[i].config] + images[i].layers :: n
  }

  /** The bytes under a name. */
  function DataOf(es: seq<Entry>, name: string): Option<Bytes> {
    if es == [] then None
    else if Name(es[|es| - 1]) == name then Some(es[|es| - 1].data)
    else DataOf(es[..|es| - 1], name)
  }

  lemma {:induction false} DataAt(es: seq<Entry>, i: nat)
    requires i < |es| && NamesDistinct(es)
    ensures DataOf(es, Name(es[i])) == Some(es[i].data)
    decreases |es|
  {
    var n := |es| - 1;
    if i < n {
      DataAt(es[..n], i);
    }
  }

  /** In an accepted archive every reference is present, and a 64-character stem is its hash. */
  lemma AcceptedReferences(hash: Bytes -> string, decode: Bytes -> Option<seq<Image>>, a: Archive, name: string)
    requires Accepts(hash, decode, a) && name in References(decode(ManifestBytes(a.entries)).value)
    ensures DataOf(a.entries, name).Some?
    ensures |Stem(name)| == 64 ==> hash(DataOf(a.entries, name).value) == Stem(name)
  {
    hide Stem, SafeName, LowerHex, EntryOk, ValidTag;
    var images := decode(ManifestBytes(a.entries)).value;
    var i :| 0 <= i < |images| && name in [images[i].config] + images[i].layers;
    assert ImageOk(hash, a.entries, images[i]);
    assert ReferenceOk(hash, a.entries, name);
    var k :| 0 <= k < |a.entries| && Name(a.entries[k]) == name
             && (|Stem(name)| == 64 ==> LowerHex(Stem(name)) && hash(a.entries[k].data) == Stem(name));
    DataAt(a.entries, k);
  }

  /**
   The manifest pins the content: two accepted archives with the same manifest agree on
   every content-addressed reference, unless the hash collides on the two contents.
   */
  lemma ManifestPinsContent(hash: Bytes -> string, decode: Bytes -> Option<seq<Image>>, a: Archive, b: Archive, name: string)
    requires Accepts(hash, decode, a) && Accepts(hash, decode, b)
    requires ManifestBytes(a.entries) == ManifestBytes(b.entries)
    requires name in References(decode(ManifestBytes(a.entries)).value) && |Stem(name)| == 64
    ensures DataOf(a.entries, name).Some? && DataOf(b.entries, name).Some?
    ensures var x, y := DataOf(a.entries, name).value, DataOf(b.entries, name).value;
            x == y || Store.Collides(hash, x, y)
  {
    hide Accepts, Stem;
    AcceptedReferences(hash, decode, a, name);
    AcceptedReferences(hash, decode, b, name);
  }

  // ----- What names and totals mean -----

  lemma {:induction false} LastDotAt(base: string, k: nat, i: nat)
    requires k < i <= |base| && base[k] == '.' && forall j :: k < j < i ==> base[j] != '.'
    ensures LastDot(base, i) == k
  {
    if i - 1 > k {
      LastDotAt(base, k, i - 1);
    }
  }

  /** The stem of a file name is what stands between the last slash and the last dot after it. */
  lemma StemMeans(dir: string, stem: string, ext: string)
    requires '/' !in stem && '/' !in ext && '.' !in ext
    ensures Stem(dir + "/" + stem + "." + ext) == stem
  {
    var base := stem + "." + ext;
    assert dir + "/" + stem + "." + ext == dir + "/" + base;
    Paths.BaseStartAfter(dir, base);
    assert (dir + "/" + base)[|dir| + 1..] == base;
    LastDotAt(base, |stem|, |base|);
    assert base[..|stem|] == stem;
  }

  /** One slash at the end of a header name is dropped. */
  lemma NameMeans(e: Entry, name: string)
    ensures e.header == name + "/" ==> Name(e) == name
    ensures e.header == name && (name == "" || name[|name| - 1] != '/') ==> Name(e) == name
  {
    if e.header == name + "/" {
      assert e.header[..|e.header| - 1] == name;
    }
  }

  /** Totals over one more entry or image. */
  lemma CountsMean(images: seq<Image>, image: Image)
    ensures LayerCount([]) == 0 && Tags([]) == []
    ensures LayerCount(images + [image]) == LayerCount(images) + |image.layers| && Tags(images + [image]) == Tags(images) + image.tags
  {
    assert (images + [image])[..|images|] == images;
  }

  /** Names that climb, start at the root, have empty or dot segments or hold a NUL are not safe. */
  lemma UnsafeNames(a: string, segment: string, b: string)
    requires segment == "" || segment == ".."
    ensures !SafeName(segment) && !SafeName(segment + "/" + b) && !SafeName(a + "/" + segment) && !SafeName(a + "/" + segment + "/" + b)
    ensures !SafeName(a + "\0" + b)
  {
    hide Paths.CleanRelative;
    Paths.UncleanPaths(a, segment, b);
    assert (a + "/" + segment)[|a|] == '/' && (segment + "/" + b)[|segment|] == '/' && (a + "/" + segment + "/" + b)[|a|] == '/';
    assert (a + "\0" + b)[|a|] == '\0';
  }
}

/** Transposing an OCI layout into a Docker Save archive, and why the verifier accepts it. */
module DockerSave {
  import opened Wrappers
  import opened DockerArchive
  import Paths
  import Sorting

  datatype Descriptor = Descriptor(digest: string, reference: string)

  datatype Manifest = Manifest(config: string, layers: seq<string>)

  /** A directory entry of the blob directory: a file, or something read through to a file or nothing. */
  datatype Blob = Regular(data: Bytes) | Special(target: Option<Bytes>)

  datatype Layout = Layout(index: Option<seq<Descriptor>>, blobs: map<string, Blob>)

  /** Reading an image manifest and writing the archive's list of images. */
  datatype Codec = Codec(manifest: Bytes -> Option<Manifest>, images: seq<Image> -> Bytes)

  const ALGORITHM := "sha256:"
  const BLOBS := "blobs/sha256"

  /** `strings.TrimPrefix(digest, "sha256:")`. */
  function Hex(digest: string): string {
    if ALGORITHM <= digest then digest[|ALGORITHM|..] else digest
  }

  function BlobArchiveName(digest: string): string {
    BLOBS + "/" + Hex(digest)
  }

  /** A digest that `blobPath` turns into a file name. */
  predicate ValidDigest(digest: string) {
    var hex := Hex(digest);
    ALGORITHM <= digest && |hex| == 64 && '/' !in hex && '\\' !in hex && '.' !in hex
  }

  /** The bytes `copyBlobToArchive` copies: only a regular file will do. */
  function DataFor(layout: Layout, digest: string): Option<Bytes> {
    if ValidDigest(digest) && Hex(digest) in layout.blobs && layout.blobs[Hex(digest)].Regular?
    then Some(layout.blobs[Hex(digest)].data) else None
  }

  // ----- Choosing the manifest -----

  /** Without a reference the only manifest; with one, the first that carries it. */
  ghost predicate Selects(index: seq<Descriptor>, reference: string, d: Descriptor) {
    if reference == "" then index == [d]
    else exists i :: 0 <= i < |index| && index[i] == d && d.reference == reference
                     && forall j :: 0 <= j < i ==> index[j].reference != reference
  }

  method SelectManifest(index: seq<Descriptor>, reference: string) returns (r: Option<Descriptor>)
    ensures r.Some? ==> Selects(index, reference, r.value)
    ensures r.None? ==> forall d :: !Selects(index, reference, d)
  {
    if |index| == 0 {
      return None;
    }
    if reference == "" {
      if |index| != 1 {
        return None;
      }
      return Some(index[0]);
    }
    for i := 0 to |index|
      invariant forall j :: 0 <= j < i ==> index[j].reference != reference
    {
      if index[i].reference == reference {
        return Some(index[i]);
      }
    }
    return None;
  }

  lemma SelectsOne(index: seq<Descriptor>, reference: string, d: Descriptor, e: Descriptor)
    requires Selects(index, reference, d) && Selects(index, reference, e)
    ensures d == e
  {
    if reference != "" {
      var i :| 0 <= i < |index| && index[i] == d && d.reference == reference && forall j :: 0 <= j < i ==> index[j].reference != reference;
      var k :| 0 <= k < |index| && index[k] == e && e.reference == reference && forall j :: 0 <= j < k ==> index[j].reference != reference;
      assert !(i < k) && !(k < i);
    }
  }

  /** The manifest that a layout holds for a reference; reading follows special entries. */
  ghost predicate ManifestIs(layout: Layout, reference: string, codec: Codec, m: Manifest) {
    layout.index.Some? && exists d :: Selects(layout.index.value, reference, d) && ReadManifest(layout, codec, d) == Some(m)
  }

  function ReadManifest(layout: Layout, codec: Codec, d: Descriptor): Option<Manifest> {
    if ValidDigest(d.digest) && Hex(d.digest) in layout.blobs then
      match layout.blobs[Hex(d.digest)]
      case Regular(data) => codec.manifest(data)
      case Special(Some(data)) => codec.manifest(data)
      case Special(None) => None
    else None
  }

  // ----- Writing the archive -----

  /** The config first, then the layers. */
  function Digests(m: Manifest): seq<string> {
    [m.config] + m.layers
  }

  predicate AllPresent(layout: Layout, digests: seq<string>) {
    forall i :: 0 <= i < |digests| ==> DataFor(layout, digests[i]).Some?
  }

  function FileEntry(name: string, data: Bytes): Entry {
    Entry(name, true, |data|, data)
  }

  /** The entries of the blobs, in order. */
  function BlobEntries(layout: Layout, digests: seq<string>): (es: seq<Entry>)
    requires AllPresent(layout, digests)
  {
    seq(|digests|, i requires 0 <= i < |digests| => FileEntry(BlobArchiveName(digests[i]), DataFor(layout, digests[i]).value))
  }

  function ImageFor(m: Manifest, reference: string): Image {
    Image(BlobArchiveName(m.config), if reference == "" then [] else [reference],
          seq(|m.layers|, i requires 0 <= i < |m.layers| => BlobArchiveName(m.layers[i])))
  }

  /** The whole archive: blobs, then the manifest that refers to them. */
  ghost predicate IsArchiveOf(layout: Layout, m: Manifest, reference: string, codec: Codec, es: seq<Entry>) {
    && AllPresent(layout, Digests(m))
    && es == BlobEntries(layout, Digests(m)) + [FileEntry(MANIFEST, codec.images([ImageFor(m, reference)]))]
  }

  lemma OneMoreBlob(layout: Layout, digests: seq<string>, d: string)
    requires AllPresent(layout, digests) && DataFor(layout, d).Some?
    ensures AllPresent(layout, digests + [d])
    ensures BlobEntries(layout, digests + [d]) == BlobEntries(layout, digests) + [FileEntry(BlobArchiveName(d), DataFor(layout, d).value)]
  {
    hide DataFor, BlobArchiveName;
    var more := digests + [d];
    assert forall i :: 0 <= i < |digests| ==> more[i] == digests[i];
  }

  /** `WriteDockerArchive`: a failure leaves an archive that does not end properly. */
  method WriteDockerArchive(layout: Layout, reference: string, codec: Codec) returns (a: Archive)
    ensures a.complete <==> exists m :: ManifestIs(layout, reference, codec, m) && AllPresent(layout, Digests(m))
    ensures a.complete ==> exists m :: ManifestIs(layout, reference, codec, m) && IsArchiveOf(layout, m, reference, codec, a.entries)
                                       && ArchiveShows(layout, m, reference, codec, a.entries)
  {
    hide DataFor, BlobArchiveName, BlobEntries, ReadManifest, Selects;
    if layout.index.None? {
      return Archive([], false);
    }
    var selected := SelectManifest(layout.index.value, reference);
    if selected.None? {
      return Archive([], false);
    }
    var read := ReadManifest(layout, codec, selected.value);
    OnlyManifest(layout, reference, codec, selected.value);
    if read.None? {
      return Archive([], false);
    }
    var m := read.value;
    assert ManifestIs(layout, reference, codec, m);
    var config := DataFor(layout, m.config);
    if config.None? {
      assert Digests(m)[0] == m.config;
      return Archive([], false);
    }
    var entries := [FileEntry(BlobArchiveName(m.config), config.value)];
    var names: seq<string> := [];
    FirstBlob(layout, m.config);
    assert [m.config] + m.layers[..0] == [m.config];
    for k := 0 to |m.layers|
      invariant AllPresent(layout, [m.config] + m.layers[..k])
      invariant entries == BlobEntries(layout, [m.config] + m.layers[..k])
      invariant |names| == k && forall i :: 0 <= i < k ==> names[i] == BlobArchiveName(m.layers[i])
    {
      var data := DataFor(layout, m.layers[k]);
      if data.None? {
        assert Digests(m)[k + 1] == m.layers[k];
        return Archive(entries, false);
      }
      OneMoreBlob(layout, [m.config] + m.layers[..k], m.layers[k]);
      assert [m.config] + m.layers[..k] + [m.layers[k]] == [m.config] + m.layers[..k + 1];
      entries := entries + [FileEntry(BlobArchiveName(m.layers[k]), data.value)];
      names := names + [BlobArchiveName(m.layers[k])];
    }
    assert m.layers[..|m.layers|] == m.layers;
    var image := Image(BlobArchiveName(m.config), if reference == "" then [] else [reference], names);
    assert image == ImageFor(m, reference);
    a := Archive(entries + [FileEntry(MANIFEST, codec.images([image]))], true);
    ArchiveMeans(layout, m, reference, codec, a.entries);
    hide ArchiveShows;
  }

  /** The entry is a regular file of this name with the bytes of the blob the digest names. */
  predicate CopiesBlob(layout: Layout, digest: string, e: Entry) {
    && "sha256:" <= digest && e.header == "blobs/sha256/" + digest[7..] && e.regular && e.size == |e.data|
    && digest[7..] in layout.blobs && layout.blobs[digest[7..]] == Regular(e.data)
  }

  /** The archive in terms of the manifest: config, layers in their order, and the list that names them in that order. */
  ghost predicate ArchiveShows(layout: Layout, m: Manifest, reference: string, codec: Codec, es: seq<Entry>) {
    && |es| == |m.layers| + 2
    && CopiesBlob(layout, m.config, es[0])
    && (forall i :: 0 <= i < |m.layers| ==> CopiesBlob(layout, m.layers[i], es[i + 1]))
    && var last := es[|m.layers| + 1];
       && last.header == "manifest.json" && last.regular && last.size == |last.data|
       && exists image ::
            && last.data == codec.images([image])
            && image.config == es[0].header && image.tags == (if reference == "" then [] else [reference])
            && |image.layers| == |m.layers| && forall i :: 0 <= i < |m.layers| ==> image.layers[i] == es[i + 1].header
  }

  lemma CopyMeans(layout: Layout, digest: string)
    requires DataFor(layout, digest).Some?
    ensures CopiesBlob(layout, digest, FileEntry(BlobArchiveName(digest), DataFor(layout, digest).value))
  {
  }

  lemma ArchiveMeans(layout: Layout, m: Manifest, reference: string, codec: Codec, es: seq<Entry>)
    requires IsArchiveOf(layout, m, reference, codec, es)
    ensures ArchiveShows(layout, m, reference, codec, es)
  {
    hide DataFor, BlobArchiveName, CopiesBlob;
    var ds, image := Digests(m), ImageFor(m, reference);
    assert DataFor(layout, ds[0]).Some?;
    CopyMeans(layout, ds[0]);
    forall i | 0 <= i < |m.layers| ensures CopiesBlob(layout, m.layers[i], es[i + 1]) && image.layers[i] == es[i + 1].header {
      assert ds[i + 1] == m.layers[i] && DataFor(layout, ds[i + 1]).Some?;
      CopyMeans(layout, ds[i + 1]);
    }
    assert es[|m.layers| + 1] == FileEntry(MANIFEST, codec.images([image]));
  }

  lemma FirstBlob(layout: Layout, d: string)
    requires DataFor(layout, d).Some?
    ensures AllPresent(layout, [d])
    ensures BlobEntries(layout, [d]) == [FileEntry(BlobArchiveName(d), DataFor(layout, d).value)]
  {
    hide DataFor, BlobArchiveName;
  }

  lemma OnlyManifest(layout: Layout, reference: string, codec: Codec, d: Descriptor)
    requires layout.index.Some? && Selects(layout.index.value, reference, d)
    ensures forall m :: ManifestIs(layout, reference, codec, m) <==> ReadManifest(layout, codec, d) == Some(m)
  {
    hide Selects, ReadManifest;
    forall e | Selects(layout.index.value, reference, e) ensures e == d {
      SelectsOne(layout.index.value, reference, d, e);
    }
  }

  // ----- Names of blobs -----

  lemma {:induction false} NoDot(base: string, i: nat)
    requires '.' !in base && i <= |base|
    ensures LastDot(base, i) == |base|
  {
    if i > 0 {
      NoDot(base, i - 1);
    }
  }

  /** A blob's name is safe but for NUL, and its whole base name is the content address. */
  lemma BlobName(digest: string)
    requires ValidDigest(digest)
    ensures var name := BlobArchiveName(digest);
            && Stem(name) == Hex(digest) && name != MANIFEST
            && (SafeName(name) <==> '\0' !in Hex(digest))
            && forall e: Entry :: e.header == name ==> Name(e) == name
  {
    var hex, name := Hex(digest), BlobArchiveName(digest);
    hide Hex, LastDot, Paths.BaseStart, Paths.Split, Paths.FirstSlash;
    Paths.BaseStartAfter(BLOBS, hex);
    assert Paths.Base(name) == hex;
    NoDot(hex, |hex|);
    assert hex[..|hex|] == hex;
    BlobNameIsClean(hex);
    BlobNameChars(hex);
  }

  lemma BlobNameIsClean(hex: string)
    requires |hex| == 64 && '/' !in hex && '.' !in hex
    ensures Paths.CleanRelative(BLOBS + "/" + hex)
  {
    hide Paths.Split, Paths.FirstSlash;
    assert hex[0] != '.';
    Paths.SplitJoin(BLOBS, hex);
    BlobsIsClean();
    assert Paths.Split(BLOBS + "/" + hex) == ["blobs", "sha256", hex];
  }

  lemma BlobNameChars(hex: string)
    requires |hex| == 64 && '/' !in hex
    ensures var name := BLOBS + "/" + hex;
            && name != MANIFEST && name != "." && ('\0' in name <==> '\0' in hex)
            && forall e: Entry :: e.header == name ==> Name(e) == name
  {
    var name := BLOBS + "/" + hex;
    assert '\0' !in BLOBS + "/";
    assert name[|name| - 1] == hex[63] && hex[63] in hex;
    assert |name| == 77;
  }

  lemma BlobsIsClean()
    ensures Paths.Split(BLOBS) == ["blobs", "sha256"]
  {
    hide Paths.Split, Paths.FirstSlash;
    assert BLOBS == "blobs" + "/" + "sha256";
    Paths.SplitCons("blobs", "sha256");
    Paths.SplitOne("sha256");
  }

  lemma ManifestName(data: Bytes)
    ensures Name(FileEntry(MANIFEST, data)) == MANIFEST && SafeName(MANIFEST)
  {
    hide Paths.Split, Paths.FirstSlash;
    Paths.SplitOne(MANIFEST);
  }

  lemma NamesDiffer(d: string, e: string)
    requires ValidDigest(d) && ValidDigest(e)
    ensures BlobArchiveName(d) == BlobArchiveName(e) <==> d == e
  {
    if BlobArchiveName(d) == BlobArchiveName(e) {
      var k := |BLOBS| + 1;
      assert BlobArchiveName(d)[k..] == Hex(d) && BlobArchiveName(e)[k..] == Hex(e);
      assert d == ALGORITHM + Hex(d) && e == ALGORITHM + Hex(e);
    }
  }

  // ----- The verifier's verdict on a written archive -----

  /** The blob under a digest is what the digest says. */
  predicate Addressed(layout: Layout, hash: Bytes -> string, digest: string)
    requires DataFor(layout, digest).Some?
  {
    LowerHex(Hex(digest)) && hash(DataFor(layout, digest).value) == Hex(digest)
  }

  function BlobTotal(layout: Layout, digests: seq<string>): nat
    requires AllPresent(layout, digests)
  {
    if digests == [] then 0
    else BlobTotal(layout, digests[..|digests| - 1]) + |DataFor(layout, digests[|digests| - 1]).value|
  }

  /** What the verifier demands, said of the layout and the reference alone. */
  predicate Verifiable(layout: Layout, m: Manifest, reference: string, codec: Codec, hash: Bytes -> string)
    requires AllPresent(layout, Digests(m))
  {
    var ds, json := Digests(m), codec.images([ImageFor(m, reference)]);
    && m.layers != [] && Sorting.Distinct(ds)
    && (forall i :: 0 <= i < |ds| ==> Addressed(layout, hash, ds[i]) && |DataFor(layout, ds[i]).value| <= MAX_ENTRY_BYTES)
    && |ds| < MAX_FILES && |json| <= MAX_JSON_BYTES && BlobTotal(layout, ds) + |json| <= MAX_TOTAL_BYTES
    && (reference == "" || ValidTag(reference))
  }

  lemma {:induction false} TotalOfBlobs(layout: Layout, digests: seq<string>)
    requires AllPresent(layout, digests)
    ensures TotalSize(BlobEntries(layout, digests)) == BlobTotal(layout, digests)
  {
    hide DataFor, BlobArchiveName;
    if digests != [] {
      var n := |digests| - 1;
      TotalOfBlobs(layout, digests[..n]);
      assert BlobEntries(layout, digests)[..n] == BlobEntries(layout, digests[..n]);
    }
  }

  /** The entries of the archive by position. */
  lemma EntryAt(layout: Layout, m: Manifest, reference: string, codec: Codec, es: seq<Entry>, i: nat)
    requires IsArchiveOf(layout, m, reference, codec, es) && i < |es|
    ensures |es| == |Digests(m)| + 1
    ensures i < |Digests(m)| ==> var d := Digests(m)[i];
              && DataFor(layout, d).Some? && ValidDigest(d)
              && es[i] == FileEntry(BlobArchiveName(d), DataFor(layout, d).value)
              && Name(es[i]) == BlobArchiveName(d)
    ensures i == |Digests(m)| ==> Name(es[i]) == MANIFEST && es[i].data == codec.images([ImageFor(m, reference)])
  {
    hide BlobArchiveName, Name, ValidDigest;
    var ds := Digests(m);
    if i < |ds| {
      assert DataFor(layout, ds[i]).Some?;
      BlobName(ds[i]);
    } else {
      ManifestName(codec.images([ImageFor(m, reference)]));
    }
  }

  lemma EntryCount(layout: Layout, m: Manifest, reference: string, codec: Codec, es: seq<Entry>)
    requires IsArchiveOf(layout, m, reference, codec, es)
    ensures AllPresent(layout, Digests(m)) && |es| == |Digests(m)| + 1 && |Digests(m)| == |m.layers| + 1
    ensures es[|Digests(m)|] == FileEntry(MANIFEST, codec.images([ImageFor(m, reference)]))
  {
    hide DataFor, FileEntry;
  }

  lemma DistinctIff(layout: Layout, m: Manifest, reference: string, codec: Codec, es: seq<Entry>)
    requires IsArchiveOf(layout, m, reference, codec, es)
    ensures NamesDistinct(es) <==> Sorting.Distinct(Digests(m))
  {
    hide IsArchiveOf, BlobArchiveName, Name, ValidDigest;
    var ds := Digests(m);
    EntryCount(layout, m, reference, codec, es);
    if NamesDistinct(es) {
      forall i, j | 0 <= i < j < |ds| ensures ds[i] != ds[j] {
        EntryAt(layout, m, reference, codec, es, i);
        EntryAt(layout, m, reference, codec, es, j);
      }
    }
    if Sorting.Distinct(ds) {
      forall i, j | 0 <= i < j < |es| ensures Name(es[i]) != Name(es[j]) {
        EntryAt(layout, m, reference, codec, es, i);
        EntryAt(layout, m, reference, codec, es, j);
        if j < |ds| {
          NamesDiffer(ds[i], ds[j]);
        } else {
          BlobName(ds[i]);
        }
      }
    }
  }

  /** A blob entry passes the scan if its name has no NUL and it is not too large. */
  lemma BlobEntryOk(layout: Layout, d: string)
    requires DataFor(layout, d).Some?
    ensures var e := FileEntry(BlobArchiveName(d), DataFor(layout, d).value);
            EntryOk(e) <==> '\0' !in Hex(d) && e.size <= MAX_ENTRY_BYTES
  {
    hide BlobArchiveName, Name, SafeName, Hex;
    BlobName(d);
  }

  lemma HexHasNoNul(s: string)
    requires LowerHex(s)
    ensures '\0' !in s
  {
  }

  predicate BlobsFit(layout: Layout, ds: seq<string>)
    requires AllPresent(layout, ds)
  {
    forall i :: 0 <= i < |ds| ==> '\0' !in Hex(ds[i]) && |DataFor(layout, ds[i]).value| <= MAX_ENTRY_BYTES
  }

  lemma EntriesIff(layout: Layout, m: Manifest, reference: string, codec: Codec, es: seq<Entry>)
    requires IsArchiveOf(layout, m, reference, codec, es)
    ensures (forall i :: 0 <= i < |es| ==> EntryOk(es[i])) <==>
            BlobsFit(layout, Digests(m)) && |codec.images([ImageFor(m, reference)])| <= MAX_JSON_BYTES
  {
    hide IsArchiveOf, DataFor, BlobArchiveName, Name, Hex, BlobEntries, EntryOk;
    var ds, n := Digests(m), |Digests(m)|;
    EntryCount(layout, m, reference, codec, es);
    LastEntryOk(codec.images([ImageFor(m, reference)]));
    forall i | 0 <= i < n
      ensures EntryOk(es[i]) <==> '\0' !in Hex(ds[i]) && |DataFor(layout, ds[i]).value| <= MAX_ENTRY_BYTES
    {
      EntryAt(layout, m, reference, codec, es, i);
      BlobEntryOk(layout, ds[i]);
    }
  }

  lemma LastEntryOk(json: Bytes)
    ensures EntryOk(FileEntry(MANIFEST, json)) <==> |json| <= MAX_JSON_BYTES
  {
    hide Name, SafeName;
    ManifestName(json);
  }

  lemma TotalIs(layout: Layout, m: Manifest, reference: string, codec: Codec, es: seq<Entry>)
    requires IsArchiveOf(layout, m, reference, codec, es)
    ensures TotalSize(es) == BlobTotal(layout, Digests(m)) + |codec.images([ImageFor(m, reference)])|
    ensures ManifestBytes(es) == codec.images([ImageFor(m, reference)])
  {
    hide BlobEntries, DataFor, Name;
    var json := codec.images([ImageFor(m, reference)]);
    TotalOfBlobs(layout, Digests(m));
    Totals(BlobEntries(layout, Digests(m)), FileEntry(MANIFEST, json));
    ManifestName(json);
  }

  /** A reference to a blob holds exactly when the blob is what its digest says. */
  lemma ReferenceIff(layout: Layout, m: Manifest, reference: string, codec: Codec, es: seq<Entry>, hash: Bytes -> string, k: nat)
    requires IsArchiveOf(layout, m, reference, codec, es) && k < |Digests(m)|
    ensures DataFor(layout, Digests(m)[k]).Some?
    ensures ReferenceOk(hash, es, BlobArchiveName(Digests(m)[k])) <==> Addressed(layout, hash, Digests(m)[k])
  {
    hide IsArchiveOf, DataFor, BlobArchiveName, Name, Hex, Stem, SafeName, LowerHex, ValidDigest;
    var ds := Digests(m);
    var d := ds[k];
    EntryCount(layout, m, reference, codec, es);
    EntryAt(layout, m, reference, codec, es, k);
    BlobName(d);
    forall i | 0 <= i < |es| && Name(es[i]) == BlobArchiveName(d) ensures es[i].data == DataFor(layout, d).value {
      EntryAt(layout, m, reference, codec, es, i);
      if i < |ds| {
        NamesDiffer(ds[i], d);
      }
    }
    HexStem(d);
    if LowerHex(Hex(d)) {
      HexHasNoNul(Hex(d));
    }
  }

  lemma HexStem(digest: string)
    requires ValidDigest(digest)
    ensures |Hex(digest)| == 64
  {
  }

  /** The references of the image are the names of the digests. */
  lemma LayersThenConfig(m: Manifest, reference: string, hash: Bytes -> string, es: seq<Entry>)
    ensures (forall i :: 0 <= i < |Digests(m)| ==> ReferenceOk(hash, es, BlobArchiveName(Digests(m)[i]))) <==>
            && ReferenceOk(hash, es, ImageFor(m, reference).config)
            && forall i :: 0 <= i < |m.layers| ==> ReferenceOk(hash, es, ImageFor(m, reference).layers[i])
  {
    hide BlobArchiveName, ReferenceOk;
    var ds, image := Digests(m), ImageFor(m, reference);
    if forall i :: 0 <= i < |ds| ==> ReferenceOk(hash, es, BlobArchiveName(ds[i])) {
      assert ds[0] == m.config;
      forall i | 0 <= i < |m.layers| ensures ReferenceOk(hash, es, image.layers[i]) {
        assert ds[i + 1] == m.layers[i];
      }
    }
    if ReferenceOk(hash, es, image.config) && forall i :: 0 <= i < |m.layers| ==> ReferenceOk(hash, es, image.layers[i]) {
      forall i | 0 <= i < |ds| ensures ReferenceOk(hash, es, BlobArchiveName(ds[i])) {
        if i > 0 {
          assert image.layers[i - 1] == BlobArchiveName(ds[i]);
        }
      }
    }
  }

  lemma ImageIff(layout: Layout, m: Manifest, reference: string, codec: Codec, es: seq<Entry>, hash: Bytes -> string)
    requires IsArchiveOf(layout, m, reference, codec, es)
    ensures AllPresent(layout, Digests(m))
    ensures ImageOk(hash, es, ImageFor(m, reference)) <==>
            && m.layers != [] && (reference == "" || ValidTag(reference))
            && forall i :: 0 <= i < |Digests(m)| ==> Addressed(layout, hash, Digests(m)[i])
  {
    hide IsArchiveOf, DataFor, BlobEntries, BlobArchiveName, ReferenceOk, Addressed, ValidTag;
    EntryCount(layout, m, reference, codec, es);
    var ds, image := Digests(m), ImageFor(m, reference);
    forall k | 0 <= k < |ds|
      ensures ReferenceOk(hash, es, BlobArchiveName(ds[k])) <==> Addressed(layout, hash, ds[k])
    {
      ReferenceIff(layout, m, reference, codec, es, hash, k);
    }
    LayersThenConfig(m, reference, hash, es);
    assert reference != "" ==> image.tags[0] == reference;
  }

  /**
   For every layout and reference the verifier accepts the written archive exactly when
   the manifest has a layer, its digests are distinct and are the hashes of their blobs,
   the sizes are within the limits and the tag is printable on one line; and it then
   reports one image with the manifest's layers and the given tag.
   */
  lemma WrittenArchiveAcceptedIff(layout: Layout, m: Manifest, reference: string, codec: Codec,
                                  decode: Bytes -> Option<seq<Image>>, hash: Bytes -> string, a: Archive)
    requires a.complete && IsArchiveOf(layout, m, reference, codec, a.entries)
    requires decode(codec.images([ImageFor(m, reference)])) == Some([ImageFor(m, reference)])
    requires codec.images([ImageFor(m, reference)]) != []
    ensures Accepts(hash, decode, a) <==> Verifiable(layout, m, reference, codec, hash)
    ensures var images := decode(ManifestBytes(a.entries)).value;
            Report(|images|, LayerCount(images), Tags(images)) == Report(1, |m.layers|, if reference == "" then [] else [reference])
  {
    hide IsArchiveOf, DataFor, BlobArchiveName, BlobEntries, Name, EntryOk, NamesDistinct, ImageOk, Addressed, Hex, Digests, TotalSize, BlobTotal, ManifestBytes, Sorting.Distinct, ValidTag, LayerCount, Tags;
    var es, image := a.entries, ImageFor(m, reference);
    TotalIs(layout, m, reference, codec, es);
    DistinctIff(layout, m, reference, codec, es);
    EntriesIff(layout, m, reference, codec, es);
    ImageIff(layout, m, reference, codec, es, hash);
    EntryCount(layout, m, reference, codec, es);
    if forall i :: 0 <= i < |Digests(m)| ==> Addressed(layout, hash, Digests(m)[i]) {
      AddressedHasNoNul(layout, m, hash);
    }
    OneImage(image);
    assert ImagesOk(hash, es, [image]) <==> ImageOk(hash, es, image) by {
      assert [image][0] == image;
    }
  }

  lemma AddressedHasNoNul(layout: Layout, m: Manifest, hash: Bytes -> string)
    requires AllPresent(layout, Digests(m))
    requires forall i :: 0 <= i < |Digests(m)| ==> Addressed(layout, hash, Digests(m)[i])
    ensures forall i :: 0 <= i < |Digests(m)| ==> '\0' !in Hex(Digests(m)[i])
  {
    forall i | 0 <= i < |Digests(m)| ensures '\0' !in Hex(Digests(m)[i]) {
      HexHasNoNul(Hex(Digests(m)[i]));
    }
  }

  lemma OneImage(image: Image)
    ensures LayerCount([image]) == |image.layers| && Tags([image]) == image.tags
  {
    assert [image][..0] == [];
  }

  /** Writer and verifier together, for any layout: what comes out is accepted exactly if it is verifiable. */
  method WriteThenVerify(layout: Layout, reference: string, codec: Codec, decode: Bytes -> Option<seq<Image>>, hash: Bytes -> string)
    returns (r: Option<Report>)
    requires forall images :: decode(codec.images(images)) == Some(images) && codec.images(images) != []
    ensures r.Some? <==> exists m :: ManifestIs(layout, reference, codec, m) && AllPresent(layout, Digests(m))
                                     && Verifiable(layout, m, reference, codec, hash)
    ensures r.Some? ==> exists m :: ManifestIs(layout, reference, codec, m)
                                    && r.value == Report(1, |m.layers|, if reference == "" then [] else [reference])
  {
    hide IsArchiveOf, AllPresent, Verifiable, Accepts, ImageFor, ManifestBytes;
    var a := WriteDockerArchive(layout, reference, codec);
    r := Verify(a, hash, decode);
    if a.complete {
      ghost var m :| ManifestIs(layout, reference, codec, m) && IsArchiveOf(layout, m, reference, codec, a.entries);
      WrittenArchiveAcceptedIff(layout, m, reference, codec, decode, hash, a);
      OneManifest(layout, reference, codec, m);
    } else {
      IncompleteRefused(hash, decode, a);
    }
  }

  lemma IncompleteRefused(hash: Bytes -> string, decode: Bytes -> Option<seq<Image>>, a: Archive)
    requires !a.complete
    ensures !Accepts(hash, decode, a)
  {
  }

  lemma OneManifest(layout: Layout, reference: string, codec: Codec, m: Manifest)
    requires ManifestIs(layout, reference, codec, m)
    ensures forall other :: ManifestIs(layout, reference, codec, other) ==> other == m
  {
    hide Selects, ReadManifest;
    var d :| Selects(layout.index.value, reference, d) && ReadManifest(layout, codec, d) == Some(m);
    OnlyManifest(layout, reference, codec, d);
  }

  // ----- A sound layout whose archive is refused -----

  function Repeated(c: char): string {
    seq(64, i => c)
  }

  /** A hash under which the three blobs below have these names. */
  function SampleHash(b: Bytes): string {
    if b == [1] then Repeated('b') else if b == [2] then Repeated('c') else Repeated('a')
  }

  const CONFIG := ALGORITHM + Repeated('a')
  const LAYER := ALGORITHM + Repeated('b')
  const TWICE := Manifest(CONFIG, [LAYER, LAYER])

  /** A layout with one image, its config, one layer and its manifest, each under its own hash. */
  function SampleLayout(reference: string): Layout {
    Layout(Some([Descriptor(ALGORITHM + Repeated('c'), reference)]),
           map[Repeated('a') := Regular([0]), Repeated('b') := Regular([1]), Repeated('c') := Regular([2])])
  }

  lemma SampleBlob(reference: string, c: char, data: Bytes)
    requires (c == 'a' && data == [0]) || (c == 'b' && data == [1]) || (c == 'c' && data == [2])
    ensures ValidDigest(ALGORITHM + Repeated(c)) && Hex(ALGORITHM + Repeated(c)) == Repeated(c)
    ensures DataFor(SampleLayout(reference), ALGORITHM + Repeated(c)) == Some(data)
    ensures Addressed(SampleLayout(reference), SampleHash, ALGORITHM + Repeated(c))
  {
    var d := ALGORITHM + Repeated(c);
    assert d[|ALGORITHM|..] == Repeated(c);
    assert Repeated('a')[0] == 'a' && Repeated('b')[0] == 'b' && Repeated('c')[0] == 'c';
  }

  lemma SampleManifest(reference: string, codec: Codec)
    requires codec.manifest([2]) == Some(TWICE)
    ensures ManifestIs(SampleLayout(reference), reference, codec, TWICE)
    ensures AllPresent(SampleLayout(reference), Digests(TWICE))
    ensures forall i :: 0 <= i < |Digests(TWICE)| ==> Addressed(SampleLayout(reference), SampleHash, Digests(TWICE)[i])
  {
    var layout, d := SampleLayout(reference), Descriptor(ALGORITHM + Repeated('c'), reference);
    SampleBlob(reference, 'a', [0]);
    SampleBlob(reference, 'b', [1]);
    SampleBlob(reference, 'c', [2]);
    assert layout.index.value == [d] && [d][0] == d;
    assert Selects(layout.index.value, reference, d);
    assert ReadManifest(layout, codec, d) == Some(TWICE);
    assert Digests(TWICE) == [CONFIG, LAYER, LAYER];
  }

  /**
   A manifest that lists one layer twice.  Every blob is what its digest says and the writer
   completes the archive; the verifier refuses it.
   */
  method DuplicateLayerExample(reference: string, codec: Codec, decode: Bytes -> Option<seq<Image>>) returns (a: Archive, r: Option<Report>)
    requires codec.manifest([2]) == Some(TWICE)
    requires forall images :: decode(codec.images(images)) == Some(images) && codec.images(images) != []
    ensures AllPresent(SampleLayout(reference), Digests(TWICE))
    ensures forall i :: 0 <= i < |Digests(TWICE)| ==> Addressed(SampleLayout(reference), SampleHash, Digests(TWICE)[i])
    ensures a.complete && IsArchiveOf(SampleLayout(reference), TWICE, reference, codec, a.entries)
    ensures r.None? && !Accepts(SampleHash, decode, a)
  {
    hide ManifestIs, IsArchiveOf, AllPresent, Addressed, Accepts, DataFor, SampleLayout;
    var layout := SampleLayout(reference);
    SampleManifest(reference, codec);
    OneManifest(layout, reference, codec, TWICE);
    ListedTwice(layout, reference, codec, SampleHash);
    a := WriteDockerArchive(layout, reference, codec);
    WrittenArchiveAcceptedIff(layout, TWICE, reference, codec, decode, SampleHash, a);
    r := WriteThenVerify(layout, reference, codec, decode, SampleHash);
  }

  lemma ListedTwice(layout: Layout, reference: string, codec: Codec, hash: Bytes -> string)
    requires AllPresent(layout, Digests(TWICE))
    ensures !Verifiable(layout, TWICE, reference, codec, hash)
  {
    hide DataFor, Addressed;
    assert Digests(TWICE)[1] == Digests(TWICE)[2];
  }
}

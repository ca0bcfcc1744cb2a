/** The cache key of a build stage: which stages share an entry. */
module StageKeys {
  import opened Wrappers
  import opened Sorting
  import opened Strings
  import opened Patterns
  import opened Lengths
  import Store

  // ----- Data -----

  datatype ArtifactReference = ArtifactReference(stage: string, name: string, target: string)
  datatype Mount = Mount(source: string, target: string, readOnly: bool)
  datatype SecretReference = SecretReference(id: string, target: string)
  datatype CacheMount = CacheMount(id: string, target: string)
  datatype ArtifactDeclaration = ArtifactDeclaration(name: string, path: string)
  datatype ImageReference = ImageReference(reference: string, digest: string, platform: string)
  datatype Command = Command(executable: string, args: seq<string>, workingDir: string)
  datatype Limits = Limits(cpuMilli: int, memoryMiB: int, pids: int)
  datatype Sandbox = Sandbox(readOnlyRoot: bool, nonRoot: bool)

  /** The parts of a stage that are encoded as they are. */
  datatype Body = Body(base: Option<ImageReference>, command: Command, env: map<string, string>, network: string, resources: Limits, sandbox: Sandbox)

  datatype Stage = Stage(
    id: string,
    dependsOn: seq<string>,
    body: Body,
    mounts: seq<Mount>,
    secrets: seq<SecretReference>,
    caches: seq<CacheMount>,
    inputs: seq<ArtifactReference>,
    outputs: seq<ArtifactDeclaration>)

  datatype KeyInputs = KeyInputs(engineVersion: string, stage: Stage, baseDigest: string, inputDigests: seq<string>, platform: string)

  datatype InputDigest = InputDigest(reference: ArtifactReference, digest: string)

  /** A stage with identity, placement and inputs blanked and its lists sorted. */
  datatype Canonical = Canonical(
    body: Body,
    mounts: seq<Mount>,
    secrets: seq<SecretReference>,
    caches: seq<CacheMount>,
    outputs: seq<ArtifactDeclaration>)

  /** The text encodings that feed the hash. */
  datatype Encoders = Encoders(text: string -> Bytes, inputs: seq<InputDigest> -> Bytes, stage: Canonical -> Bytes)

  /** Different values have different encodings. */
  ghost predicate Injective(e: Encoders) {
    && (forall a, b :: e.text(a) == e.text(b) ==> a == b)
    && (forall a, b :: e.inputs(a) == e.inputs(b) ==> a == b)
    && (forall a, b :: e.stage(a) == e.stage(b) ==> a == b)
  }

  // ----- The sort orders -----

  predicate PairLess(a: (string, string), b: (string, string)) {
    if a.0 == b.0 then Less(a.1, b.1) else Less(a.0, b.0)
  }

  predicate MountLess(a: Mount, b: Mount) { PairLess((a.target, a.source), (b.target, b.source)) }
  predicate SecretLess(a: SecretReference, b: SecretReference) { PairLess((a.target, a.id), (b.target, b.id)) }
  predicate CacheLess(a: CacheMount, b: CacheMount) { PairLess((a.target, a.id), (b.target, b.id)) }
  predicate OutputLess(a: ArtifactDeclaration, b: ArtifactDeclaration) { Less(a.name, b.name) }
  predicate InputLess(a: InputDigest, b: InputDigest) {
    if a.reference.stage == b.reference.stage then PairLess((a.reference.name, a.digest), (b.reference.name, b.digest))
    else Less(a.reference.stage, b.reference.stage)
  }

  lemma PairLessOrder(a: (string, string), b: (string, string), c: (string, string))
    ensures PairLess(a, b) ==> !PairLess(b, a) && a != b
    ensures PairLess(a, b) && PairLess(b, c) ==> PairLess(a, c)
    ensures a == b || PairLess(a, b) || PairLess(b, a)
  {
    LessIsStrictOrder();
    LessConnected(a.0, b.0);
    LessConnected(a.1, b.1);
  }

  lemma PairLessWeak(a: (string, string), b: (string, string), c: (string, string))
    ensures !PairLess(b, a) && !PairLess(c, b) ==> !PairLess(c, a)
  {
    PairLessOrder(a, b, c);
    PairLessOrder(b, c, a);
    PairLessOrder(c, a, b);
  }

  lemma MountOrder()
    ensures StrictOrder(MountLess)
  {
    forall a: Mount, b: Mount, c: Mount
      ensures MountLess(a, b) ==> !MountLess(b, a)
      ensures MountLess(a, b) && MountLess(b, c) ==> MountLess(a, c)
      ensures !MountLess(b, a) && !MountLess(c, b) ==> !MountLess(c, a)
    {
      PairLessOrder((a.target, a.source), (b.target, b.source), (c.target, c.source));
      PairLessWeak((a.target, a.source), (b.target, b.source), (c.target, c.source));
    }
  }

  lemma SecretOrder()
    ensures StrictOrder(SecretLess)
    ensures forall xs :: NoTies(SecretLess, xs)
  {
    forall a: SecretReference, b: SecretReference, c: SecretReference
      ensures SecretLess(a, b) ==> !SecretLess(b, a)
      ensures SecretLess(a, b) && SecretLess(b, c) ==> SecretLess(a, c)
      ensures !SecretLess(b, a) && !SecretLess(c, b) ==> !SecretLess(c, a)
      ensures a == b || SecretLess(a, b) || SecretLess(b, a)
    {
      PairLessOrder((a.target, a.id), (b.target, b.id), (c.target, c.id));
      PairLessWeak((a.target, a.id), (b.target, b.id), (c.target, c.id));
    }
  }

  lemma CacheOrder()
    ensures StrictOrder(CacheLess)
    ensures forall xs :: NoTies(CacheLess, xs)
  {
    forall a: CacheMount, b: CacheMount, c: CacheMount
      ensures CacheLess(a, b) ==> !CacheLess(b, a)
      ensures CacheLess(a, b) && CacheLess(b, c) ==> CacheLess(a, c)
      ensures !CacheLess(b, a) && !CacheLess(c, b) ==> !CacheLess(c, a)
      ensures a == b || CacheLess(a, b) || CacheLess(b, a)
    {
      PairLessOrder((a.target, a.id), (b.target, b.id), (c.target, c.id));
      PairLessWeak((a.target, a.id), (b.target, b.id), (c.target, c.id));
    }
  }

  lemma OutputOrder()
    ensures StrictOrder(OutputLess)
  {
    LessIsStrictOrder();
  }

  lemma InputOrder()
    ensures StrictOrder(InputLess)
  {
    LessIsStrictOrder();
    forall a: InputDigest, b: InputDigest, c: InputDigest
      ensures InputLess(a, b) ==> !InputLess(b, a)
      ensures InputLess(a, b) && InputLess(b, c) ==> InputLess(a, c)
      ensures !InputLess(b, a) && !InputLess(c, b) ==> !InputLess(c, a)
    {
      var x, y, z := (a.reference.name, a.digest), (b.reference.name, b.digest), (c.reference.name, c.digest);
      PairLessOrder(x, y, z);
      PairLessWeak(x, y, z);
      LessConnected(a.reference.stage, b.reference.stage);
      LessConnected(b.reference.stage, c.reference.stage);
      LessConnected(a.reference.stage, c.reference.stage);
    }
  }

  // ----- The key -----

  predicate Accepted(k: KeyInputs) {
    && k.engineVersion != "" && '\U{0}' !in k.engineVersion
    && Store.ParseDigest(k.baseDigest).Some?
    && (k.platform == "linux/amd64" || k.platform == "linux/arm64")
    && |k.inputDigests| == |k.stage.inputs|
    && forall i :: 0 <= i < |k.inputDigests| ==> Store.ParseDigest(k.inputDigests[i]).Some?
  }

  /** References and digests, paired in order. */
  function Pairs(k: KeyInputs): (ps: seq<InputDigest>)
    requires Accepted(k)
    ensures |ps| == |k.inputDigests|
  {
    seq(|k.inputDigests|, i requires 0 <= i < |k.inputDigests| => InputDigest(k.stage.inputs[i], k.inputDigests[i]))
  }

  /** `ys` is a result `sort.Slice` may give for `xs`: it promises no order among ties. */
  ghost predicate SortResult<T>(less: (T, T) -> bool, xs: seq<T>, ys: seq<T>) {
    SortedBy(less, ys) && Permutation(ys, xs)
  }

  ghost predicate IsCanonical(s: Stage, c: Canonical) {
    && c.body == s.body
    && SortResult(MountLess, s.mounts, c.mounts) && SortResult(SecretLess, s.secrets, c.secrets)
    && SortResult(CacheLess, s.caches, c.caches) && SortResult(OutputLess, s.outputs, c.outputs)
  }

  /** The five parts that are framed and hashed. */
  function Parts(e: Encoders, k: KeyInputs, pairs: seq<InputDigest>, c: Canonical): seq<Bytes> {
    [e.text(k.engineVersion), e.text(k.baseDigest), e.text(k.platform), e.inputs(pairs), e.stage(c)]
  }

  /** `parts` is what the key of `k` may be computed from. */
  ghost predicate KeyParts(e: Encoders, k: KeyInputs, parts: seq<Bytes>)
    requires Accepted(k)
  {
    exists pairs, c :: SortResult(InputLess, Pairs(k), pairs) && IsCanonical(k.stage, c) && parts == Parts(e, k, pairs, c)
  }

  method StageKey(k: KeyInputs, e: Encoders, hash: Bytes -> string) returns (r: Result<string, ()>, ghost parts: seq<Bytes>)
    ensures r.Ok? <==> Accepted(k)
    ensures r.Ok? ==> KeyParts(e, k, parts) && r.value == "sha256:" + hash(Frame(parts))
  {
    parts := [];
    if k.engineVersion == "" || '\U{0}' in k.engineVersion {
      return Err(()), parts;
    }
    if Store.ParseDigest(k.baseDigest).None? {
      return Err(()), parts;
    }
    if k.platform != "linux/amd64" && k.platform != "linux/arm64" {
      return Err(()), parts;
    }
    if |k.inputDigests| != |k.stage.inputs| {
      return Err(()), parts;
    }
    var inputs: seq<InputDigest> := [];
    for i := 0 to |k.inputDigests|
      invariant |inputs| == i
      invariant forall j :: 0 <= j < i ==> Store.ParseDigest(k.inputDigests[j]).Some? && inputs[j] == InputDigest(k.stage.inputs[j], k.inputDigests[j])
    {
      if Store.ParseDigest(k.inputDigests[i]).None? {
        return Err(()), parts;
      }
      inputs := inputs + [InputDigest(k.stage.inputs[i], k.inputDigests[i])];
    }
    assert inputs == Pairs(k);
    InputOrder();
    inputs := Sort(InputLess, inputs);
    var c := CanonicalStage(k.stage);
    parts := Parts(e, k, inputs, c);
    var message := Part(e.text(k.engineVersion)) + Part(e.text(k.baseDigest)) + Part(e.text(k.platform)) + Part(e.inputs(inputs)) + Part(e.stage(c));
    FrameOfFive(parts);
    assert message == Frame(parts);
    return Ok(Store.DigestOf(hash(message))), parts;
  }

  lemma FrameOfFive(p: seq<Bytes>)
    requires |p| == 5
    ensures Frame(p) == Part(p[0]) + Part(p[1]) + Part(p[2]) + Part(p[3]) + Part(p[4])
  {
    var q := p[1..];
    var r := q[1..];
    var s := r[1..];
    var t := s[1..];
    assert Frame(t[1..]) == [];
    assert Frame(t) == Part(p[4]);
    assert Frame(s) == Part(p[3]) + Part(p[4]);
    assert Frame(r) == Part(p[2]) + (Part(p[3]) + Part(p[4]));
    assert Frame(q) == Part(p[1]) + (Part(p[2]) + (Part(p[3]) + Part(p[4])));
  }

  function CanonicalStage(s: Stage): (c: Canonical)
    ensures IsCanonical(s, c)
  {
    MountOrder();
    SecretOrder();
    CacheOrder();
    OutputOrder();
    Canonical(s.body, Sort(MountLess, s.mounts), Sort(SecretLess, s.secrets), Sort(CacheLess, s.caches), Sort(OutputLess, s.outputs))
  }

  // ----- When keys are equal -----

  /** Same content: equal up to identity, graph placement and the order of lists. */
  ghost predicate SameContent(a: KeyInputs, b: KeyInputs)
    requires Accepted(a) && Accepted(b)
  {
    && a.engineVersion == b.engineVersion && a.baseDigest == b.baseDigest && a.platform == b.platform
    && Permutation(Pairs(a), Pairs(b))
    && a.stage.body == b.stage.body
    && Permutation(a.stage.mounts, b.stage.mounts) && Permutation(a.stage.secrets, b.stage.secrets)
    && Permutation(a.stage.caches, b.stage.caches) && Permutation(a.stage.outputs, b.stage.outputs)
  }

  /** No two different mounts, outputs or inputs agree on the fields they are sorted by. */
  ghost predicate NoSortTies(k: KeyInputs)
    requires Accepted(k)
  {
    NoTies(MountLess, k.stage.mounts) && NoTies(OutputLess, k.stage.outputs) && NoTies(InputLess, Pairs(k))
  }

  /** Equal framed parts mean equal content: nothing that matters is left out of the key. */
  lemma EqualFramesSameContent(e: Encoders, a: KeyInputs, b: KeyInputs, p: seq<Bytes>, q: seq<Bytes>)
    requires Injective(e) && Accepted(a) && Accepted(b)
    requires KeyParts(e, a, p) && KeyParts(e, b, q) && Fit(p) && Fit(q)
    requires Frame(p) == Frame(q)
    ensures SameContent(a, b)
  {
    FrameInjective(p, q);
    var pairsA, cA :| SortResult(InputLess, Pairs(a), pairsA) && IsCanonical(a.stage, cA) && p == Parts(e, a, pairsA, cA);
    var pairsB, cB :| SortResult(InputLess, Pairs(b), pairsB) && IsCanonical(b.stage, cB) && q == Parts(e, b, pairsB, cB);
    assert p[0] == q[0] && p[1] == q[1] && p[2] == q[2] && p[3] == q[3] && p[4] == q[4];
    assert pairsA == pairsB && cA == cB;
  }

  lemma SortResultsAgree<T>(less: (T, T) -> bool, xs: seq<T>, ys: seq<T>, s: seq<T>, t: seq<T>)
    requires SortResult(less, xs, s) && SortResult(less, ys, t) && Permutation(xs, ys) && NoTies(less, xs)
    ensures s == t
  {
    SameMembers(s, xs);
    SortedIsUnique(less, s, t);
  }

  /** Without ties, equal content means equal parts: order, identity and placement do not matter. */
  lemma SameContentEqualParts(e: Encoders, a: KeyInputs, b: KeyInputs, p: seq<Bytes>, q: seq<Bytes>)
    requires Accepted(a) && Accepted(b) && SameContent(a, b) && NoSortTies(a)
    requires KeyParts(e, a, p) && KeyParts(e, b, q)
    ensures p == q
  {
    var pairsA, cA :| SortResult(InputLess, Pairs(a), pairsA) && IsCanonical(a.stage, cA) && p == Parts(e, a, pairsA, cA);
    var pairsB, cB :| SortResult(InputLess, Pairs(b), pairsB) && IsCanonical(b.stage, cB) && q == Parts(e, b, pairsB, cB);
    SortResultsAgree(InputLess, Pairs(a), Pairs(b), pairsA, pairsB);
    CanonicalAgree(a.stage, b.stage, cA, cB);
  }

  lemma CanonicalAgree(a: Stage, b: Stage, c: Canonical, d: Canonical)
    requires IsCanonical(a, c) && IsCanonical(b, d) && a.body == b.body
    requires Permutation(a.mounts, b.mounts) && Permutation(a.secrets, b.secrets)
    requires Permutation(a.caches, b.caches) && Permutation(a.outputs, b.outputs)
    requires NoTies(MountLess, a.mounts) && NoTies(OutputLess, a.outputs)
    ensures c == d
  {
    SecretOrder();
    CacheOrder();
    SortResultsAgree(MountLess, a.mounts, b.mounts, c.mounts, d.mounts);
    SortResultsAgree(SecretLess, a.secrets, b.secrets, c.secrets, d.secrets);
    SortResultsAgree(CacheLess, a.caches, b.caches, c.caches, d.caches);
    SortResultsAgree(OutputLess, a.outputs, b.outputs, c.outputs, d.outputs);
  }

  /**
   Two accepted stages without sort ties get equal keys exactly when their content agrees,
   as long as their two hashed messages do not collide.
   */
  lemma EqualKeysIffSameContent(e: Encoders, hash: Bytes -> string, a: KeyInputs, b: KeyInputs, p: seq<Bytes>, q: seq<Bytes>)
    requires Injective(e) && Accepted(a) && Accepted(b) && NoSortTies(a)
    requires KeyParts(e, a, p) && KeyParts(e, b, q) && Fit(p) && Fit(q)
    requires !Store.Collides(hash, Frame(p), Frame(q))
    ensures hash(Frame(p)) == hash(Frame(q)) <==> SameContent(a, b)
  {
    if hash(Frame(p)) == hash(Frame(q)) {
      EqualFramesSameContent(e, a, b, p, q);
    }
    if SameContent(a, b) {
      SameContentEqualParts(e, a, b, p, q);
    }
  }

  // ----- Ties -----

  /** Swapping two tied elements of a sorted list gives another sorted permutation. */
  lemma SwapTied<T(!new)>(less: (T, T) -> bool, xs: seq<T>, ys: seq<T>, i: nat, j: nat) returns (zs: seq<T>)
    requires StrictOrder(less) && SortResult(less, xs, ys) && i < j < |ys|
    requires !less(ys[i], ys[j]) && !less(ys[j], ys[i]) && ys[i] != ys[j]
    ensures SortResult(less, xs, zs) && zs != ys
  {
    zs := ys[i := ys[j]][j := ys[i]];
    SwapPermutes(ys, i, j);
    assert zs[i] != ys[i];
    forall a, b | 0 <= a < b < |zs| ensures !less(zs[b], zs[a]) {
      SwapAlike(less, ys, i, j, a, ys[b]);
      SwapAlike(less, ys, i, j, b, zs[a]);
      assert !less(ys[b], ys[a]);
    }
  }

  lemma SwapPermutes<T>(ys: seq<T>, i: nat, j: nat)
    requires i < j < |ys|
    ensures multiset(ys[i := ys[j]][j := ys[i]]) == multiset(ys)
  {
    assert ys == ys[..i] + [ys[i]] + ys[i + 1..j] + [ys[j]] + ys[j + 1..];
    assert ys[i := ys[j]][j := ys[i]] == ys[..i] + [ys[j]] + ys[i + 1..j] + [ys[i]] + ys[j + 1..];
  }

  /** The swapped list compares like the original at every position. */
  lemma SwapAlike<T(!new)>(less: (T, T) -> bool, ys: seq<T>, i: nat, j: nat, a: nat, z: T)
    requires StrictOrder(less) && i < j < |ys| && a < |ys|
    requires !less(ys[i], ys[j]) && !less(ys[j], ys[i])
    ensures var zs := ys[i := ys[j]][j := ys[i]];
            less(zs[a], z) == less(ys[a], z) && less(z, zs[a]) == less(z, ys[a])
  {
    TiedAlike(less, ys[i], ys[j], z);
  }

  lemma TiedAlike<T(!new)>(less: (T, T) -> bool, x: T, y: T, z: T)
    requires StrictOrder(less) && !less(x, y) && !less(y, x)
    ensures less(x, z) == less(y, z) && less(z, x) == less(z, y)
  {
  }

  /**
   The sorts of one build of the program: each is a function of the list, and leaves a list
   that is already in order as it is, as `sort.Slice` does.
   */
  datatype Sorter = Sorter(
    inputs: seq<InputDigest> -> seq<InputDigest>,
    mounts: seq<Mount> -> seq<Mount>,
    secrets: seq<SecretReference> -> seq<SecretReference>,
    caches: seq<CacheMount> -> seq<CacheMount>,
    outputs: seq<ArtifactDeclaration> -> seq<ArtifactDeclaration>)

  ghost predicate SortsBy<T(!new)>(less: (T, T) -> bool, sort: seq<T> -> seq<T>) {
    forall xs :: SortResult(less, xs, sort(xs)) && (SortedBy(less, xs) ==> sort(xs) == xs)
  }

  ghost predicate Sorts(s: Sorter) {
    && SortsBy(InputLess, s.inputs) && SortsBy(MountLess, s.mounts) && SortsBy(SecretLess, s.secrets)
    && SortsBy(CacheLess, s.caches) && SortsBy(OutputLess, s.outputs)
  }

  function CanonicalWith(s: Sorter, t: Stage): Canonical {
    Canonical(t.body, s.mounts(t.mounts), s.secrets(t.secrets), s.caches(t.caches), s.outputs(t.outputs))
  }

  /** The parts hashed for `k` with these sorts. */
  function PartsWith(s: Sorter, e: Encoders, k: KeyInputs): seq<Bytes>
    requires Accepted(k)
  {
    Parts(e, k, s.inputs(Pairs(k)), CanonicalWith(s, k.stage))
  }

  lemma PartsWithAreKeyParts(s: Sorter, e: Encoders, k: KeyInputs)
    requires Sorts(s) && Accepted(k)
    ensures KeyParts(e, k, PartsWith(s, e, k))
  {
    hide SortResult, Accepted, Pairs;
    assert IsCanonical(k.stage, CanonicalWith(s, k.stage));
  }

  /** Another order of a list with a tie that sorts to something else. */
  lemma OtherOrder<T(!new)>(less: (T, T) -> bool, sort: seq<T> -> seq<T>, xs: seq<T>) returns (zs: seq<T>)
    requires StrictOrder(less) && SortsBy(less, sort) && !NoTies(less, xs)
    ensures Permutation(xs, zs) && sort(zs) != sort(xs)
  {
    var ys := sort(xs);
    assert SortResult(less, xs, ys);
    SameMembers(ys, xs);
    var a, b :| a in xs && b in xs && a != b && !less(a, b) && !less(b, a);
    var i :| 0 <= i < |ys| && ys[i] == a;
    var j :| 0 <= j < |ys| && ys[j] == b;
    if i < j {
      zs := SwapTied(less, xs, ys, i, j);
    } else {
      zs := SwapTied(less, xs, ys, j, i);
    }
    assert SortedBy(less, zs) && sort(zs) == zs;
  }

  /** Every stage with the content of `a` gets the message of `a`. */
  ghost predicate OrderForgotten(s: Sorter, e: Encoders, a: KeyInputs)
    requires Accepted(a)
  {
    forall b :: Accepted(b) && SameContent(a, b) ==> PartsWith(s, e, a) == PartsWith(s, e, b)
  }

  lemma MountTie(s: Sorter, e: Encoders, a: KeyInputs)
    requires Sorts(s) && Injective(e) && Accepted(a) && !NoTies(MountLess, a.stage.mounts)
    ensures !OrderForgotten(s, e, a)
  {
    hide Injective, SortResult, Store.ParseDigest;
    MountOrder();
    var zs := OtherOrder(MountLess, s.mounts, a.stage.mounts);
    var b := a.(stage := a.stage.(mounts := zs));
    assert Pairs(b) == Pairs(a);
    assert SameContent(a, b);
    DifferentStage(s, e, a, b);
  }

  lemma OutputTie(s: Sorter, e: Encoders, a: KeyInputs)
    requires Sorts(s) && Injective(e) && Accepted(a) && !NoTies(OutputLess, a.stage.outputs)
    ensures !OrderForgotten(s, e, a)
  {
    hide Injective, SortResult, Store.ParseDigest;
    OutputOrder();
    var zs := OtherOrder(OutputLess, s.outputs, a.stage.outputs);
    var b := a.(stage := a.stage.(outputs := zs));
    assert Pairs(b) == Pairs(a);
    assert SameContent(a, b);
    DifferentStage(s, e, a, b);
  }

  lemma DifferentStage(s: Sorter, e: Encoders, a: KeyInputs, b: KeyInputs)
    requires Injective(e) && Accepted(a) && Accepted(b) && CanonicalWith(s, a.stage) != CanonicalWith(s, b.stage)
    ensures PartsWith(s, e, a) != PartsWith(s, e, b)
  {
    assert PartsWith(s, e, a)[4] == e.stage(CanonicalWith(s, a.stage)) && PartsWith(s, e, b)[4] == e.stage(CanonicalWith(s, b.stage));
  }

  lemma InputTie(s: Sorter, e: Encoders, a: KeyInputs)
    requires Sorts(s) && Injective(e) && Accepted(a) && !NoTies(InputLess, Pairs(a))
    ensures !OrderForgotten(s, e, a)
  {
    hide Injective, SortResult, Store.ParseDigest;
    InputOrder();
    var zs := OtherOrder(InputLess, s.inputs, Pairs(a));
    SameMembers(Pairs(a), zs);
    var b := Reordered(a, zs);
    assert PartsWith(s, e, a)[3] == e.inputs(s.inputs(Pairs(a))) && PartsWith(s, e, b)[3] == e.inputs(s.inputs(zs));
    InputsInjective(e, s.inputs(Pairs(a)), s.inputs(zs));
  }

  lemma InputsInjective(e: Encoders, x: seq<InputDigest>, y: seq<InputDigest>)
    requires Injective(e) && x != y
    ensures e.inputs(x) != e.inputs(y)
  {
  }

  /** The same stage with its inputs, and their digests, listed as in `zs`. */
  lemma Reordered(a: KeyInputs, zs: seq<InputDigest>) returns (b: KeyInputs)
    requires Accepted(a) && Permutation(Pairs(a), zs)
    ensures Accepted(b) && SameContent(a, b) && Pairs(b) == zs
  {
    hide Store.ParseDigest;
    SameMembers(Pairs(a), zs);
    var inputs := seq(|zs|, i requires 0 <= i < |zs| => zs[i].reference);
    var digests := seq(|zs|, i requires 0 <= i < |zs| => zs[i].digest);
    b := a.(stage := a.stage.(inputs := inputs), inputDigests := digests);
    forall i | 0 <= i < |digests| ensures Store.ParseDigest(digests[i]).Some? {
      assert zs[i] in zs;
      var k :| 0 <= k < |Pairs(a)| && Pairs(a)[k] == zs[i];
    }
    assert Pairs(b) == zs;
  }

  /**
   Stages that differ only in list order always get the message of `a` exactly if no two
   different mounts, outputs or inputs of `a` tie on their sort keys.
   */
  lemma OrderForgottenIffNoTies(s: Sorter, e: Encoders, a: KeyInputs)
    requires Sorts(s) && Injective(e) && Accepted(a)
    ensures OrderForgotten(s, e, a) <==> NoSortTies(a)
  {
    hide Sorts, Injective, Accepted, SameContent, KeyParts, PartsWith;
    if NoSortTies(a) {
      forall b | Accepted(b) && SameContent(a, b) ensures PartsWith(s, e, a) == PartsWith(s, e, b) {
        PartsWithAreKeyParts(s, e, a);
        PartsWithAreKeyParts(s, e, b);
        SameContentEqualParts(e, a, b, PartsWith(s, e, a), PartsWith(s, e, b));
      }
    } else if !NoTies(MountLess, a.stage.mounts) {
      MountTie(s, e, a);
    } else if !NoTies(OutputLess, a.stage.outputs) {
      OutputTie(s, e, a);
    } else {
      InputTie(s, e, a);
    }
  }

  /** A stage whose only lists are these mounts. */
  function MountingStage(mounts: seq<Mount>): KeyInputs {
    KeyInputs("1", Stage("s", [], Body(None, Command("sh", [], "/"), map[], "none", Limits(0, 0, 0), Sandbox(true, true)),
                         mounts, [], [], [], []),
              "sha256:" + seq(64, i => '0'), [], "linux/amd64")
  }

  /** Two mounts of one source at one target, one read-only: listing them the other way round changes the key's message. */
  lemma TwoMountsExample(s: Sorter, e: Encoders)
    requires Sorts(s) && Injective(e)
    ensures var x, y := Mount("/a", "/b", true), Mount("/a", "/b", false);
            var a, b := MountingStage([x, y]), MountingStage([y, x]);
            Accepted(a) && Accepted(b) && SameContent(a, b) && PartsWith(s, e, a) != PartsWith(s, e, b)
  {
    var x, y := Mount("/a", "/b", true), Mount("/a", "/b", false);
    var a, b := MountingStage([x, y]), MountingStage([y, x]);
    MountingAccepted([x, y]);
    MountingAccepted([y, x]);
    MountOrder();
    assert !MountLess(x, y) && !MountLess(y, x);
    assert SortedBy(MountLess, [x, y]) && SortedBy(MountLess, [y, x]);
    hide Accepted, Injective;
    assert s.mounts([x, y]) == [x, y] && s.mounts([y, x]) == [y, x];
    assert [x, y][0] != [y, x][0];
    assert Pairs(a) == [] && Pairs(b) == [];
    DifferentStage(s, e, a, b);
  }

  lemma MountingAccepted(mounts: seq<Mount>)
    ensures Accepted(MountingStage(mounts))
  {
    var k := MountingStage(mounts);
    assert k.baseDigest[7..] == seq(64, i => '0');
    assert '\U{0}' !in k.engineVersion;
  }

  // ----- The message in terms of the stage -----

  /** `a` does not come after `b` by the first key and, where that agrees, by the second. */
  predicate InOrder(a: (string, string), b: (string, string)) {
    Less(a.0, b.0) || (a.0 == b.0 && !Less(b.1, a.1))
  }

  lemma PairInOrder(a: (string, string), b: (string, string))
    requires !PairLess(b, a)
    ensures InOrder(a, b)
  {
    LessConnected(a.0, b.0);
  }

  /** The lists of a stage as they are hashed: sorted by these keys, with nothing added or lost. */
  ghost predicate WellSorted(t: Stage, c: Canonical) {
    && c.body == t.body
    && Permutation(c.mounts, t.mounts) && Permutation(c.secrets, t.secrets)
    && Permutation(c.caches, t.caches) && Permutation(c.outputs, t.outputs)
    && (forall i, j :: 0 <= i < j < |c.mounts| ==> InOrder((c.mounts[i].target, c.mounts[i].source), (c.mounts[j].target, c.mounts[j].source)))
    && (forall i, j :: 0 <= i < j < |c.secrets| ==> InOrder((c.secrets[i].target, c.secrets[i].id), (c.secrets[j].target, c.secrets[j].id)))
    && (forall i, j :: 0 <= i < j < |c.caches| ==> InOrder((c.caches[i].target, c.caches[i].id), (c.caches[j].target, c.caches[j].id)))
    && (forall i, j :: 0 <= i < j < |c.outputs| ==> !Less(c.outputs[j].name, c.outputs[i].name))
  }

  /** The inputs as they are hashed: by stage, then name, then digest. */
  predicate InputsSorted(ps: seq<InputDigest>) {
    forall i, j :: 0 <= i < j < |ps| ==>
      var a, b := ps[i], ps[j];
      || Less(a.reference.stage, b.reference.stage)
      || (a.reference.stage == b.reference.stage && InOrder((a.reference.name, a.digest), (b.reference.name, b.digest)))
  }

  lemma CanonicalMeans(t: Stage, c: Canonical)
    requires IsCanonical(t, c)
    ensures WellSorted(t, c)
  {
    forall i, j | 0 <= i < j < |c.mounts|
      ensures InOrder((c.mounts[i].target, c.mounts[i].source), (c.mounts[j].target, c.mounts[j].source))
    {
      assert !MountLess(c.mounts[j], c.mounts[i]);
      PairInOrder((c.mounts[i].target, c.mounts[i].source), (c.mounts[j].target, c.mounts[j].source));
    }
    forall i, j | 0 <= i < j < |c.secrets|
      ensures InOrder((c.secrets[i].target, c.secrets[i].id), (c.secrets[j].target, c.secrets[j].id))
    {
      assert !SecretLess(c.secrets[j], c.secrets[i]);
      PairInOrder((c.secrets[i].target, c.secrets[i].id), (c.secrets[j].target, c.secrets[j].id));
    }
    forall i, j | 0 <= i < j < |c.caches|
      ensures InOrder((c.caches[i].target, c.caches[i].id), (c.caches[j].target, c.caches[j].id))
    {
      assert !CacheLess(c.caches[j], c.caches[i]);
      PairInOrder((c.caches[i].target, c.caches[i].id), (c.caches[j].target, c.caches[j].id));
    }
    forall i, j | 0 <= i < j < |c.outputs| ensures !Less(c.outputs[j].name, c.outputs[i].name) {
      assert !OutputLess(c.outputs[j], c.outputs[i]);
    }
  }

  lemma InputsMean(k: KeyInputs, ps: seq<InputDigest>)
    requires Accepted(k) && SortResult(InputLess, Pairs(k), ps)
    ensures InputsSorted(ps)
    ensures forall x :: x in ps <==> exists i :: 0 <= i < |k.inputDigests| && x.reference == k.stage.inputs[i] && x.digest == k.inputDigests[i]
  {
    hide Less;
    SameMembers(ps, Pairs(k));
    forall x ensures x in ps <==> exists i :: 0 <= i < |k.inputDigests| && x.reference == k.stage.inputs[i] && x.digest == k.inputDigests[i] {
      if x in ps {
        var i :| 0 <= i < |Pairs(k)| && Pairs(k)[i] == x;
        assert x.reference == k.stage.inputs[i] && x.digest == k.inputDigests[i];
      }
      if exists i :: 0 <= i < |k.inputDigests| && x.reference == k.stage.inputs[i] && x.digest == k.inputDigests[i] {
        var i :| 0 <= i < |k.inputDigests| && x.reference == k.stage.inputs[i] && x.digest == k.inputDigests[i];
        assert Pairs(k)[i] == x;
      }
    }
    forall i, j | 0 <= i < j < |ps|
      ensures var a, b := ps[i], ps[j];
              || Less(a.reference.stage, b.reference.stage)
              || (a.reference.stage == b.reference.stage && InOrder((a.reference.name, a.digest), (b.reference.name, b.digest)))
    {
      var a, b := ps[i], ps[j];
      assert !InputLess(b, a);
      LessConnected(a.reference.stage, b.reference.stage);
      if a.reference.stage == b.reference.stage {
        PairInOrder((a.reference.name, a.digest), (b.reference.name, b.digest));
      }
    }
  }

  /** What is hashed, part by part: engine, base, platform, the sorted inputs, the sorted stage. */
  lemma KeyPartsMean(e: Encoders, k: KeyInputs, parts: seq<Bytes>) returns (inputs: seq<InputDigest>, c: Canonical)
    requires Accepted(k) && KeyParts(e, k, parts)
    ensures |parts| == 5 && parts[0] == e.text(k.engineVersion) && parts[1] == e.text(k.baseDigest) && parts[2] == e.text(k.platform)
    ensures parts[3] == e.inputs(inputs) && InputsSorted(inputs) && |inputs| == |k.inputDigests|
    ensures parts[4] == e.stage(c) && WellSorted(k.stage, c)
  {
    hide WellSorted, InputsSorted, IsCanonical;
    inputs, c :| SortResult(InputLess, Pairs(k), inputs) && IsCanonical(k.stage, c) && parts == Parts(e, k, inputs, c);
    InputsMean(k, inputs);
    SameMembers(inputs, Pairs(k));
    CanonicalMeans(k.stage, c);
  }
}

/** Derived identities: a hash over NUL-separated fields, and when two are the same. */
module Identity {
  import opened Wrappers
  import Store

  const NUL: byte := 0

  function Preimage(domain: Bytes, parts: seq<Bytes>): Bytes {
    if parts == [] then domain else Preimage(domain, parts[..|parts| - 1]) + [NUL] + parts[|parts| - 1]
  }

  /** `DeriveID`: the running hash is fed the domain, then a NUL and each part. */
  method DeriveId(domain: Bytes, parts: seq<Bytes>, hash: Bytes -> string) returns (id: string)
    ensures id == hash(Preimage(domain, parts))
  {
    var fed := domain;
    for i := 0 to |parts|
      invariant fed == Preimage(domain, parts[..i])
    {
      assert parts[..i + 1][..i] == parts[..i];
      fed := fed + [NUL];
      fed := fed + parts[i];
    }
    assert parts[..|parts|] == parts;
    return hash(fed);
  }

  // ----- What a preimage tells -----

  function FirstNul(b: Bytes): (i: nat)
    ensures i <= |b| && NUL !in b[..i] && (i < |b| ==> b[i] == NUL)
  {
    if b == [] || b[0] == NUL then 0 else 1 + FirstNul(b[1..])
  }

  /** The fields between NULs. */
  function Fields(b: Bytes): (fs: seq<Bytes>)
    ensures fs != []
    decreases |b|
  {
    var i := FirstNul(b);
    if i == |b| then [b] else [b[..i]] + Fields(b[i + 1..])
  }

  /** The fields joined by NULs. */
  function Joined(fs: seq<Bytes>): Bytes
    requires fs != []
  {
    if |fs| == 1 then fs[0] else fs[0] + [NUL] + Joined(fs[1..])
  }

  lemma FieldsUnfold(b: Bytes)
    ensures var i := FirstNul(b);
            Fields(b) == if i == |b| then [b] else [b[..i]] + Fields(b[i + 1..])
  {
    hide FirstNul;
  }

  lemma JoinedOne(b: Bytes)
    ensures Joined([b]) == b
  {
  }

  lemma {:induction false} JoinedFields(b: Bytes)
    ensures Joined(Fields(b)) == b
    decreases |b|
  {
    hide Fields, Joined, FirstNul;
    FieldsUnfold(b);
    var i := FirstNul(b);
    if i == |b| {
      JoinedOne(b);
    } else {
      JoinedFields(b[i + 1..]);
      JoinedCons(b[..i], Fields(b[i + 1..]));
      assert b == b[..i] + [NUL] + b[i + 1..];
    }
  }

  lemma JoinedCons(head: Bytes, fs: seq<Bytes>)
    requires fs != []
    ensures Joined([head] + fs) == head + [NUL] + Joined(fs)
  {
    assert ([head] + fs)[1..] == fs;
  }

  lemma {:induction false} FirstNulAt(a: Bytes, b: Bytes)
    requires NUL !in a
    ensures FirstNul(a + [NUL] + b) == |a|
  {
    if a != [] {
      assert (a + [NUL] + b)[1..] == a[1..] + [NUL] + b;
      FirstNulAt(a[1..], b);
    }
  }

  /** A NUL separates fields wherever it comes from. */
  lemma {:induction false} FieldsConcat(a: Bytes, b: Bytes)
    ensures Fields(a + [NUL] + b) == Fields(a) + Fields(b)
    decreases |a|
  {
    hide FirstNul, Fields;
    var i, whole := FirstNul(a), a + [NUL] + b;
    FieldsUnfold(a);
    FieldsUnfold(whole);
    if i == |a| {
      assert a[..i] == a;
      FirstNulAt(a, b);
      assert whole[..|a|] == a && whole[|a| + 1..] == b;
    } else {
      var head, rest := a[..i], a[i + 1..];
      assert a == head + [NUL] + rest;
      assert whole == head + [NUL] + (rest + [NUL] + b);
      FirstNulAt(head, rest + [NUL] + b);
      assert whole[..i] == head && whole[i + 1..] == rest + [NUL] + b;
      FieldsConcat(rest, b);
    }
  }

  /** Domain and parts cut at their own NULs as well. */
  function NormalForm(domain: Bytes, parts: seq<Bytes>): seq<Bytes> {
    if parts == [] then Fields(domain) else NormalForm(domain, parts[..|parts| - 1]) + Fields(parts[|parts| - 1])
  }

  lemma {:induction false} PreimageFields(domain: Bytes, parts: seq<Bytes>)
    ensures Fields(Preimage(domain, parts)) == NormalForm(domain, parts)
  {
    hide Fields;
    if parts != [] {
      var n := |parts| - 1;
      PreimageFields(domain, parts[..n]);
      FieldsConcat(Preimage(domain, parts[..n]), parts[n]);
    }
  }

  /** Two inputs are hashed alike exactly if they agree once cut at every NUL. */
  lemma PreimageEqualIff(d: Bytes, ps: seq<Bytes>, e: Bytes, qs: seq<Bytes>)
    ensures Preimage(d, ps) == Preimage(e, qs) <==> NormalForm(d, ps) == NormalForm(e, qs)
  {
    hide Preimage, NormalForm, Fields;
    PreimageFields(d, ps);
    PreimageFields(e, qs);
    JoinedFields(Preimage(d, ps));
    JoinedFields(Preimage(e, qs));
  }

  predicate NulFree(domain: Bytes, parts: seq<Bytes>) {
    NUL !in domain && forall i :: 0 <= i < |parts| ==> NUL !in parts[i]
  }

  lemma {:induction false} OneField(b: Bytes)
    requires NUL !in b
    ensures Fields(b) == [b]
  {
    NoNul(b);
  }

  lemma {:induction false} NoNul(b: Bytes)
    requires NUL !in b
    ensures FirstNul(b) == |b|
  {
    if b != [] {
      NoNul(b[1..]);
    }
  }

  lemma {:induction false} NulFreeForm(domain: Bytes, parts: seq<Bytes>)
    requires NulFree(domain, parts)
    ensures NormalForm(domain, parts) == [domain] + parts
  {
    hide Fields;
    if parts == [] {
      OneField(domain);
    } else {
      var n := |parts| - 1;
      NulFreeForm(domain, parts[..n]);
      OneField(parts[n]);
      assert parts == parts[..n] + [parts[n]];
    }
  }

  /** Without NULs the framing is unambiguous, for part lists of any length. */
  lemma PreimageInjective(d: Bytes, ps: seq<Bytes>, e: Bytes, qs: seq<Bytes>)
    requires NulFree(d, ps) && NulFree(e, qs) && Preimage(d, ps) == Preimage(e, qs)
    ensures d == e && ps == qs
  {
    hide Preimage, NormalForm;
    PreimageEqualIff(d, ps, e, qs);
    NulFreeForm(d, ps);
    NulFreeForm(e, qs);
    assert ([d] + ps)[0] == d && ([e] + qs)[0] == e && ([d] + ps)[1..] == ps && ([e] + qs)[1..] == qs;
  }

  /** Equal identities mean equal inputs, unless the hash collides on the two preimages. */
  lemma SameIdSameInput(hash: Bytes -> string, d: Bytes, ps: seq<Bytes>, e: Bytes, qs: seq<Bytes>)
    requires NulFree(d, ps) && NulFree(e, qs) && hash(Preimage(d, ps)) == hash(Preimage(e, qs))
    ensures (d == e && ps == qs) || Store.Collides(hash, Preimage(d, ps), Preimage(e, qs))
  {
    hide Preimage, NulFree;
    if Preimage(d, ps) == Preimage(e, qs) {
      PreimageInjective(d, ps, e, qs);
    }
  }

  /** A part that holds a NUL passes for two parts, under every domain and hash. */
  lemma NulInAPart(hash: Bytes -> string, domain: Bytes, a: Bytes, b: Bytes)
    ensures [a + [NUL] + b] != [a, b]
    ensures hash(Preimage(domain, [a + [NUL] + b])) == hash(Preimage(domain, [a, b]))
  {
    var one, two := [a + [NUL] + b], [a, b];
    assert one[..0] == [] && two[..1] == [a] && [a][..0] == [];
    assert Preimage(domain, [a]) == domain + [NUL] + a;
    assert Preimage(domain, one) == domain + [NUL] + (a + [NUL] + b);
    assert Preimage(domain, two) == domain + [NUL] + a + [NUL] + b;
    assert Preimage(domain, one) == Preimage(domain, two);
    assert |one| != |two|;
  }
}

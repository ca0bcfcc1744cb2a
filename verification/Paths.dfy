/** Slash-separated paths as `strings.Split` and `path` treat them. */
module Paths {

  /** `strings.Split(p, "/")`. */
  function Split(p: string): (segments: seq<string>)
    ensures segments != []
    ensures forall i :: 0 <= i < |segments| ==> '/' !in segments[i]
    decreases |p|
  {
    var i := FirstSlash(p);
    if i == |p| then [p] else [p[..i]] + Split(p[i + 1..])
  }

  /** The index of the first slash, or the length if there is none. */
  function FirstSlash(p: string): (i: nat)
    ensures i <= |p| && '/' !in p[..i] && (i < |p| ==> p[i] == '/')
  {
    if p == [] then 0 else if p[0] == '/' then 0 else 1 + FirstSlash(p[1..])
  }

  /** The index just past the last slash, 0 if there is none. */
  function BaseStart(p: string): (i: nat)
    ensures i <= |p| && '/' !in p[i..] && (i > 0 ==> p[i - 1] == '/')
  {
    if p == [] then 0
    else if p[|p| - 1] == '/' then |p|
    else
      var i := BaseStart(p[..|p| - 1]);
      assert p[i..] == p[..|p| - 1][i..] + [p[|p| - 1]];
      i
  }

  lemma {:induction false} BaseStartAfter(dir: string, base: string)
    requires '/' !in base
    ensures BaseStart(dir + "/" + base) == |dir| + 1
  {
    var p := dir + "/" + base;
    if base != "" {
      var short := base[..|base| - 1];
      assert p[..|p| - 1] == dir + "/" + short;
      BaseStartAfter(dir, short);
    }
  }

  lemma {:induction false} BaseStartAlone(base: string)
    requires '/' !in base
    ensures BaseStart(base) == 0
  {
    if base != "" {
      BaseStartAlone(base[..|base| - 1]);
    }
  }

  /** `path.Base` of a path that does not end in a slash. */
  function Base(p: string): string {
    p[BaseStart(p)..]
  }

  /** A segment that `path.Clean` leaves alone. */
  predicate PlainSegment(s: string) {
    s != "" && s != "." && s != ".."
  }

  /** A relative path that `path.Clean` returns unchanged and that has no dot segment. */
  predicate CleanRelative(p: string) {
    forall i :: 0 <= i < |Split(p)| ==> PlainSegment(Split(p)[i])
  }

  /** An absolute path other than the root that `path.Clean` returns unchanged. */
  predicate CleanAbsolute(p: string) {
    "/" <= p && CleanRelative(p[1..])
  }

  /** All prefixes of `p` that end in a slash. */
  function SlashPrefixes(p: string): set<string> {
    set i | 0 <= i < |p| && p[i] == '/' :: p[..i + 1]
  }

  /** What accumulating `segment + "/"` produces, starting from `base`. */
  function Accumulated(base: string, segments: seq<string>): set<string>
    decreases segments
  {
    if segments == [] then {}
    else {base + segments[0] + "/"} + Accumulated(base + segments[0] + "/", segments[1..])
  }

  /** The slash-ended prefixes that are at least as long as `base`. */
  function PrefixesFrom(q: string, k: nat): set<string> {
    set i | k <= i < |q| && q[i] == '/' :: q[..i + 1]
  }

  lemma PrefixStep(q: string, k: nat, m: nat)
    requires k <= m < |q| && q[m] == '/' && '/' !in q[k..m]
    ensures PrefixesFrom(q, k) == {q[..m + 1]} + PrefixesFrom(q, m + 1)
  {
    assert forall i :: k <= i < m ==> q[i] == q[k..m][i - k] && q[i] != '/';
  }

  lemma {:induction false} FirstSlashAt(p: string, i: nat)
    requires i < |p| && p[i] == '/' && '/' !in p[..i]
    ensures FirstSlash(p) == i
  {
    if i > 0 {
      assert p[0] == p[..i][0] && p[1..][..i - 1] == p[..i][1..];
      FirstSlashAt(p[1..], i - 1);
    }
  }

  lemma SplitCons(a: string, b: string)
    requires '/' !in a
    ensures Split(a + "/" + b) == [a] + Split(b)
  {
    var p := a + "/" + b;
    assert p[..|a|] == a && p[|a| + 1..] == b;
    FirstSlashAt(p, |a|);
  }

  lemma SplitOne(a: string)
    requires '/' !in a
    ensures Split(a) == [a]
  {
    NoFirstSlash(a);
  }

  lemma {:induction false} NoFirstSlash(a: string)
    requires '/' !in a
    ensures FirstSlash(a) == |a|
  {
    if a != [] {
      NoFirstSlash(a[1..]);
    }
  }

  lemma {:induction false} AccumulatedIsPrefixes(base: string, p: string)
    ensures Accumulated(base, Split(p)) == PrefixesFrom(base + p + "/", |base|)
    decreases |p|
  {
    hide PrefixesFrom, Split, Accumulated, FirstSlash;
    SplitUnfold(p);
    var i := FirstSlash(p);
    var head, q := p[..i], base + p + "/";
    var m := |base| + i;
    var next := base + head + "/";
    assert q[|base|..m] == head && q[..m + 1] == next;
    PrefixStep(q, |base|, m);
    if i == |p| {
      AccumulatedOne(base, head);
      NothingAfter(q);
    } else {
      var rest := p[i + 1..];
      AccumulatedCons(base, head, Split(rest));
      AccumulatedIsPrefixes(next, rest);
      assert next + rest + "/" == q;
    }
  }

  lemma SplitUnfold(p: string)
    ensures var i := FirstSlash(p);
            Split(p) == if i == |p| then [p[..i]] else [p[..i]] + Split(p[i + 1..])
  {
    assert p[..|p|] == p;
  }

  lemma AccumulatedOne(base: string, head: string)
    ensures Accumulated(base, [head]) == {base + head + "/"}
  {
    assert [head][1..] == [];
  }

  lemma AccumulatedCons(base: string, head: string, rest: seq<string>)
    ensures Accumulated(base, [head] + rest) == {base + head + "/"} + Accumulated(base + head + "/", rest)
  {
    assert ([head] + rest)[1..] == rest;
  }

  lemma NothingAfter(q: string)
    ensures PrefixesFrom(q, |q|) == {}
  {
  }

  lemma SplitPrefixes(p: string)
    ensures Accumulated("", Split(p)) == SlashPrefixes(p + "/")
  {
    AccumulatedIsPrefixes("", p);
    assert "" + p + "/" == p + "/";
  }

  /** Slash-ended prefixes of a slash-ended prefix are prefixes of the whole. */
  lemma PrefixClosed(p: string, d: string, e: string)
    requires d in SlashPrefixes(p) && e in SlashPrefixes(d)
    ensures e in SlashPrefixes(p)
  {
    var i :| 0 <= i < |p| && p[i] == '/' && p[..i + 1] == d;
    var j :| 0 <= j < |d| && d[j] == '/' && d[..j + 1] == e;
    assert p[j] == '/' && p[..j + 1] == e;
  }

  /** A base name adds one segment. */
  lemma {:induction false} SplitJoin(dir: string, base: string)
    requires '/' !in base
    ensures Split(dir + "/" + base) == Split(dir) + [base]
    decreases |dir|
  {
    var i := FirstSlash(dir);
    var head := dir[..i];
    if i == |dir| {
      SplitCons(dir, base);
      SplitOne(base);
    } else {
      var rest := dir[i + 1..];
      assert dir == head + "/" + rest;
      assert dir + "/" + base == head + "/" + (rest + "/" + base);
      SplitCons(head, rest + "/" + base);
      SplitJoin(rest, base);
    }
  }

  /** `path.Dir` of a clean relative path: the text before the last slash, or ".". */
  function Dir(p: string): string {
    if BaseStart(p) == 0 then "." else p[..BaseStart(p) - 1]
  }

  /** The directory of a clean path is clean, so none of its segments is a dot. */
  lemma CleanDir(p: string)
    requires CleanRelative(p) && BaseStart(p) > 0
    ensures CleanRelative(Dir(p))
    ensures SlashPrefixes(p) == SlashPrefixes(Dir(p) + "/")
  {
    var b := BaseStart(p);
    assert p == Dir(p) + "/" + Base(p);
    SplitJoin(Dir(p), Base(p));
    forall i | 0 <= i < |Split(Dir(p))| ensures PlainSegment(Split(Dir(p))[i]) {
      assert Split(p)[i] == Split(Dir(p))[i];
    }
    assert Dir(p) + "/" == p[..b];
    NoSlashAfter(p, b);
  }

  lemma NoSlashAfter(p: string, b: nat)
    requires b <= |p| && '/' !in p[b..]
    ensures SlashPrefixes(p) == SlashPrefixes(p[..b])
  {
    assert forall i :: b <= i < |p| ==> p[i] == p[b..][i - b] && p[i] != '/';
    assert forall i :: 0 <= i < b ==> p[..b][i] == p[i] && p[..b][..i + 1] == p[..i + 1];
  }

  lemma NoPrefixes(p: string)
    requires BaseStart(p) == 0
    ensures SlashPrefixes(p) == {}
  {
    assert forall i :: 0 <= i < |p| ==> p[i] == p[0..][i];
  }

  /** A slash cuts wherever it stands. */
  lemma {:induction false} SplitBoth(a: string, b: string)
    ensures Split(a + "/" + b) == Split(a) + Split(b)
    decreases |a|
  {
    hide Split, FirstSlash;
    var i := FirstSlash(a);
    var head := a[..i];
    if i == |a| {
      SplitCons(a, b);
      SplitOne(a);
    } else {
      var rest := a[i + 1..];
      assert a == head + "/" + rest;
      assert a + "/" + b == head + "/" + (rest + "/" + b);
      SplitCons(head, rest + "/" + b);
      SplitCons(head, rest);
      SplitBoth(rest, b);
    }
  }

  /** An empty segment, "." or ".." anywhere makes a path unclean. */
  lemma UncleanPaths(a: string, segment: string, b: string)
    requires segment == "" || segment == "." || segment == ".."
    ensures !CleanRelative(segment) && !CleanRelative(segment + "/" + b) && !CleanRelative(a + "/" + segment)
    ensures !CleanRelative(a + "/" + segment + "/" + b)
  {
    hide Split, FirstSlash;
    SplitOne(segment);
    SplitBoth(segment, b);
    SplitBoth(a, segment);
    SplitBoth(a + "/" + segment, b);
    assert Split(segment)[0] == segment && Split(segment + "/" + b)[0] == segment;
    assert Split(a + "/" + segment)[|Split(a)|] == segment && Split(a + "/" + segment + "/" + b)[|Split(a)|] == segment;
  }
}

/** Length-prefixed framing: an eight-byte big-endian length, then the bytes. */
module Lengths {
  import opened Wrappers

  function Pow256(k: nat): (p: nat)
    ensures p > 0
  {
    if k == 0 then 1 else 256 * Pow256(k - 1)
  }

  /** The number in `k` big-endian bytes. */
  function BigEndian(n: nat, k: nat): (b: Bytes)
    ensures |b| == k
  {
    if k == 0 then [] else BigEndian(n / 256, k - 1) + [(n % 256) as byte]
  }

  lemma {:induction false} BigEndianInjective(m: nat, n: nat, k: nat)
    requires m < Pow256(k) && n < Pow256(k) && BigEndian(m, k) == BigEndian(n, k)
    ensures m == n
    decreases k
  {
    if k > 0 {
      var a, b := BigEndian(m, k), BigEndian(n, k);
      assert a[k - 1] == (m % 256) as byte && b[k - 1] == (n % 256) as byte;
      assert a[..k - 1] == BigEndian(m / 256, k - 1) && b[..k - 1] == BigEndian(n / 256, k - 1);
      BigEndianInjective(m / 256, n / 256, k - 1);
    }
  }

  /** `writePart`. */
  function Part(b: Bytes): Bytes {
    BigEndian(|b|, 8) + b
  }

  function Frame(parts: seq<Bytes>): Bytes {
    if parts == [] then [] else Part(parts[0]) + Frame(parts[1..])
  }

  /** Lengths fit the eight bytes that record them. */
  predicate Fit(parts: seq<Bytes>) {
    forall i :: 0 <= i < |parts| ==> |parts[i]| < Pow256(8)
  }

  lemma PartCancels(x: Bytes, r: Bytes, y: Bytes, s: Bytes)
    requires |x| < Pow256(8) && |y| < Pow256(8) && Part(x) + r == Part(y) + s
    ensures x == y && r == s
  {
    hide Pow256, BigEndian;
    var f := Part(x) + r;
    var g := Part(y) + s;
    assert f[..8] == BigEndian(|x|, 8) && g[..8] == BigEndian(|y|, 8);
    BigEndianInjective(|x|, |y|, 8);
    var n := 8 + |x|;
    assert f[8..n] == x && g[8..n] == y;
    assert f[n..] == r && g[n..] == s;
  }

  /** A frame determines its parts: no part can pose as another. */
  lemma {:induction false} FrameInjective(xs: seq<Bytes>, ys: seq<Bytes>)
    requires |xs| == |ys| && Fit(xs) && Fit(ys) && Frame(xs) == Frame(ys)
    ensures xs == ys
  {
    hide Pow256, BigEndian, Part;
    if xs != [] {
      PartCancels(xs[0], Frame(xs[1..]), ys[0], Frame(ys[1..]));
      FrameInjective(xs[1..], ys[1..]);
      assert xs == [xs[0]] + xs[1..] && ys == [ys[0]] + ys[1..];
    }
  }

  /** Byte `i` of the number, the most significant first. */
  lemma {:induction false} BigEndianAt(n: nat, k: nat, i: nat)
    requires i < k
    ensures BigEndian(n, k)[i] as int == (n / Pow256(k - 1 - i)) % 256
  {
    if i < k - 1 {
      BigEndianAt(n / 256, k - 1, i);
      DivTwice(n, Pow256(k - 2 - i));
    }
  }

  lemma DivTwice(n: nat, p: nat)
    requires p > 0
    ensures (n / 256) / p == n / (256 * p)
  {
    var q, r := n / (256 * p), n % (256 * p);
    assert n == 256 * (p * q) + r && 0 <= r < 256 * p;
    assert n / 256 == p * q + r / 256 && 0 <= r / 256 < p;
    QuotientIs(n / 256, p, q, r / 256);
  }

  lemma QuotientIs(x: nat, p: nat, q: nat, r: nat)
    requires p > 0 && x == p * q + r && r < p
    ensures x / p == q
  {
    var d := x / p - q;
    assert x == p * (x / p) + x % p;
    assert p * d == r - x % p;
    AtLeastOnce(p, d);
  }

  lemma AtLeastOnce(p: int, d: int)
    requires p > 0
    ensures d >= 1 ==> p * d >= p
    ensures d <= -1 ==> p * d <= -p
  {
  }

  /** A part: eight bytes that spell its length, most significant first, then its bytes. */
  lemma PartMeans(b: Bytes)
    ensures |Part(b)| == 8 + |b| && Part(b)[8..] == b
    ensures forall i :: 0 <= i < 8 ==> Part(b)[i] as int == (|b| / Pow256(7 - i)) % 256
  {
    forall i | 0 <= i < 8 ensures Part(b)[i] as int == (|b| / Pow256(7 - i)) % 256 {
      BigEndianAt(|b|, 8, i);
    }
  }
}

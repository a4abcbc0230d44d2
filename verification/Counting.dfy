/** The counting sort of one run, through a histogram of 16-bit counters that is all zero between runs
    (chdk-src/core/bendx.c:1316-1352). */
module Counting {
  import opened Arith
  import opened Bits
  import opened Cfa
  import opened Frame
  import opened Packed
  import opened PixelRows
  import opened Pixels
  import opened Runs
  import opened Words

  const BUCKETS: nat := 4096

  // An unsigned short, counted up and down with its wrap.
  function Up(c: nat): nat { (c + 1) % 0x10000 }

  function OneLess(c: nat): nat { (c + 0xffff) % 0x10000 }

  // The histogram of s.
  ghost predicate Counts(h: seq<nat>, s: seq<nat>) {
    |h| == BUCKETS && forall v: nat | v < BUCKETS :: h[v] == multiset(s)[v]
  }

  // ----- The values of a histogram, in order -----

  function Repeated(v: nat, c: nat): (r: seq<nat>)
    ensures |r| == c
  {
    seq(c, i => v)
  }

  // The k-th value met, from lo up or from hi down.
  function Kth(lo: nat, hi: nat, down: bool, k: nat): nat
    requires lo <= hi && k <= hi - lo
  {
    if down then hi - k else lo + k
  }

  ghost function Flat(s: multiset<nat>, lo: nat, hi: nat, down: bool, k: nat): seq<nat>
    requires lo <= hi && k <= hi - lo + 1
  {
    if k == 0 then []
    else var v := Kth(lo, hi, down, k - 1); Flat(s, lo, hi, down, k - 1) + Repeated(v, s[v])
  }

  lemma RepeatedIs(v: nat, c: nat)
    ensures multiset(Repeated(v, c)) == multiset{}[v := c]
    decreases c
  {
    if c > 0 {
      RepeatedIs(v, c - 1);
      assert Repeated(v, c) == Repeated(v, c - 1) + [v];
    } else {
      assert Repeated(v, c) == [];
    }
  }

  // Whether v is among the first k values.
  predicate Met(lo: nat, hi: nat, down: bool, k: nat, v: nat)
    requires lo <= hi && k <= hi - lo + 1
  {
    lo <= v <= hi && if down then hi - v < k else v - lo < k
  }

  lemma {:induction false} FlatIs(s: multiset<nat>, lo: nat, hi: nat, down: bool, k: nat)
    requires lo <= hi && k <= hi - lo + 1
    ensures forall v: nat :: multiset(Flat(s, lo, hi, down, k))[v] == if Met(lo, hi, down, k, v) then s[v] else 0
  {
    if k > 0 {
      var v := Kth(lo, hi, down, k - 1);
      FlatIs(s, lo, hi, down, k - 1);
      RepeatedIs(v, s[v]);
      hide Repeated;
      var f := Flat(s, lo, hi, down, k - 1);
      assert multiset(f + Repeated(v, s[v])) == multiset(f) + multiset(Repeated(v, s[v]));
      forall w: nat ensures Met(lo, hi, down, k, w) == (Met(lo, hi, down, k - 1, w) || w == v) && !Met(lo, hi, down, k - 1, v) {
      }
      hide Met;
    }
  }

  lemma {:induction false} FlatInOrder(s: multiset<nat>, lo: nat, hi: nat, down: bool, k: nat)
    requires lo <= hi && k <= hi - lo + 1
    ensures InOrder(Flat(s, lo, hi, down, k), down)
    ensures forall i | 0 <= i < |Flat(s, lo, hi, down, k)| :: Met(lo, hi, down, k, Flat(s, lo, hi, down, k)[i])
  {
    if k > 0 {
      FlatInOrder(s, lo, hi, down, k - 1);
      var v := Kth(lo, hi, down, k - 1);
      var f, r := Flat(s, lo, hi, down, k - 1), Repeated(v, s[v]);
      assert forall i | 0 <= i < |r| :: r[i] == v;
      assert Flat(s, lo, hi, down, k) == f + r;
      hide Flat, Repeated;
    }
  }

  // What has been met never is more than there is.
  lemma FlatFits(s: multiset<nat>, lo: nat, hi: nat, down: bool, k: nat)
    requires lo <= hi && k <= hi - lo + 1
    ensures |Flat(s, lo, hi, down, k)| <= |s|
  {
    hide *;
    FlatIs(s, lo, hi, down, k);
    var f: multiset<nat> := multiset(Flat(s, lo, hi, down, k));
    assert f <= s;
    assert s == f + (s - f);
  }

  predicate Within(s: seq<nat>, lo: nat, hi: nat) { forall k | 0 <= k < |s| :: lo <= s[k] <= hi }

  lemma WithinIs(s: seq<nat>, lo: nat, hi: nat, v: nat)
    requires Within(s, lo, hi) && v in s
    ensures lo <= v <= hi
  {
  }

  // All of them met, the run is in order.
  lemma FlatSorts(s: seq<nat>, lo: nat, hi: nat, down: bool)
    requires lo <= hi && Within(s, lo, hi)
    ensures Flat(multiset(s), lo, hi, down, hi - lo + 1) == Ordered(s, down)
  {
    hide *;
    var f: seq<nat> := Flat(multiset(s), lo, hi, down, hi - lo + 1);
    FlatIs(multiset(s), lo, hi, down, hi - lo + 1);
    FlatInOrder(multiset(s), lo, hi, down, hi - lo + 1);
    OrderedIs(s, down);
    forall v: nat ensures multiset(f)[v] == multiset(s)[v] {
      AllMet(lo, hi, down, v);
      if v in multiset(s) {
        assert v in s;
        WithinIs(s, lo, hi, v);
      }
    }
    assert multiset(f) == multiset(s);
    OneOrder(f, Ordered(s, down), down);
  }

  lemma AllMet(lo: nat, hi: nat, down: bool, v: nat)
    requires lo <= hi
    ensures Met(lo, hi, down, hi - lo + 1, v) == (lo <= v <= hi)
  {
  }

  // ----- Writing back -----

  // The row vs with the values em written over pixels a, a + 2, ...
  ghost function Written(vs: seq<nat>, a: nat, em: seq<nat>, x: Profile, n: depth): (cur: seq<nat>)
    ensures |cur| == |vs|
  {
    seq(|vs|, i requires 0 <= i < |vs| => WrittenAt(vs, a, em, x, n, i))
  }

  ghost function WrittenAt(vs: seq<nat>, a: nat, em: seq<nat>, x: Profile, n: depth, i: nat): nat
    requires i < |vs|
  {
    if i >= a && i % 2 == a % 2 && (i - a) / 2 < |em| then Merge(vs[i], em[(i - a) / 2], Planes(x, n), x.mix, n) else vs[i]
  }

  lemma WriteNext(vs: seq<nat>, a: nat, em: seq<nat>, x: Profile, n: depth, v: nat, w: nat)
    requires w == a + 2 * |em| < |vs|
    ensures Written(vs, a, em, x, n)[w] == vs[w]
    ensures Written(vs, a, em, x, n)[w := Merge(vs[w], v, Planes(x, n), x.mix, n)] == Written(vs, a, em + [v], x, n)
  {
    hide Merge, Planes;
    var c, d := Written(vs, a, em, x, n), Written(vs, a, em + [v], x, n);
    forall i | 0 <= i < |vs| && i != w ensures c[i] == d[i] {
      hide Written;
      assert c[i] == WrittenAt(vs, a, em, x, n, i) && d[i] == WrittenAt(vs, a, em + [v], x, n, i);
    }
  }

  lemma WriteNothing(vs: seq<nat>, a: nat, x: Profile, n: depth)
    ensures Written(vs, a, [], x, n) == vs
  {
    hide Merge, Planes;
  }

  // Writes v as often as it was counted: while (hist[v]--).  The counter ends at 0xffff.
  method Drain(base: array<byte>, p: nat, len: nat, npix: nat, n: depth, x: Profile, hist: array<nat>, v: nat, w0: nat,
               ghost m: seq<byte>, ghost vs: seq<nat>, ghost a: nat, ghost em: seq<nat>) returns (w: nat)
    requires base as object != hist as object && v < hist.Length && v < Pow2(n) && hist[v] < 0x10000
    requires |vs| == npix && w0 == a + 2 * |em| && a + 2 * (|em| + hist[v]) <= npix + 1
    requires Repainted(m, base[..], p, len, npix, n, Written(vs, a, em, x, n))
    modifies base, hist
    ensures hist[..] == old(hist[..])[v := 0xffff]
    ensures w == w0 + 2 * old(hist[v])
    ensures Repainted(m, base[..], p, len, npix, n, Written(vs, a, em + Repeated(v, old(hist[v])), x, n))
  {
    hide *;
    var mask := Planes(x, n);
    ghost var h, c := hist[..], hist[v];
    ghost var i := 0;
    w := w0;
    RepeatNext(em, v, 0);
    while true
      invariant i <= c && w == w0 + 2 * i && hist[..] == h[v := c - i]
      invariant Repainted(m, base[..], p, len, npix, n, Written(vs, a, em + Repeated(v, i), x, n))
      decreases c - i
    {
      var left := hist[v];
      OneLessIs(left);
      hist[v] := OneLess(left);
      if left == 0 { break; }
      ghost var cur := Written(vs, a, em + Repeated(v, i), x, n);
      WriteNext(vs, a, em + Repeated(v, i), x, n, v, w);
      RepeatNext(em, v, i);
      var o := ReadPixel(base, p, len, npix, w, n, m, cur);
      WritePixel(base, p, len, npix, w, Merge(o, v, mask, x.mix, n), n, m, cur);
      w := w + 2;
      i := i + 1;
    }
  }

  lemma RepeatNext(em: seq<nat>, v: nat, i: nat)
    ensures em + Repeated(v, 0) == em
    ensures em + Repeated(v, i) + [v] == em + Repeated(v, i + 1)
  {
    assert Repeated(v, i) + [v] == Repeated(v, i + 1);
    assert em + Repeated(v, i) + [v] == em + (Repeated(v, i) + [v]);
  }

  lemma OneLessIs(c: nat)
    requires c < 0x10000
    ensures OneLess(c) == if c == 0 then 0xffff else c - 1
  {
  }
}

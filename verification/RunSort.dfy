/** Sorting the runs of every row in place (chdk-src/core/bendx.c:1280-1360). */
module RunSort {
  import opened Arith
  import opened Bits
  import opened Cfa
  import opened Counting
  import opened Frame
  import opened Packed
  import opened PixelRows
  import opened Pixels
  import opened Runs
  import opened Words

  // ----- Tallying a run -----

  lemma CountOne(h: seq<nat>, s: seq<nat>, v: nat)
    requires Counts(h, s) && v < BUCKETS && |s| < 0xffff
    ensures |h| == BUCKETS && h[v] < 0xffff && Counts(h[v := Up(h[v])], s + [v])
  {
    assert multiset(s + [v]) == multiset(s) + multiset{v};
    CountFits(s, v);
  }

  lemma CountFits(s: seq<nat>, v: nat)
    ensures multiset(s)[v] <= |s|
  {
    assert |multiset(s)| == |s|;
    var c := multiset{}[v := multiset(s)[v]];
    assert c <= multiset(s);
    assert multiset(s) == c + (multiset(s) - c);
  }

  lemma CountNone(h: seq<nat>)
    requires |h| == BUCKETS && forall v | 0 <= v < BUCKETS :: h[v] == 0
    ensures Counts(h, [])
  {
  }

  lemma StepNext(vs: seq<nat>, a: nat, i: nat)
    requires a <= i < |vs| && i % 2 == a % 2
    ensures Stepped(vs, a, a) == [] && Stepped(vs, a, i + 2) == Stepped(vs, a, i) + [vs[i]]
  {
    assert vs[a + 2 * ((i - a) / 2)] == vs[i];
  }

  lemma WithinNone(lo: nat, hi: nat)
    ensures Within([], lo, hi)
  {
  }

  lemma WithinNext(s: seq<nat>, lo: nat, hi: nat, v: nat, lo': nat, hi': nat)
    requires Within(s, lo, hi) && lo' <= lo && lo' <= v <= hi' && hi <= hi'
    ensures Within(s + [v], lo', hi')
  {
  }

  lemma DepthFits(n: depth)
    ensures Pow2(n) <= BUCKETS
  {
    Widths();
  }

  lemma CountBound(h: seq<nat>, s: seq<nat>, v: nat)
    requires Counts(h, s) && v < BUCKETS
    ensures |h| == BUCKETS && h[v] == multiset(s)[v] <= |s|
  {
    CountFits(s, v);
  }

  method Tally(base: array<byte>, p: nat, len: nat, npix: nat, n: depth, hist: array<nat>, a: nat, b: nat,
               ghost m: seq<byte>, ghost vs: seq<nat>) returns (lo: nat, hi: nat)
    requires base as object != hist as object && |vs| == npix && a < b <= npix + 1 && a % 2 == b % 2
    requires (b - a) / 2 <= 0xffff && Counts(hist[..], [])
    requires Repainted(m, base[..], p, len, npix, n, vs)
    modifies hist
    ensures base[..] == old(base[..])
    ensures Counts(hist[..], Stepped(vs, a, b)) && lo <= hi < BUCKETS && hi < Pow2(n) && Within(Stepped(vs, a, b), lo, hi)
  {
    hide *;
    lo, hi := Pow2(n) - 1, 0;
    StepNext(vs, a, a);
    DepthFits(n);
    ghost var start := base[..];
    WithinNone(lo, hi);
    var i := a;
    while i < b
      invariant a <= i <= b && i % 2 == a % 2
      invariant base[..] == start
      invariant Counts(hist[..], Stepped(vs, a, i)) && Within(Stepped(vs, a, i), lo, hi)
      invariant lo < Pow2(n) && hi < Pow2(n) && (i > a ==> lo <= hi)
      decreases b - i
    {
      var v := ReadPixel(base, p, len, npix, i, n, m, vs);
      CountOne(hist[..], Stepped(vs, a, i), v);
      StepNext(vs, a, i);
      ghost var lo0, hi0 := lo, hi;
      hist[v] := Up(hist[v]);
      if v < lo { lo := v; }
      if v > hi { hi := v; }
      WithinNext(Stepped(vs, a, i), lo0, hi0, v, lo, hi);
      i := i + 2;
    }
  }

  // ----- Writing it back -----

  // The histogram once the first k values have been drained.
  ghost function Drained(h: seq<nat>, lo: nat, hi: nat, down: bool, k: nat): (r: seq<nat>)
    requires lo <= hi && k <= hi - lo + 1
    ensures |r| == |h|
  {
    seq(|h|, v requires 0 <= v < |h| => if Met(lo, hi, down, k, v) then 0xffff else h[v])
  }

  lemma DrainNext(h: seq<nat>, lo: nat, hi: nat, down: bool, k: nat)
    requires lo <= hi < |h| && k <= hi - lo
    ensures var v := Kth(lo, hi, down, k);
      lo <= v <= hi && Drained(h, lo, hi, down, k)[v] == h[v]
      && Drained(h, lo, hi, down, k + 1) == Drained(h, lo, hi, down, k)[v := 0xffff]
  {
  }

  lemma DrainNothing(h: seq<nat>, lo: nat, hi: nat, down: bool)
    requires lo <= hi
    ensures Drained(h, lo, hi, down, 0) == h
  {
  }

  lemma FlatNext(s: multiset<nat>, lo: nat, hi: nat, down: bool, k: nat)
    requires lo <= hi && k <= hi - lo
    ensures Flat(s, lo, hi, down, 0) == []
    ensures var v := Kth(lo, hi, down, k);
      Flat(s, lo, hi, down, k + 1) == Flat(s, lo, hi, down, k) + Repeated(v, s[v])
  {
  }

  // The k-th value's turn.
  method DrainKth(base: array<byte>, p: nat, len: nat, npix: nat, n: depth, x: Profile, hist: array<nat>, v: nat, w0: nat,
                  ghost m: seq<byte>, ghost vs: seq<nat>, ghost a: nat, ghost b: nat, ghost h: seq<nat>,
                  ghost lo: nat, ghost hi: nat, ghost down: bool, ghost k: nat) returns (w: nat)
    requires base as object != hist as object && a <= b <= npix + 1 && a % 2 == b % 2 && |vs| == npix
    requires (b - a) / 2 <= 0xffff && lo <= hi < BUCKETS && hi < Pow2(n) && k <= hi - lo && v == Kth(lo, hi, down, k)
    requires Counts(h, Stepped(vs, a, b)) && hist[..] == Drained(h, lo, hi, down, k)
    requires w0 == a + 2 * |Flat(multiset(Stepped(vs, a, b)), lo, hi, down, k)|
    requires Repainted(m, base[..], p, len, npix, n, Written(vs, a, Flat(multiset(Stepped(vs, a, b)), lo, hi, down, k), x, n))
    modifies base, hist
    ensures hist[..] == Drained(h, lo, hi, down, k + 1)
    ensures w == a + 2 * |Flat(multiset(Stepped(vs, a, b)), lo, hi, down, k + 1)|
    ensures Repainted(m, base[..], p, len, npix, n, Written(vs, a, Flat(multiset(Stepped(vs, a, b)), lo, hi, down, k + 1), x, n))
  {
    hide *;
    ghost var s: seq<nat> := Stepped(vs, a, b);
    ghost var em := Flat(multiset(s), lo, hi, down, k);
    assert |h| == BUCKETS by { CountBound(h, s, lo); }
    DrainNext(h, lo, hi, down, k);
    FlatNext(multiset(s), lo, hi, down, k);
    FlatFits(multiset(s), lo, hi, down, k + 1);
    CountBound(h, s, v);
    assert hist[v] == hist[..][v] == multiset(s)[v];
    assert |multiset(s)| == |s|;
    w := Drain(base, p, len, npix, n, x, hist, v, w0, m, vs, a, em);
  }

  method WriteBack(base: array<byte>, p: nat, len: nat, npix: nat, n: depth, x: Profile, hist: array<nat>, a: nat,
                   lo: nat, hi: nat, down: bool, ghost b: nat, ghost m: seq<byte>, ghost vs: seq<nat>)
    requires base as object != hist as object && a <= b <= npix + 1 && a % 2 == b % 2 && |vs| == npix
    requires (b - a) / 2 <= 0xffff && lo <= hi < BUCKETS && hi < Pow2(n) && Within(Stepped(vs, a, b), lo, hi)
    requires Counts(hist[..], Stepped(vs, a, b)) && Repainted(m, base[..], p, len, npix, n, vs)
    modifies base, hist
    ensures hist[..] == Drained(old(hist[..]), lo, hi, down, hi - lo + 1)
    ensures Repainted(m, base[..], p, len, npix, n, Written(vs, a, Ordered(Stepped(vs, a, b), down), x, n))
  {
    hide *;
    ghost var h: seq<nat>, s: seq<nat> := hist[..], Stepped(vs, a, b);
    FlatSorts(s, lo, hi, down);
    DrainNothing(h, lo, hi, down);
    FlatNext(multiset(s), lo, hi, down, 0);
    WriteNothing(vs, a, x, n);
    var w, v := a, if down then hi else lo;
    KthIs(lo, hi, down, 0);
    for k := 0 to hi - lo + 1
      invariant hist[..] == Drained(h, lo, hi, down, k)
      invariant w == a + 2 * |Flat(multiset(s), lo, hi, down, k)|
      invariant k <= hi - lo ==> v == Kth(lo, hi, down, k)
      invariant Repainted(m, base[..], p, len, npix, n, Written(vs, a, Flat(multiset(s), lo, hi, down, k), x, n))
    {
      w := DrainKth(base, p, len, npix, n, x, hist, v, w, m, vs, a, b, h, lo, hi, down, k);
      KthIs(lo, hi, down, k);
      if k < hi - lo {
        KthIs(lo, hi, down, k + 1);
        v := if down then v - 1 else v + 1;
      }
    }
  }

  lemma KthIs(lo: nat, hi: nat, down: bool, k: nat)
    requires lo <= hi && k <= hi - lo
    ensures Kth(lo, hi, down, k) == if down then hi - k else lo + k
  {
  }

  // Only the counters this run touched need clearing.
  method Clear(hist: array<nat>, lo: nat, hi: nat, ghost h: seq<nat>, ghost s: seq<nat>, ghost down: bool)
    requires lo <= hi < BUCKETS && Within(s, lo, hi) && Counts(h, s) && hist[..] == Drained(h, lo, hi, down, hi - lo + 1)
    modifies hist
    ensures Counts(hist[..], [])
  {
    hide *;
    ghost var d := hist[..];
    Untouched(h, s, lo, hi, down, d);
    for v := lo to hi + 1
      invariant hist.Length == BUCKETS
      invariant forall u: nat | u < BUCKETS && (u < v || u > hi) :: hist[..][u] == 0
    {
      hist[v] := 0;
    }
    CountNone(hist[..]);
  }

  lemma Untouched(h: seq<nat>, s: seq<nat>, lo: nat, hi: nat, down: bool, d: seq<nat>)
    requires lo <= hi < BUCKETS && Within(s, lo, hi) && Counts(h, s) && d == Drained(h, lo, hi, down, hi - lo + 1)
    ensures |d| == BUCKETS && forall u: nat | u < BUCKETS && (u < lo || u > hi) :: d[u] == 0
  {
    forall u: nat | u < BUCKETS && (u < lo || u > hi) ensures d[u] == 0 {
      assert u !in s;
      assert u !in multiset(s);
      AllMet(lo, hi, down, u);
    }
  }

  // Sorts the run [a, b).
  method SortRun(base: array<byte>, p: nat, len: nat, npix: nat, n: depth, x: Profile, hist: array<nat>, a: nat, b: nat,
                 ghost m: seq<byte>, ghost vs: seq<nat>)
    requires base as object != hist as object && |vs| == npix && a < b <= npix + 1 && a % 2 == b % 2
    requires (b - a) / 2 <= 0xffff && Counts(hist[..], [])
    requires Repainted(m, base[..], p, len, npix, n, vs)
    modifies base, hist
    ensures Counts(hist[..], [])
    ensures Repainted(m, base[..], p, len, npix, n, Written(vs, a, Ordered(Stepped(vs, a, b), Down(x)), x, n))
  {
    hide *;
    var lo, hi := Tally(base, p, len, npix, n, hist, a, b, m, vs);
    ghost var h := hist[..];
    WriteBack(base, p, len, npix, n, x, hist, a, lo, hi, Down(x), b, m, vs);
    Clear(hist, lo, hi, h, Stepped(vs, a, b), Down(x));
  }

  // ----- Along a row -----

  // The row with the runs of the earlier phase, and those of this one before i0, sorted.
  ghost function SoFar(vs: seq<nat>, x: Profile, n: depth, phase: nat, i0: nat): (cur: seq<nat>)
    ensures |cur| == |vs|
  {
    seq(|vs|, i requires 0 <= i < |vs| =>
      if i % 2 < phase || (i % 2 == phase && i < i0) then Target(vs, x, n, i) else vs[i])
  }

  lemma SoFarAt(vs: seq<nat>, x: Profile, n: depth, phase: nat, i0: nat, i: nat)
    requires i < |vs|
    ensures SoFar(vs, x, n, phase, i0)[i] ==
      if i % 2 < phase || (i % 2 == phase && i < i0) then Target(vs, x, n, i) else vs[i]
  {
    hide Target;
  }

  lemma SoFarSame(vs: seq<nat>, x: Profile, n: depth, phase: nat, i0: nat, cur: seq<nat>)
    requires |cur| == |vs|
    requires forall i | 0 <= i < |vs| ::
               cur[i] == if i % 2 < phase || (i % 2 == phase && i < i0) then Target(vs, x, n, i) else vs[i]
    ensures cur == SoFar(vs, x, n, phase, i0)
  {
    hide Target;
  }

  // A pixel that is not above the threshold stays.
  lemma SkipOne(vs: seq<nat>, x: Profile, n: depth, phase: nat, i0: nat)
    requires i0 < |vs| && i0 % 2 == phase && vs[i0] <= Threshold(x, n)
    ensures SoFar(vs, x, n, phase, i0 + 2) == SoFar(vs, x, n, phase, i0)
  {
    hide *;
    var cur := SoFar(vs, x, n, phase, i0);
    forall i | 0 <= i < |vs|
      ensures cur[i] == if i % 2 < phase || (i % 2 == phase && i < i0 + 2) then Target(vs, x, n, i) else vs[i]
    {
      SoFarAt(vs, x, n, phase, i0, i);
      if i == i0 { TargetBelow(vs, x, n, i); }
    }
    SoFarSame(vs, x, n, phase, i0 + 2, cur);
  }

  // The run [i0, i1), and the pixel that ends it, done.
  lemma RunDone(vs: seq<nat>, x: Profile, n: depth, phase: nat, i0: nat, i1: nat)
    requires IsRun(vs, Threshold(x, n), i0, i1) && i0 < i1 && i0 % 2 == phase
    ensures i0 <= i1 <= |vs| + 1 && i0 % 2 == i1 % 2
    ensures var cur := SoFar(vs, x, n, phase, i0);
      SoFar(vs, x, n, phase, i1 + 2) ==
      if (i1 - i0) / 2 < MinRun(x) then cur else Written(cur, i0, Ordered(Stepped(vs, i0, i1), Down(x)), x, n)
  {
    hide *;
    RunShape(vs, Threshold(x, n), i0, i1);
    var cur := SoFar(vs, x, n, phase, i0);
    var s := Stepped(vs, i0, i1);
    var out := if (i1 - i0) / 2 < MinRun(x) then cur else Written(cur, i0, Ordered(s, Down(x)), x, n);
    forall i | 0 <= i < |vs|
      ensures out[i] == if i % 2 < phase || (i % 2 == phase && i < i1 + 2) then Target(vs, x, n, i) else vs[i]
    {
      RunDoneAt(vs, x, n, phase, i0, i1, i);
    }
    SoFarSame(vs, x, n, phase, i1 + 2, out);
  }

  lemma RunDoneAt(vs: seq<nat>, x: Profile, n: depth, phase: nat, i0: nat, i1: nat, i: nat)
    requires IsRun(vs, Threshold(x, n), i0, i1) && i0 < i1 && i0 % 2 == phase && i < |vs|
    ensures i0 <= i1 <= |vs| + 1 && i0 % 2 == i1 % 2
    ensures var cur := SoFar(vs, x, n, phase, i0);
      (if (i1 - i0) / 2 < MinRun(x) then cur else Written(cur, i0, Ordered(Stepped(vs, i0, i1), Down(x)), x, n))[i]
      == if i % 2 < phase || (i % 2 == phase && i < i1 + 2) then Target(vs, x, n, i) else vs[i]
  {
    hide *;
    RunShape(vs, Threshold(x, n), i0, i1);
    var cur := SoFar(vs, x, n, phase, i0);
    var r := Ordered(Stepped(vs, i0, i1), Down(x));
    SoFarAt(vs, x, n, phase, i0, i);
    WrittenIs(cur, i0, r, x, n, i);
    if i % 2 == phase && i0 <= i < i1 {
      TargetInRun(vs, x, n, i0, i1, i);
    } else if i == i1 {
      AfterRun(vs, Threshold(x, n), i0, i1);
      TargetBelow(vs, x, n, i);
    }
  }

  lemma AfterRun(vs: seq<nat>, thr: nat, a: nat, b: nat)
    requires IsRun(vs, thr, a, b) && b < |vs|
    ensures vs[b] <= thr
  {
  }

  lemma WrittenIs(vs: seq<nat>, a: nat, em: seq<nat>, x: Profile, n: depth, i: nat)
    requires i < |vs|
    ensures Written(vs, a, em, x, n)[i] ==
      if i >= a && i % 2 == a % 2 && (i - a) / 2 < |em| then Merge(vs[i], em[(i - a) / 2], Planes(x, n), x.mix, n) else vs[i]
  {
    hide Merge, Planes;
  }

  lemma SoFarEnds(vs: seq<nat>, x: Profile, n: depth, i0: nat)
    requires i0 >= |vs|
    ensures SoFar(vs, x, n, 0, 0) == vs
    ensures SoFar(vs, x, n, 0, i0) == SoFar(vs, x, n, 1, 1)
    ensures SoFar(vs, x, n, 1, i0) == SortedRow(vs, x, n)
  {
    hide Target;
  }

  // Ahead of i0 the phase is as it was.
  lemma Ahead(vs: seq<nat>, x: Profile, n: depth, phase: nat, i0: nat, i: nat)
    requires i0 <= i < |vs| && i % 2 == phase
    ensures SoFar(vs, x, n, phase, i0)[i] == vs[i]
  {
    SoFarAt(vs, x, n, phase, i0, i);
    hide SoFar, Target;
  }

  lemma SteppedAhead(vs: seq<nat>, x: Profile, n: depth, phase: nat, i0: nat, i1: nat)
    requires i0 <= i1 <= |vs| + 1 && i0 % 2 == i1 % 2 == phase
    ensures Stepped(SoFar(vs, x, n, phase, i0), i0, i1) == Stepped(vs, i0, i1)
  {
    hide *;
    var cur := SoFar(vs, x, n, phase, i0);
    forall j | 0 <= j < (i1 - i0) / 2 ensures Stepped(cur, i0, i1)[j] == Stepped(vs, i0, i1)[j] {
      SteppedAt(vs, i0, i1, j);
      SteppedAt(cur, i0, i1, j);
      Ahead(vs, x, n, phase, i0, i0 + 2 * j);
    }
  }

  // Where a run can begin.
  predicate Boundary(vs: seq<nat>, thr: nat, i: nat) { i >= 2 && i - 2 < |vs| ==> vs[i - 2] <= thr }

  // Finds the next pixel above the threshold.
  method NextRun(base: array<byte>, p: nat, len: nat, npix: nat, n: depth, x: Profile, from: nat,
                 ghost phase: nat, ghost m: seq<byte>, ghost vs: seq<nat>) returns (i0: nat)
    requires |vs| == npix && from % 2 == phase && Boundary(vs, Threshold(x, n), from)
    requires Repainted(m, base[..], p, len, npix, n, SoFar(vs, x, n, phase, from))
    ensures i0 >= from && i0 % 2 == phase && Boundary(vs, Threshold(x, n), i0)
    ensures SoFar(vs, x, n, phase, i0) == SoFar(vs, x, n, phase, from)
    ensures i0 < npix ==> vs[i0] > Threshold(x, n)
  {
    hide *;
    var thr := Threshold(x, n);
    i0 := from;
    while i0 < npix
      invariant i0 >= from && i0 % 2 == phase && Boundary(vs, thr, i0)
      invariant SoFar(vs, x, n, phase, i0) == SoFar(vs, x, n, phase, from)
    {
      var v := ReadPixel(base, p, len, npix, i0, n, m, SoFar(vs, x, n, phase, i0));
      Ahead(vs, x, n, phase, i0, i0);
      if v > thr { break; }
      SkipOne(vs, x, n, phase, i0);
      BoundaryNext(vs, thr, i0);
      i0 := i0 + 2;
    }
  }

  lemma BoundaryNext(vs: seq<nat>, thr: nat, i: nat)
    requires i < |vs| ==> vs[i] <= thr
    ensures Boundary(vs, thr, i + 2)
  {
  }

  // Finds where the run that begins at i0 ends.
  method EndOfRun(base: array<byte>, p: nat, len: nat, npix: nat, n: depth, x: Profile, i0: nat,
                  ghost phase: nat, ghost m: seq<byte>, ghost vs: seq<nat>) returns (i1: nat)
    requires |vs| == npix && i0 < npix && i0 % 2 == phase && Boundary(vs, Threshold(x, n), i0)
    requires vs[i0] > Threshold(x, n)
    requires Repainted(m, base[..], p, len, npix, n, SoFar(vs, x, n, phase, i0))
    ensures i0 < i1 && IsRun(vs, Threshold(x, n), i0, i1)
  {
    hide *;
    var thr := Threshold(x, n);
    i1 := i0;
    RunBegins(vs, thr, i0);
    while i1 < npix
      invariant i0 <= i1 <= npix + 1 && i1 % 2 == phase && AllAbove(vs, thr, i0, i1) && (i1 == i0 ==> i1 < npix)
      decreases npix + 1 - i1
    {
      var v := ReadPixel(base, p, len, npix, i1, n, m, SoFar(vs, x, n, phase, i0));
      Ahead(vs, x, n, phase, i0, i1);
      if v <= thr { break; }
      RunGoesOn(vs, thr, i0, i1);
      i1 := i1 + 2;
    }
    RunEnds(vs, thr, i0, i1);
  }

  predicate AllAbove(vs: seq<nat>, thr: nat, a: nat, b: nat) {
    b <= |vs| + 1 && b % 2 == a % 2 && forall i | a <= i < b && i % 2 == a % 2 :: vs[i] > thr
  }

  lemma RunBegins(vs: seq<nat>, thr: nat, a: nat)
    requires a < |vs|
    ensures AllAbove(vs, thr, a, a)
  {
  }

  lemma RunGoesOn(vs: seq<nat>, thr: nat, a: nat, b: nat)
    requires AllAbove(vs, thr, a, b) && b < |vs| && vs[b] > thr
    ensures AllAbove(vs, thr, a, b + 2)
  {
  }

  lemma RunEnds(vs: seq<nat>, thr: nat, a: nat, b: nat)
    requires a <= b && AllAbove(vs, thr, a, b) && Boundary(vs, thr, a) && (b < |vs| ==> vs[b] <= thr)
    ensures IsRun(vs, thr, a, b)
  {
  }

  // The run that begins at i0; the scan goes on two pixels past its end.
  method OneRun(base: array<byte>, p: nat, len: nat, npix: nat, n: depth, x: Profile, hist: array<nat>, i0: nat,
                ghost phase: nat, ghost m: seq<byte>, ghost vs: seq<nat>) returns (next: nat)
    requires base as object != hist as object && |vs| == npix <= 2 * 0xffff && i0 < npix && i0 % 2 == phase
    requires Boundary(vs, Threshold(x, n), i0) && vs[i0] > Threshold(x, n)
    requires Counts(hist[..], []) && Repainted(m, base[..], p, len, npix, n, SoFar(vs, x, n, phase, i0))
    modifies base, hist
    ensures next > i0 && next % 2 == phase && Boundary(vs, Threshold(x, n), next)
    ensures Counts(hist[..], []) && Repainted(m, base[..], p, len, npix, n, SoFar(vs, x, n, phase, next))
  {
    hide *;
    var i1 := EndOfRun(base, p, len, npix, n, x, i0, phase, m, vs);
    RunShape(vs, Threshold(x, n), i0, i1);
    RunDone(vs, x, n, phase, i0, i1);
    if i1 < npix { AfterRun(vs, Threshold(x, n), i0, i1); }
    BoundaryNext(vs, Threshold(x, n), i1);
    if (i1 - i0) / 2 >= MinRun(x) {
      SteppedAhead(vs, x, n, phase, i0, i1);
      SortRun(base, p, len, npix, n, x, hist, i0, i1, m, SoFar(vs, x, n, phase, i0));
    }
    next := i1 + 2;
  }

  // One Bayer phase of a row.
  method SortPhase(base: array<byte>, p: nat, len: nat, npix: nat, n: depth, x: Profile, hist: array<nat>, phase: nat,
                   ghost m: seq<byte>, ghost vs: seq<nat>) returns (ghost end: nat)
    requires base as object != hist as object && |vs| == npix <= 2 * 0xffff && phase < 2
    requires Counts(hist[..], []) && Repainted(m, base[..], p, len, npix, n, SoFar(vs, x, n, phase, phase))
    modifies base, hist
    ensures end >= npix && Counts(hist[..], [])
    ensures Repainted(m, base[..], p, len, npix, n, SoFar(vs, x, n, phase, end))
  {
    hide *;
    var i0 := phase;
    NoneBefore(vs, Threshold(x, n), phase);
    while i0 < npix
      invariant i0 % 2 == phase && Boundary(vs, Threshold(x, n), i0) && Counts(hist[..], [])
      invariant Repainted(m, base[..], p, len, npix, n, SoFar(vs, x, n, phase, i0))
    {
      i0 := NextRun(base, p, len, npix, n, x, i0, phase, m, vs);
      if i0 >= npix { break; }
      i0 := OneRun(base, p, len, npix, n, x, hist, i0, phase, m, vs);
    }
    end := i0;
  }

  lemma NoneBefore(vs: seq<nat>, thr: nat, i: nat)
    requires i < 2
    ensures Boundary(vs, thr, i)
  {
  }

  method SortRow(base: array<byte>, p: nat, len: nat, npix: nat, n: depth, x: Profile, hist: array<nat>, ghost vs: seq<nat>)
    requires base as object != hist as object && |vs| == npix <= 2 * 0xffff
    requires Counts(hist[..], []) && Repainted(base[..], base[..], p, len, npix, n, vs)
    modifies base, hist
    ensures Counts(hist[..], []) && Repainted(old(base[..]), base[..], p, len, npix, n, SortedRow(vs, x, n))
  {
    hide *;
    ghost var m := base[..];
    SoFarEnds(vs, x, n, npix);
    ghost var end := SortPhase(base, p, len, npix, n, x, hist, 0, m, vs);
    SoFarEnds(vs, x, n, end);
    end := SortPhase(base, p, len, npix, n, x, hist, 1, m, vs);
    SoFarEnds(vs, x, n, end);
  }

  // ----- The whole frame -----

  ghost function SortMap(m: seq<byte>, len: nat, rows: nat, npix: nat, n: depth, x: Profile): nat -> seq<nat>
    requires IsFrame(m, len, rows) && Fits(len, npix, n)
  {
    (y: nat) => if y < rows then SortedIfOn(m, len, rows, npix, n, x, y) else []
  }

  ghost function SortedIfOn(m: seq<byte>, len: nat, rows: nat, npix: nat, n: depth, x: Profile, y: nat): seq<nat>
    requires IsFrame(m, len, rows) && Fits(len, npix, n) && y < rows
  {
    var vs := RowPixels(m, y, len, rows, npix, n);
    if On(x, y) then SortedRow(vs, x, n) else vs
  }

  lemma SortMapAt(m: seq<byte>, len: nat, rows: nat, npix: nat, n: depth, x: Profile, y: nat)
    requires IsFrame(m, len, rows) && Fits(len, npix, n) && y < rows
    ensures SortMap(m, len, rows, npix, n, x)(y) == SortedIfOn(m, len, rows, npix, n, x, y)
    ensures SortedIfOn(m, len, rows, npix, n, x, y) ==
      if On(x, y) then SortedRow(RowPixels(m, y, len, rows, npix, n), x, n) else RowPixels(m, y, len, rows, npix, n)
  {
    hide RowPixels, SortedRow;
  }

  // A row in a band is sorted, any other row stays.
  lemma SortedInBand(m: seq<byte>, len: nat, rows: nat, npix: nat, n: depth, x: Profile, y: nat)
    requires IsFrame(m, len, rows) && Fits(len, npix, n) && y < rows
    ensures var vs := RowPixels(m, y, len, rows, npix, n);
      SortedIfOn(m, len, rows, npix, n, x, y) == if InBand(x.rowmod, y) then SortedRow(vs, x, n) else vs
  {
    OnIsBand(x, y);
    hide On, InBand, RowPixels, SortedRow;
  }

  // A row too short for any run is sorted as it is.
  lemma {:induction false} TooShort(vs: seq<nat>, x: Profile, n: depth)
    requires |vs| < 4
    ensures SortedRow(vs, x, n) == vs
  {
    forall i | 0 <= i < |vs| ensures Target(vs, x, n, i) == vs[i] {
      if vs[i] > Threshold(x, n) {
        var a, b, j := RunOf(vs, Threshold(x, n), i);
        TargetInRun(vs, x, n, a, b, i);
      }
      hide Threshold, Target, RunStart, RunEnd, IsRun;
    }
    hide Target;
  }

  method SortTurn(base: array<byte>, len: nat, rows: nat, npix: nat, n: depth, x: Profile, hist: array<nat>, y: nat,
                  ghost m0: seq<byte>, ghost f: nat -> seq<nat>)
    requires base as object != hist as object && y < rows && npix <= 2 * 0xffff
    requires IsFrame(m0, len, rows) && Fits(len, npix, n) && f == SortMap(m0, len, rows, npix, n, x)
    requires Counts(hist[..], []) && PaintedUpTo(m0, base[..], len, rows, npix, n, y, f)
    modifies base, hist
    ensures Counts(hist[..], []) && PaintedUpTo(m0, base[..], len, rows, npix, n, y + 1, f)
  {
    hide *;
    ghost var m, vs := base[..], RowPixels(m0, y, len, rows, npix, n);
    SortMapAt(m0, len, rows, npix, n, x, y);
    if !On(x, y) {
      RowKept(m0, m, len, rows, npix, n, y, f);
      return;
    }
    RowToPaint(m0, m, len, rows, npix, n, y, f, y);
    SortRow(base, Start(y, len), len, npix, n, x, hist, vs);
    RowPainted(m0, m, base[..], len, rows, npix, n, y, f);
  }

  method Sort(base: array<byte>, len: nat, rows: nat, rowpix: nat, n: depth, x: Profile, hist: array<nat>)
    requires base as object != hist as object && hist.Length == BUCKETS
    requires IsFrame(base[..], len, rows) && 8 * len >= rowpix * n && rowpix <= 2 * 0xffff
    modifies base, hist
    ensures IsFrame(base[..], len, rows) && Fits(len, WholePixels(rowpix, n), n)
    ensures forall y: nat | y < rows ::
              RowShows(old(base[..]), base[..], len, rows, WholePixels(rowpix, n), n, y,
                       SortedIfOn(old(base[..]), len, rows, WholePixels(rowpix, n), n, x, y))
    ensures WholePixels(rowpix, n) >= 4 ==> Counts(hist[..], [])
  {
    hide *;
    ghost var m0 := base[..];
    var npix := WholePixels(rowpix, n);
    WholePixelsFill(len, rowpix, n);
    if npix < 4 {
      NothingToSort(m0, len, rows, npix, n, x);
      return;
    }
    for i := 0 to BUCKETS
      invariant forall v: nat | v < i :: hist[..][v] == 0
      invariant base[..] == m0
    {
      hist[i] := 0;
    }
    CountNone(hist[..]);
    ghost var f := SortMap(m0, len, rows, npix, n, x);
    NothingPainted(m0, len, rows, npix, n, f);
    for y := 0 to rows
      invariant Counts(hist[..], []) && PaintedUpTo(m0, base[..], len, rows, npix, n, y, f)
    {
      SortTurn(base, len, rows, npix, n, x, hist, y, m0, f);
    }
    AllPainted(m0, base[..], len, rows, npix, n, f);
    forall y: nat | y < rows
      ensures RowShows(m0, base[..], len, rows, npix, n, y, SortedIfOn(m0, len, rows, npix, n, x, y))
    {
      SortMapAt(m0, len, rows, npix, n, x, y);
    }
  }

  // The frame m1 is the frame m0 sorted.
  ghost predicate IsSorted(m0: seq<byte>, m1: seq<byte>, len: nat, rows: nat, npix: nat, n: depth, x: Profile) {
    && IsFrame(m0, len, rows) && IsFrame(m1, len, rows) && Fits(len, npix, n)
    && forall y: nat | y < rows :: RowShows(m0, m1, len, rows, npix, n, y, SortedIfOn(m0, len, rows, npix, n, x, y))
  }

  // With Replace on all planes, sorting a sorted frame changes no byte of it.
  lemma SortFrameTwice(m0: seq<byte>, m1: seq<byte>, m2: seq<byte>, len: nat, rows: nat, npix: nat, n: depth, x: Profile)
    requires IsSorted(m0, m1, len, rows, npix, n, x) && IsSorted(m1, m2, len, rows, npix, n, x)
    requires x.mix == Replace && x.lanes == 0
    ensures m2 == m1
  {
    assert IsFrame(m1, len, rows) && IsFrame(m2, len, rows);
    forall y: nat | y < rows ensures Row(m2, y, len, rows) == Row(m1, y, len, rows) {
      SortRowTwice(m0, m1, m2, len, rows, npix, n, x, y);
    }
    hide IsSorted;
    SameFrame(m2, m1, len, rows);
  }

  lemma SortRowTwice(m0: seq<byte>, m1: seq<byte>, m2: seq<byte>, len: nat, rows: nat, npix: nat, n: depth, x: Profile, y: nat)
    requires IsSorted(m0, m1, len, rows, npix, n, x) && IsSorted(m1, m2, len, rows, npix, n, x) && y < rows
    requires x.mix == Replace && x.lanes == 0
    ensures IsFrame(m1, len, rows) && IsFrame(m2, len, rows) && Row(m2, y, len, rows) == Row(m1, y, len, rows)
  {
    hide SortedRow, RowPixels, RowTail, SortedIfOn, Row, IsFrame, Planes;
    var vs := RowPixels(m0, y, len, rows, npix, n);
    assert RowShows(m0, m1, len, rows, npix, n, y, SortedIfOn(m0, len, rows, npix, n, x, y));
    assert RowShows(m1, m2, len, rows, npix, n, y, SortedIfOn(m1, len, rows, npix, n, x, y));
    SortMapAt(m0, len, rows, npix, n, x, y);
    SortMapAt(m1, len, rows, npix, n, x, y);
    PlanesAll(x, n);
    if On(x, y) { SortTwice(vs, x, n); }
    SameRowBytes(m1, m2, len, rows, npix, n, y);
  }

  lemma SameRowBytes(m1: seq<byte>, m2: seq<byte>, len: nat, rows: nat, npix: nat, n: depth, y: nat)
    requires IsFrame(m1, len, rows) && IsFrame(m2, len, rows) && Fits(len, npix, n) && y < rows
    requires RowPixels(m2, y, len, rows, npix, n) == RowPixels(m1, y, len, rows, npix, n)
    requires RowTail(m2, y, len, rows, npix, n) == RowTail(m1, y, len, rows, npix, n)
    ensures Row(m2, y, len, rows) == Row(m1, y, len, rows)
  {
    hide PixelsOf, Tail, Row;
    RowDetermined(Row(m2, y, len, rows), Row(m1, y, len, rows), npix, n);
  }

  lemma NothingToSort(m: seq<byte>, len: nat, rows: nat, npix: nat, n: depth, x: Profile)
    requires IsFrame(m, len, rows) && Fits(len, npix, n) && npix < 4
    ensures forall y: nat | y < rows :: RowShows(m, m, len, rows, npix, n, y, SortedIfOn(m, len, rows, npix, n, x, y))
  {
    forall y: nat | y < rows ensures RowShows(m, m, len, rows, npix, n, y, SortedIfOn(m, len, rows, npix, n, x, y)) {
      SortMapAt(m, len, rows, npix, n, x, y);
      TooShort(RowPixels(m, y, len, rows, npix, n), x, n);
      hide SortedIfOn, SortedRow, RowPixels, RowTail;
    }
  }
}

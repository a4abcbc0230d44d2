/** What sorting the runs of a row means (chdk-src/core/bendx.c:1280-1360): every run of same-phase pixels
    above the threshold that is long enough is put in order, everything else stays. */
module Runs {
  import opened Bits
  import opened Frame
  import opened Pixels
  import opened Cfa

  // ----- Putting values in order -----

  predicate Before(a: nat, b: nat, down: bool) { if down then a >= b else a <= b }

  predicate InOrder(s: seq<nat>, down: bool) {
    forall i, j | 0 <= i < j < |s| :: Before(s[i], s[j], down)
  }

  function Insert(v: nat, s: seq<nat>, down: bool): (r: seq<nat>)
    ensures |r| == |s| + 1
  {
    if s == [] || Before(v, s[0], down) then [v] + s else [s[0]] + Insert(v, s[1..], down)
  }

  // A sequence in order, by insertion.
  function Ordered(s: seq<nat>, down: bool): (r: seq<nat>)
    ensures |r| == |s|
  {
    if s == [] then [] else Insert(s[0], Ordered(s[1..], down), down)
  }

  lemma HeadFirst(s: seq<nat>, down: bool, v: nat)
    requires InOrder(s, down) && v in multiset(s)
    ensures Before(s[0], v, down)
  {
    var k :| 0 <= k < |s| && s[k] == v;
    if k > 0 { assert Before(s[0], s[k], down); }
  }

  lemma TailInOrder(s: seq<nat>, down: bool)
    requires s != [] && InOrder(s, down)
    ensures InOrder(s[1..], down) && s == [s[0]] + s[1..] && multiset(s) == multiset{s[0]} + multiset(s[1..])
  {
    assert s == [s[0]] + s[1..];
    hide Before;
  }

  lemma ConsInOrder(h: nat, s: seq<nat>, down: bool)
    requires InOrder(s, down) && forall v | v in multiset(s) :: Before(h, v, down)
    ensures InOrder([h] + s, down) && multiset([h] + s) == multiset{h} + multiset(s)
  {
    hide Before;
    forall i, j | 0 <= i < j < |[h] + s| ensures Before(([h] + s)[i], ([h] + s)[j], down) {
      assert s[j - 1] in multiset(s);
    }
  }

  lemma Total(a: nat, b: nat, c: nat, down: bool)
    ensures Before(a, b, down) || Before(b, a, down)
    ensures Before(a, b, down) && Before(b, a, down) ==> a == b
    ensures Before(a, b, down) && Before(b, c, down) ==> Before(a, c, down)
  {
  }

  lemma {:induction false} InsertIs(v: nat, s: seq<nat>, down: bool)
    requires InOrder(s, down)
    ensures InOrder(Insert(v, s, down), down) && multiset(Insert(v, s, down)) == multiset(s) + multiset{v}
  {
    hide Before, InOrder;
    if s == [] || Before(v, s[0], down) {
      forall w | w in multiset(s) ensures Before(v, w, down) {
        HeadFirst(s, down, w);
        Total(v, s[0], w, down);
      }
      ConsInOrder(v, s, down);
    } else {
      Total(v, s[0], s[0], down);
      TailInOrder(s, down);
      InsertIs(v, s[1..], down);
      var r := Insert(v, s[1..], down);
      forall w | w in multiset(r) ensures Before(s[0], w, down) {
        if w != v { HeadFirst(s, down, w); }
      }
      ConsInOrder(s[0], r, down);
    }
  }

  lemma {:induction false} OrderedIs(s: seq<nat>, down: bool)
    ensures InOrder(Ordered(s, down), down) && multiset(Ordered(s, down)) == multiset(s)
  {
    if s != [] {
      OrderedIs(s[1..], down);
      InsertIs(s[0], Ordered(s[1..], down), down);
      assert s == [s[0]] + s[1..];
    }
  }

  // There is only one way to put the same values in order.
  lemma {:induction false} OneOrder(a: seq<nat>, b: seq<nat>, down: bool)
    requires InOrder(a, down) && InOrder(b, down) && multiset(a) == multiset(b)
    ensures a == b
  {
    hide *;
    assert |multiset(a)| == |a| && |multiset(b)| == |b|;
    if a != [] {
      TailInOrder(a, down);
      TailInOrder(b, down);
      HeadFirst(a, down, b[0]);
      HeadFirst(b, down, a[0]);
      Total(a[0], b[0], a[0], down);
      assert multiset(a[1..]) == multiset(a) - multiset{a[0]} == multiset(b[1..]);
      OneOrder(a[1..], b[1..], down);
    }
  }

  lemma OrderedTwice(s: seq<nat>, down: bool)
    ensures Ordered(Ordered(s, down), down) == Ordered(s, down)
  {
    hide Ordered, InOrder;
    OrderedIs(s, down);
    OrderedIs(Ordered(s, down), down);
    OneOrder(Ordered(Ordered(s, down), down), Ordered(s, down), down);
  }

  // ----- Runs -----

  function Threshold(x: Profile, n: depth): nat { (Pow2(n) - 1) * x.amount / 18 }

  function MinRun(x: Profile): nat { (x.reach % 8 + 1) * 8 }

  predicate Down(x: Profile) { x.reach >= 8 }

  // The knobs: the threshold is amount eighteenths of the largest value, rounded down; the shortest run worth
  // sorting is 8 to 64 pixels by the low three bits of reach, and its top bit turns the sort over.
  lemma KnobsAre(x: Profile, n: depth)
    ensures 18 * Threshold(x, n) <= x.amount * (Pow2(n) - 1) < 18 * (Threshold(x, n) + 1)
    ensures Pow2(10) == 1024 && Pow2(12) == 4096
    ensures 8 <= MinRun(x) <= 64 && MinRun(x) % 8 == 0 && (x.reach + 1 - MinRun(x) / 8) % 8 == 0
    ensures if x.reach < 16 then Down(x) <==> Bit(x.reach, 3) else Down(x)
  {
    Widths();
    hide Pow2;
  }

  // The first pixel of the run that pixel i is in, and where that run ends.
  function RunStart(vs: seq<nat>, thr: nat, i: nat): (a: nat)
    requires i < |vs|
    ensures a <= i && a % 2 == i % 2
  {
    if i >= 2 && vs[i - 2] > thr then RunStart(vs, thr, i - 2) else i
  }

  function RunEnd(vs: seq<nat>, thr: nat, i: nat): (b: nat)
    requires i <= |vs| + 1
    ensures i <= b <= |vs| + 1 && b % 2 == i % 2
    decreases |vs| + 1 - i
  {
    if i < |vs| && vs[i] > thr then RunEnd(vs, thr, i + 2) else i
  }

  // Pixels a, a + 2, ... before b.
  function Stepped(vs: seq<nat>, a: nat, b: nat): (s: seq<nat>)
    requires a <= b <= |vs| + 1 && a % 2 == b % 2
    ensures |s| == (b - a) / 2
  {
    seq((b - a) / 2, j requires 0 <= j < (b - a) / 2 => vs[a + 2 * j])
  }

  // A whole run: above the threshold all along, and not beyond.
  predicate IsRun(vs: seq<nat>, thr: nat, a: nat, b: nat) {
    && a <= b <= |vs| + 1 && a % 2 == b % 2
    && (forall i | a <= i < b && i % 2 == a % 2 :: vs[i] > thr)
    && (a >= 2 ==> vs[a - 2] <= thr)
    && (b < |vs| ==> vs[b] <= thr)
  }

  lemma {:induction false} RunStartIs(vs: seq<nat>, thr: nat, a: nat, b: nat, i: nat)
    requires IsRun(vs, thr, a, b) && a <= i < b && i % 2 == a % 2
    ensures i < |vs| && RunStart(vs, thr, i) == a
  {
    if i > a { RunStartIs(vs, thr, a, b, i - 2); }
  }

  lemma {:induction false} RunEndIs(vs: seq<nat>, thr: nat, a: nat, b: nat, i: nat)
    requires IsRun(vs, thr, a, b) && a <= i <= b && i % 2 == a % 2
    ensures RunEnd(vs, thr, i) == b
    decreases b - i
  {
    if i < b { RunEndIs(vs, thr, a, b, i + 2); }
  }

  // Every pixel above the threshold is in a run.
  lemma {:induction false} InARun(vs: seq<nat>, thr: nat, i: nat)
    requires i < |vs| && vs[i] > thr
    ensures RunEnd(vs, thr, i) > i
    ensures IsRun(vs, thr, RunStart(vs, thr, i), RunEnd(vs, thr, i))
  {
    AboveFrom(vs, thr, i);
    AboveTo(vs, thr, i);
  }

  lemma {:induction false} AboveFrom(vs: seq<nat>, thr: nat, i: nat)
    requires i < |vs| && vs[i] > thr
    ensures var a := RunStart(vs, thr, i);
      && (a >= 2 ==> vs[a - 2] <= thr) && forall k | a <= k <= i && k % 2 == a % 2 :: vs[k] > thr
  {
    if i >= 2 && vs[i - 2] > thr { AboveFrom(vs, thr, i - 2); }
  }

  lemma {:induction false} AboveTo(vs: seq<nat>, thr: nat, i: nat)
    requires i <= |vs| + 1
    ensures var b := RunEnd(vs, thr, i);
      && (b < |vs| ==> vs[b] <= thr) && forall k | i <= k < b && k % 2 == b % 2 :: vs[k] > thr
    decreases |vs| + 1 - i
  {
    if i < |vs| && vs[i] > thr { AboveTo(vs, thr, i + 2); }
  }

  // ----- The sorted row -----

  // Pixel i of the sorted row.
  function Target(vs: seq<nat>, x: Profile, n: depth, i: nat): nat
    requires i < |vs|
  {
    var thr := Threshold(x, n);
    if vs[i] <= thr then vs[i]
    else
      InARun(vs, thr, i);
      var a, b := RunStart(vs, thr, i), RunEnd(vs, thr, i);
      if (b - a) / 2 < MinRun(x) then vs[i]
      else Merge(vs[i], Ordered(Stepped(vs, a, b), Down(x))[(i - a) / 2], Planes(x, n), x.mix, n)
  }

  function SortedRow(vs: seq<nat>, x: Profile, n: depth): (r: seq<nat>)
    ensures |r| == |vs|
  {
    seq(|vs|, i requires 0 <= i < |vs| => Target(vs, x, n, i))
  }

  lemma TargetInRun(vs: seq<nat>, x: Profile, n: depth, a: nat, b: nat, i: nat)
    requires IsRun(vs, Threshold(x, n), a, b) && a <= i < b && i % 2 == a % 2
    ensures i < |vs| && (i - a) / 2 < (b - a) / 2
    ensures (b - a) / 2 < MinRun(x) ==> Target(vs, x, n, i) == vs[i]
    ensures (b - a) / 2 >= MinRun(x) ==>
      Target(vs, x, n, i) == Merge(vs[i], Ordered(Stepped(vs, a, b), Down(x))[(i - a) / 2], Planes(x, n), x.mix, n)
  {
    RunStartIs(vs, Threshold(x, n), a, b, i);
    RunEndIs(vs, Threshold(x, n), a, b, i);
    hide Threshold, Ordered, Stepped, Merge, RunStart, RunEnd, Planes;
  }

  // ----- With Replace on all planes: a sort, and done once is done for good -----

  predicate Plain(vs: seq<nat>, x: Profile, n: depth) {
    x.lanes == 0 && x.mix == Replace && forall i | 0 <= i < |vs| :: vs[i] < Pow2(n)
  }

  // Each value of an ordered run is one of the run's pixels.
  lemma FromTheRun(vs: seq<nat>, x: Profile, n: depth, a: nat, b: nat, j: nat)
    requires Plain(vs, x, n) && IsRun(vs, Threshold(x, n), a, b) && j < (b - a) / 2
    ensures Threshold(x, n) < Ordered(Stepped(vs, a, b), Down(x))[j] < Pow2(n)
  {
    hide *;
    RunShape(vs, Threshold(x, n), a, b);
    var k := OrderedFrom(Stepped(vs, a, b), Down(x), j);
    SteppedAt(vs, a, b, k);
    InsideRun(vs, Threshold(x, n), a, b, k);
    PlainAt(vs, x, n, a + 2 * k);
  }

  lemma OrderedFrom(s: seq<nat>, down: bool, j: nat) returns (k: nat)
    requires j < |s|
    ensures k < |s| && Ordered(s, down)[j] == s[k]
  {
    hide *;
    OrderedIs(s, down);
    var r := Ordered(s, down);
    assert r[j] in multiset(r);
    assert r[j] in s;
    k :| 0 <= k < |s| && s[k] == r[j];
  }

  // Pixel a + 2j of the sorted row is the j-th of the run's values in order.
  lemma PlainPixel(vs: seq<nat>, x: Profile, n: depth, a: nat, b: nat, j: nat)
    requires Plain(vs, x, n) && IsRun(vs, Threshold(x, n), a, b) && (b - a) / 2 >= MinRun(x) && j < (b - a) / 2
    ensures a + 2 * j < |vs|
    ensures SortedRow(vs, x, n)[a + 2 * j] == Target(vs, x, n, a + 2 * j) == Ordered(Stepped(vs, a, b), Down(x))[j]
  {
    var i := a + 2 * j;
    InsideRun(vs, Threshold(x, n), a, b, j);
    PlainAt(vs, x, n, i);
    hide *;
    TargetInRun(vs, x, n, a, b, i);
    FromTheRun(vs, x, n, a, b, j);
    MergeReplaces(vs[i], Ordered(Stepped(vs, a, b), Down(x))[j], n);
  }

  lemma InsideRun(vs: seq<nat>, thr: nat, a: nat, b: nat, j: nat)
    requires IsRun(vs, thr, a, b) && j < (b - a) / 2
    ensures a <= a + 2 * j < b && (a + 2 * j) % 2 == a % 2 && (a + 2 * j - a) / 2 == j && a + 2 * j < |vs|
    ensures vs[a + 2 * j] > thr
  {
  }

  lemma RunShape(vs: seq<nat>, thr: nat, a: nat, b: nat)
    requires IsRun(vs, thr, a, b)
    ensures a <= b <= |vs| + 1 && a % 2 == b % 2
  {
  }

  lemma PlainAt(vs: seq<nat>, x: Profile, n: depth, i: nat)
    requires Plain(vs, x, n) && i < |vs|
    ensures x.mix == Replace && Planes(x, n) == Pow2(n) - 1 && vs[i] < Pow2(n)
    ensures SortedRow(vs, x, n)[i] == Target(vs, x, n, i)
  {
    hide Target, Pow2;
  }

  // A long run becomes itself, in order.
  lemma RunIsSorted(vs: seq<nat>, x: Profile, n: depth, a: nat, b: nat)
    requires Plain(vs, x, n) && IsRun(vs, Threshold(x, n), a, b) && (b - a) / 2 >= MinRun(x)
    ensures Stepped(SortedRow(vs, x, n), a, b) == Ordered(Stepped(vs, a, b), Down(x))
    ensures InOrder(Stepped(SortedRow(vs, x, n), a, b), Down(x))
    ensures multiset(Stepped(SortedRow(vs, x, n), a, b)) == multiset(Stepped(vs, a, b))
  {
    hide *;
    RunShape(vs, Threshold(x, n), a, b);
    var s, out := Stepped(vs, a, b), SortedRow(vs, x, n);
    OrderedIs(s, Down(x));
    forall j | 0 <= j < |s| ensures Stepped(out, a, b)[j] == Ordered(s, Down(x))[j] {
      PlainPixel(vs, x, n, a, b, j);
      SteppedAt(out, a, b, j);
    }
  }

  lemma SteppedAt(vs: seq<nat>, a: nat, b: nat, j: nat)
    requires a <= b <= |vs| + 1 && a % 2 == b % 2 && j < (b - a) / 2
    ensures a + 2 * j < |vs| && Stepped(vs, a, b)[j] == vs[a + 2 * j]
  {
  }

  // The run of a pixel above the threshold, and its place there.
  lemma RunOf(vs: seq<nat>, thr: nat, i: nat) returns (a: nat, b: nat, j: nat)
    requires i < |vs| && vs[i] > thr
    ensures IsRun(vs, thr, a, b) && a <= b && a % 2 == b % 2 && b <= |vs| + 1 && j < (b - a) / 2 && i == a + 2 * j
    ensures a == RunStart(vs, thr, i) && b == RunEnd(vs, thr, i)
  {
    InARun(vs, thr, i);
    a, b := RunStart(vs, thr, i), RunEnd(vs, thr, i);
    j := (i - a) / 2;
    hide IsRun;
  }

  // The sorted row has the same runs.
  lemma SameRuns(vs: seq<nat>, x: Profile, n: depth, i: nat)
    requires Plain(vs, x, n) && i < |vs|
    ensures SortedRow(vs, x, n)[i] < Pow2(n)
    ensures (SortedRow(vs, x, n)[i] > Threshold(x, n)) == (vs[i] > Threshold(x, n))
  {
    hide *;
    PlainAt(vs, x, n, i);
    if vs[i] > Threshold(x, n) {
      var a, b, j := RunOf(vs, Threshold(x, n), i);
      TargetInRun(vs, x, n, a, b, i);
      if (b - a) / 2 >= MinRun(x) {
        PlainPixel(vs, x, n, a, b, j);
        FromTheRun(vs, x, n, a, b, j);
      }
    } else {
      TargetBelow(vs, x, n, i);
    }
  }

  lemma TargetBelow(vs: seq<nat>, x: Profile, n: depth, i: nat)
    requires i < |vs| && vs[i] <= Threshold(x, n)
    ensures Target(vs, x, n, i) == vs[i]
  {
  }

  // Sorting a sorted row changes nothing.
  lemma SortTwice(vs: seq<nat>, x: Profile, n: depth)
    requires Plain(vs, x, n)
    ensures SortedRow(SortedRow(vs, x, n), x, n) == SortedRow(vs, x, n)
  {
    var out, thr := SortedRow(vs, x, n), Threshold(x, n);
    forall i | 0 <= i < |vs| ensures out[i] < Pow2(n) && (out[i] > thr) == (vs[i] > thr) {
      SameRuns(vs, x, n, i);
    }
    hide Target, Threshold;
    forall i | 0 <= i < |vs| ensures Target(out, x, n, i) == out[i] {
      StaysSorted(vs, out, x, n, i);
    }
  }

  lemma StaysSorted(vs: seq<nat>, out: seq<nat>, x: Profile, n: depth, i: nat)
    requires Plain(vs, x, n) && Plain(out, x, n) && out == SortedRow(vs, x, n) && i < |vs|
    requires forall k | 0 <= k < |vs| :: (out[k] > Threshold(x, n)) == (vs[k] > Threshold(x, n))
    ensures Target(out, x, n, i) == out[i]
  {
    hide *;
    var thr := Threshold(x, n);
    if vs[i] > thr {
      var a, b, j := RunOf(vs, thr, i);
      RunAgain(vs, out, thr, a, b);
      TargetInRun(out, x, n, a, b, i);
      if (b - a) / 2 >= MinRun(x) {
        RunIsSorted(vs, x, n, a, b);
        OrderedTwice(Stepped(vs, a, b), Down(x));
        SteppedAt(out, a, b, j);
        PlainPixel(out, x, n, a, b, j);
      }
    } else {
      TargetBelow(out, x, n, i);
    }
  }

  lemma RunAgain(vs: seq<nat>, out: seq<nat>, thr: nat, a: nat, b: nat)
    requires IsRun(vs, thr, a, b) && |out| == |vs|
    requires forall k | 0 <= k < |vs| :: (out[k] > thr) == (vs[k] > thr)
    ensures IsRun(out, thr, a, b)
  {
  }
}

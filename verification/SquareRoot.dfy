/** The bit-at-a-time integer square root and the chord of a circle (chdk-src/core/bend.c:757-783). */
module SquareRoot {

  // r is the floor of the square root of v.
  ghost predicate IsRoot(r: int, v: int) {
    0 <= r && r * r <= v < (r + 1) * (r + 1)
  }

  lemma RootIsUnique(r: int, s: int, v: int)
    requires IsRoot(r, v) && IsRoot(s, v)
    ensures r == s
  {
    if r < s {
      SquareMonotone(r + 1, s);
    } else if s < r {
      SquareMonotone(s + 1, r);
    }
  }

  lemma SquareMonotone(a: int, b: int)
    requires 0 <= a <= b
    ensures a * a <= b * b
  {
  }

  ghost function Mul(a: int, b: int): int { a * b }

  lemma Expand(r: int, h: int)
    ensures Mul(r + h, r + h) == Mul(r, r) + 2 * Mul(h, r) + Mul(h, h)
    ensures Mul(h, r + h) == Mul(h, r) + Mul(h, h)
    ensures Mul(2 * h, r) == 2 * Mul(h, r)
  {
  }

  ghost predicate PowerOfTwo(d: nat) {
    d == 1 || (d > 0 && d % 2 == 0 && PowerOfTwo(d / 2))
  }

  /** The state of the search: the root found so far is r, a multiple of the gap d, and the true root
      lies in r .. r + d.  The program keeps d*r, v - r*r and the square of half the gap instead. */
  ghost predicate Searching(v: nat, r: nat, d: nat, rem: nat, root: nat, bit: nat) {
    && PowerOfTwo(d) && r + d <= 0x10000
    && bit == Mul(d / 2, d / 2)
    && root == Mul(d, r)
    && rem + Mul(r, r) == v < Mul(r + d, r + d)
  }

  lemma HalfOf(d: nat)
    requires PowerOfTwo(d)
    ensures d == 1 || (d == 2 * (d / 2) && PowerOfTwo(d / 2))
    ensures Mul(d / 2, d / 2) / 4 == Mul(d / 2 / 2, d / 2 / 2)
    ensures Mul(d / 2, d / 2) == 0 <==> d == 1
  {
    if d > 1 && d / 2 > 1 {
      var h := d / 2 / 2;
      assert d / 2 == 2 * h;
      assert (2 * h) * (2 * h) == 4 * (h * h);
    }
  }

  // The first loop only halves the gap.
  lemma Narrow(v: nat, d: nat, bit: nat)
    requires Searching(v, 0, d, v, 0, bit) && bit > v
    ensures Searching(v, 0, d / 2, v, 0, bit / 4) && bit / 4 < bit
  {
    HalfOf(d);
  }

  lemma Take(v: nat, r: nat, d: nat, rem: nat, root: nat, bit: nat)
    requires Searching(v, r, d, rem, root, bit) && bit > 0 && rem >= root + bit
    ensures Searching(v, r + d / 2, d / 2, rem - (root + bit), root / 2 + bit, bit / 4)
  {
    hide Mul;
    HalfOf(d);
    Expand(r, d / 2);
  }

  lemma Skip(v: nat, r: nat, d: nat, rem: nat, root: nat, bit: nat)
    requires Searching(v, r, d, rem, root, bit) && bit > 0 && rem < root + bit
    ensures Searching(v, r, d / 2, rem, root / 2, bit / 4)
  {
    hide Mul;
    HalfOf(d);
    Expand(r, d / 2);
  }

  // No sum below leaves 32 bits.
  lemma Fits(v: nat, r: nat, d: nat, rem: nat, root: nat, bit: nat)
    requires Searching(v, r, d, rem, root, bit)
    ensures root + bit < 0x1_0000_0000
  {
    HalfOf(d);
    var h := d / 2;
    Expand(r, h);
    SquareMonotone(r + h, 0xffff);
  }

  method Isqrt(v: nat) returns (root: nat)
    requires v < 0x1_0000_0000
    ensures IsRoot(root, v)
  {
    hide Searching;
    var rem: nat, bit: nat := v, 0x4000_0000;
    root := 0;
    ghost var r: nat, d: nat := 0, 0x10000;
    Start(v);
    while bit > rem
      invariant Searching(v, 0, d, rem, 0, bit) && rem == v
      decreases bit
    {
      Narrow(v, d, bit);
      bit := bit / 4;
      d := d / 2;
    }
    while bit != 0
      invariant Searching(v, r, d, rem, root, bit)
      decreases bit
    {
      Fits(v, r, d, rem, root, bit);
      assert root + bit < 0x1_0000_0000;
      if rem >= root + bit {
        Take(v, r, d, rem, root, bit);
        rem := rem - (root + bit);
        root := root / 2 + bit;
        r := r + d / 2;
      } else {
        Skip(v, r, d, rem, root, bit);
        root := root / 2;
      }
      bit := bit / 4;
      d := d / 2;
    }
    Found(v, r, d, rem, root);
  }

  lemma Start(v: nat)
    requires v < 0x1_0000_0000
    ensures Searching(v, 0, 0x10000, v, 0, 0x4000_0000)
  {
    assert PowerOfTwo(16) by { assert PowerOfTwo(4); }
    assert PowerOfTwo(256) by { assert PowerOfTwo(64); }
    assert PowerOfTwo(4096) by { assert PowerOfTwo(1024); }
    assert PowerOfTwo(0x10000) by { assert PowerOfTwo(0x4000); }
  }

  lemma Found(v: nat, r: nat, d: nat, rem: nat, root: nat)
    requires Searching(v, r, d, rem, root, 0)
    ensures IsRoot(root, v)
  {
    HalfOf(d);
  }

  // ----- The chord -----

  // The horizontal distance dx from the centre is inside the circle of radius r at height dy.
  ghost predicate Inside(r: int, dx: int, dy: int) { dx * dx + dy * dy <= r * r }

  // The chord is the largest such distance; a row that misses or only touches the circle has none.
  method Chord(r: int, dy: int) returns (c: int)
    requires r < 0x10000
    ensures 0 <= c && (c > 0 ==> c <= r)
    ensures r <= 0 || dy >= r || -dy >= r ==> c == 0
    ensures 0 < r && -r < dy < r ==> forall dx :: -c <= dx <= c <==> Inside(r, dx, dy)
  {
    var dy' := if dy < 0 then -dy else dy;
    if r <= 0 || dy' >= r { return 0; }
    SquareMonotone(dy', r);
    SquareMonotone(r, 0xffff);
    assert dy' * dy' == dy * dy;
    c := Isqrt(r * r - dy' * dy');
    ChordIsWidest(r, dy, c);
  }

  lemma ChordIsWidest(r: int, dy: int, c: int)
    requires 0 < r && IsRoot(c, r * r - dy * dy)
    ensures c <= r
    ensures forall dx :: -c <= dx <= c <==> Inside(r, dx, dy)
  {
    hide *;
    ChordFits(r, dy, c);
    forall dx ensures -c <= dx <= c <==> Inside(r, dx, dy) { ChordAt(r, dy, c, dx); }
  }

  lemma ChordFits(r: int, dy: int, c: int)
    requires 0 < r && IsRoot(c, r * r - dy * dy)
    ensures c <= r
  {
    assert dy * dy >= 0;
    assert c * c <= r * r < (r + 1) * (r + 1);
    hide IsRoot;
    if c > r { SquareMonotone(r + 1, c); }
  }

  lemma ChordAt(r: int, dy: int, c: int, dx: int)
    requires IsRoot(c, r * r - dy * dy)
    ensures -c <= dx <= c <==> Inside(r, dx, dy)
  {
    var a := if dx < 0 then -dx else dx;
    assert a * a == dx * dx;
    if a <= c { SquareMonotone(a, c); } else { SquareMonotone(c + 1, a); }
  }
}

/** Rows of packed pixels, read and written where they lie (chdk-src/core/bendx.c:104-169). */
module Packed {
  import opened Arith
  import opened Bits
  import opened Frame
  import opened Pixels
  import opened Words

  function Offset(x: nat, n: depth): nat { x / GroupPixels(n) * GroupBytes(n) }

  // Whether a row has room for so many pixels, in whole groups.
  predicate Holds(p: seq<byte>, npix: nat, n: depth) {
    npix % GroupPixels(n) == 0 && Offset(npix, n) <= |p|
  }

  // Pixels the pixel-domain effects may address, of a row of rowpix.
  function WholePixels(rowpix: nat, n: depth): nat { rowpix - rowpix % GroupPixels(n) }

  lemma OffsetFits(p: seq<byte>, npix: nat, n: depth, x: nat)
    requires Holds(p, npix, n) && x < npix
    ensures Offset(x, n) + GroupBytes(n) <= Offset(npix, n) <= |p| && x % GroupPixels(n) < GroupPixels(n)
  {
  }

  lemma OffsetsApart(x: nat, z: nat, n: depth)
    ensures Offset(x, n) == Offset(z, n) ==> x / GroupPixels(n) == z / GroupPixels(n)
    ensures Offset(x, n) < Offset(z, n) ==> Offset(x, n) + GroupBytes(n) <= Offset(z, n)
  {
  }

  function GroupOf(p: seq<byte>, o: nat, n: depth): (a: seq<byte>)
    requires o + GroupBytes(n) <= |p|
    ensures |a| == GroupBytes(n)
  {
    p[o..o + GroupBytes(n)]
  }

  function Get(p: seq<byte>, npix: nat, x: nat, n: depth): (v: nat)
    requires Holds(p, npix, n) && x < npix
    ensures v < Pow2(n)
  {
    OffsetFits(p, npix, n, x);
    GroupGet(GroupOf(p, Offset(x, n), n), x % GroupPixels(n), n)
  }

  function Set(p: seq<byte>, npix: nat, x: nat, v: nat, n: depth): (q: seq<byte>)
    requires Holds(p, npix, n) && x < npix && v < Pow2(n)
    ensures Holds(q, npix, n) && |q| == |p|
  {
    OffsetFits(p, npix, n, x);
    var o := Offset(x, n);
    p[..o] + GroupSet(GroupOf(p, o, n), x % GroupPixels(n), v, n) + p[o + GroupBytes(n)..]
  }

  // The bytes behind the last whole group.
  function Tail(p: seq<byte>, npix: nat, n: depth): seq<byte>
    requires Holds(p, npix, n)
  {
    p[Offset(npix, n)..]
  }

  lemma SetGet(p: seq<byte>, npix: nat, x: nat, v: nat, n: depth, z: nat)
    requires Holds(p, npix, n) && x < npix && z < npix && v < Pow2(n)
    ensures Get(Set(p, npix, x, v, n), npix, z, n) == if z == x then v else Get(p, npix, z, n)
  {
    hide *;
    OffsetFits(p, npix, n, x);
    OffsetFits(p, npix, n, z);
    var o, u, k := Offset(x, n), Offset(z, n), x % GroupPixels(n);
    OffsetsApart(x, z, n);
    OffsetsApart(z, x, n);
    SameWhenBoth(x, z, GroupPixels(n));
    var g := GroupSet(GroupOf(p, o, n), k, v, n);
    SetIs(p, npix, x, v, n);
    GetIs(Set(p, npix, x, v, n), npix, z, n);
    GetIs(p, npix, z, n);
    GroupsAfter(p, o, g, n, u);
    GroupSetGet(GroupOf(p, o, n), k, v, n, z % GroupPixels(n));
  }

  lemma SameWhenBoth(x: nat, z: nat, c: nat)
    requires c > 0
    ensures x == z <==> x / c == z / c && x % c == z % c
  {
    DivMod(x, c);
    DivMod(z, c);
  }

  // Replacing one group leaves the others alone.
  lemma GroupsAfter(p: seq<byte>, o: nat, g: seq<byte>, n: depth, u: nat)
    requires o + GroupBytes(n) <= |p| && u + GroupBytes(n) <= |p| && |g| == GroupBytes(n)
    requires o == u || o + GroupBytes(n) <= u || u + GroupBytes(n) <= o
    ensures GroupOf(p[..o] + g + p[o + GroupBytes(n)..], u, n) == if u == o then g else GroupOf(p, u, n)
  {
    hide GroupBytes;
  }

  // Only the bytes of the pixel's own group can change.
  lemma SetElsewhere(p: seq<byte>, npix: nat, x: nat, v: nat, n: depth, i: nat)
    requires Holds(p, npix, n) && x < npix && v < Pow2(n) && i < |p|
    requires i < Offset(x, n) || i >= Offset(x, n) + GroupBytes(n)
    ensures Set(p, npix, x, v, n)[i] == p[i]
  {
    OffsetFits(p, npix, n, x);
    hide GroupSet;
  }

  // ----- A row as an array of pixels -----

  function PixelsOf(p: seq<byte>, npix: nat, n: depth): (v: seq<nat>)
    requires Holds(p, npix, n)
    ensures |v| == npix && forall x | 0 <= x < npix :: v[x] < Pow2(n)
  {
    seq(npix, x requires 0 <= x < npix => Get(p, npix, x, n))
  }

  lemma SetPixels(p: seq<byte>, npix: nat, x: nat, v: nat, n: depth)
    requires Holds(p, npix, n) && x < npix && v < Pow2(n)
    ensures PixelsOf(Set(p, npix, x, v, n), npix, n) == PixelsOf(p, npix, n)[x := v]
    ensures Tail(Set(p, npix, x, v, n), npix, n) == Tail(p, npix, n)
  {
    var q := Set(p, npix, x, v, n);
    forall z | 0 <= z < npix ensures Get(q, npix, z, n) == if z == x then v else Get(p, npix, z, n) {
      SetGet(p, npix, x, v, n, z);
    }
    OffsetFits(p, npix, n, x);
    forall i | Offset(npix, n) <= i < |p| ensures q[i] == p[i] { SetElsewhere(p, npix, x, v, n, i); }
    hide Get, Set, Offset;
  }

  // Where byte i is, and where the pixels of a group are.
  lemma ByteAt(npix: nat, n: depth, i: nat)
    requires npix % GroupPixels(n) == 0 && i < Offset(npix, n)
    ensures i / GroupBytes(n) < npix / GroupPixels(n)
    ensures i == i / GroupBytes(n) * GroupBytes(n) + i % GroupBytes(n)
  {
  }

  lemma PixelAt(npix: nat, n: depth, g: nat, k: nat)
    requires npix % GroupPixels(n) == 0 && g < npix / GroupPixels(n) && k < GroupPixels(n)
    ensures var x := g * GroupPixels(n) + k;
            x < npix && Offset(x, n) == g * GroupBytes(n) && x % GroupPixels(n) == k
    ensures g * GroupBytes(n) + GroupBytes(n) <= Offset(npix, n)
  {
    QuotientIs(g * GroupPixels(n) + k, GroupPixels(n), g, k);
  }

  // A row is its pixels and its tail.
  lemma RowDetermined(p: seq<byte>, q: seq<byte>, npix: nat, n: depth)
    requires Holds(p, npix, n) && Holds(q, npix, n) && |p| == |q|
    requires PixelsOf(p, npix, n) == PixelsOf(q, npix, n) && Tail(p, npix, n) == Tail(q, npix, n)
    ensures p == q
  {
    forall i | 0 <= i < |p| ensures p[i] == q[i] {
      if i >= Offset(npix, n) {
        assert Tail(p, npix, n)[i - Offset(npix, n)] == Tail(q, npix, n)[i - Offset(npix, n)];
      } else {
        ByteAt(npix, n, i);
        GroupsEqual(p, q, npix, n, i / GroupBytes(n), i % GroupBytes(n), i);
      }
    }
    hide *;
  }

  lemma GroupsEqual(p: seq<byte>, q: seq<byte>, npix: nat, n: depth, g: nat, j: nat, i: nat)
    requires Holds(p, npix, n) && Holds(q, npix, n) && |p| == |q| && g < npix / GroupPixels(n)
    requires PixelsOf(p, npix, n) == PixelsOf(q, npix, n) && j < GroupBytes(n) && i == g * GroupBytes(n) + j
    ensures i < |p| && p[i] == q[i]
  {
    var o := g * GroupBytes(n);
    PixelAt(npix, n, g, 0);
    var a, b := GroupOf(p, o, n), GroupOf(q, o, n);
    forall k: nat | k < GroupPixels(n) ensures GroupGet(a, k, n) == GroupGet(b, k, n) {
      PixelsEqual(p, q, npix, n, g, k);
    }
    GroupDetermined(a, b, n);
    assert a[j] == p[i] && b[j] == q[i];
  }

  lemma PixelsEqual(p: seq<byte>, q: seq<byte>, npix: nat, n: depth, g: nat, k: nat)
    requires Holds(p, npix, n) && Holds(q, npix, n) && |p| == |q| && g < npix / GroupPixels(n) && k < GroupPixels(n)
    requires PixelsOf(p, npix, n) == PixelsOf(q, npix, n)
    ensures g * GroupBytes(n) + GroupBytes(n) <= |p|
    ensures GroupGet(GroupOf(p, g * GroupBytes(n), n), k, n) == GroupGet(GroupOf(q, g * GroupBytes(n), n), k, n)
  {
    var x := g * GroupPixels(n) + k;
    PixelAt(npix, n, g, k);
    assert PixelsOf(p, npix, n)[x] == PixelsOf(q, npix, n)[x];
    assert Offset(npix, n) <= |p|;
    assert PixelsOf(p, npix, n)[x] == Get(p, npix, x, n) && PixelsOf(q, npix, n)[x] == Get(q, npix, x, n);
    hide PixelsOf;
    assert Get(p, npix, x, n) == GroupGet(GroupOf(p, Offset(x, n), n), x % GroupPixels(n), n);
    assert Get(q, npix, x, n) == GroupGet(GroupOf(q, Offset(x, n), n), x % GroupPixels(n), n);
    hide *;
  }

  // ----- The accessors -----

  // The pixel whose first byte is at i and whose second is at j.
  method Patch(base: array<byte>, i: nat, hm: nat, j: nat, m: nat, v: nat)
    requires i < base.Length && j < base.Length && i != j && Splits(hm) && Splits(m) && v < hm * Share(m)
    modifies base
    ensures Upper(v, m) < hm && Lower(v, m) < Share(m)
    ensures base[..] == old(base[..])[i := WithBottom(old(base[i]), hm, Upper(v, m))]
                                     [j := WithTop(old(base[j]), m, Lower(v, m))]
  {
    hide *;
    Quarters(v, hm, m);
    base[i], base[j] := WithBottom(base[i], hm, Upper(v, m)), WithTop(base[j], m, Lower(v, m));
  }

  method GetGroup(base: array<byte>, a: nat, k: nat, n: depth) returns (v: nat)
    requires a + GroupBytes(n) <= base.Length && k < GroupPixels(n)
    ensures v == GroupGet(GroupOf(base[..], a, n), k, n)
  {
    hide Join, Bottom, Top, Pow2;
    if n == 10 {
      if k == 0 { v := Join(base[a + 1], 256, base[a], 64); }
      else if k == 1 { v := Join(base[a], 64, base[a + 3], 16); }
      else if k == 2 { v := Join(base[a + 3], 16, base[a + 2], 4); }
      else if k == 3 { v := Join(base[a + 2], 4, base[a + 5], 1); }
      else if k == 4 { v := Join(base[a + 4], 256, base[a + 7], 64); }
      else if k == 5 { v := Join(base[a + 7], 64, base[a + 6], 16); }
      else if k == 6 { v := Join(base[a + 6], 16, base[a + 9], 4); }
      else { v := Join(base[a + 9], 4, base[a + 8], 1); }
    } else {
      if k == 0 { v := Join(base[a + 1], 256, base[a], 16); }
      else if k == 1 { v := Join(base[a], 16, base[a + 3], 1); }
      else if k == 2 { v := Join(base[a + 2], 256, base[a + 5], 16); }
      else { v := Join(base[a + 5], 16, base[a + 4], 1); }
    }
  }

  lemma Spliced(was: seq<byte>, a: nat, k: nat, v: nat, n: depth)
    requires a + GroupBytes(n) <= |was| && k < GroupPixels(n) && v < Pow2(n)
    ensures var w := PlaceOf(k, n);
      && Upper(v, w.m) < w.hm && Lower(v, w.m) < Share(w.m)
      && was[a + w.h := WithBottom(was[a + w.h], w.hm, Upper(v, w.m))]
            [a + w.l := WithTop(was[a + w.l], w.m, Lower(v, w.m))]
         == was[..a] + GroupSet(GroupOf(was, a, n), k, v, n) + was[a + GroupBytes(n)..]
  {
    hide *;
    var w, g := PlaceOf(k, n), GroupOf(was, a, n);
    Quarters(v, w.hm, w.m);
    ByteOfGroup(was, a, n, w.h);
    ByteOfGroup(was, a, n, w.l);
    GroupSetIs(g, k, v, n);
    var b, c := WithBottom(g[w.h], w.hm, Upper(v, w.m)), WithTop(g[w.l], w.m, Lower(v, w.m));
    SplicedTwo(was, a, GroupBytes(n), w.h, b, w.l, c);
  }

  lemma ByteOfGroup(was: seq<byte>, a: nat, n: depth, i: nat)
    requires a + GroupBytes(n) <= |was| && i < GroupBytes(n)
    ensures GroupOf(was, a, n) == was[a..a + GroupBytes(n)] && GroupOf(was, a, n)[i] == was[a + i]
  {
  }

  lemma SplicedTwo(was: seq<byte>, a: nat, len: nat, i: nat, b: byte, j: nat, c: byte)
    requires a + len <= |was| && i < len && j < len
    ensures was[a + i := b][a + j := c] == was[..a] + was[a..a + len][i := b][j := c] + was[a + len..]
  {
  }

  method SetGroup(base: array<byte>, a: nat, k: nat, v: nat, n: depth)
    requires a + GroupBytes(n) <= base.Length && k < GroupPixels(n) && v < Pow2(n)
    modifies base
    ensures base[..] == old(base[..a]) + GroupSet(GroupOf(old(base[..]), a, n), k, v, n) + old(base[a + GroupBytes(n)..])
  {
    Widths();
    Spliced(base[..], a, k, v, n);
    hide Bottom, Top, WithBottom, WithTop, Pow2, GroupSet;
    if n == 10 {
      if k == 0 { Patch(base, a + 1, 256, a, 64, v); }
      else if k == 1 { Patch(base, a, 64, a + 3, 16, v); }
      else if k == 2 { Patch(base, a + 3, 16, a + 2, 4, v); }
      else if k == 3 { Patch(base, a + 2, 4, a + 5, 1, v); }
      else if k == 4 { Patch(base, a + 4, 256, a + 7, 64, v); }
      else if k == 5 { Patch(base, a + 7, 64, a + 6, 16, v); }
      else if k == 6 { Patch(base, a + 6, 16, a + 9, 4, v); }
      else { Patch(base, a + 9, 4, a + 8, 1, v); }
    } else {
      if k == 0 { Patch(base, a + 1, 256, a, 16, v); }
      else if k == 1 { Patch(base, a, 16, a + 3, 1, v); }
      else if k == 2 { Patch(base, a + 2, 256, a + 5, 16, v); }
      else { Patch(base, a + 5, 16, a + 4, 1, v); }
    }
  }

  // The group of a row's pixel, in the frame.
  lemma GroupInFrame(m: seq<byte>, p: nat, len: nat, npix: nat, x: nat, n: depth)
    requires p + len <= |m| && Holds(m[p..p + len], npix, n) && x < npix
    ensures Offset(x, n) + GroupBytes(n) <= len && x % GroupPixels(n) < GroupPixels(n)
    ensures GroupOf(m, p + Offset(x, n), n) == GroupOf(m[p..p + len], Offset(x, n), n)
  {
    hide Offset, GroupBytes, GroupPixels, Holds;
    OffsetFits(m[p..p + len], npix, n, x);
    SliceOfSlice(m, p, p + len, Offset(x, n), Offset(x, n) + GroupBytes(n));
  }

  lemma GetIs(row: seq<byte>, npix: nat, x: nat, n: depth)
    requires Holds(row, npix, n) && x < npix
    ensures Offset(x, n) + GroupBytes(n) <= |row| && x % GroupPixels(n) < GroupPixels(n)
    ensures Get(row, npix, x, n) == GroupGet(GroupOf(row, Offset(x, n), n), x % GroupPixels(n), n)
  {
    OffsetFits(row, npix, n, x);
  }

  lemma SetIs(row: seq<byte>, npix: nat, x: nat, v: nat, n: depth)
    requires Holds(row, npix, n) && x < npix && v < Pow2(n)
    ensures var o := Offset(x, n);
      && o + GroupBytes(n) <= |row| && x % GroupPixels(n) < GroupPixels(n)
      && Set(row, npix, x, v, n) ==
         row[..o] + GroupSet(GroupOf(row, o, n), x % GroupPixels(n), v, n) + row[o + GroupBytes(n)..]
  {
    OffsetFits(row, npix, n, x);
    hide GroupSet, Offset, GroupBytes, GroupPixels, GroupOf, Pow2;
  }

  // Pixel x of the row of len bytes that starts at p.
  method GetPixel(base: array<byte>, p: nat, len: nat, npix: nat, x: nat, n: depth) returns (v: nat)
    requires p + len <= base.Length && Holds(base[p..p + len], npix, n) && x < npix
    ensures v == Get(base[p..p + len], npix, x, n)
  {
    hide *;
    ghost var row := base[p..p + len];
    assert base[..][p..p + len] == row;
    GroupInFrame(base[..], p, len, npix, x, n);
    GetIs(row, npix, x, n);
    v := GetGroup(base, p + Offset(x, n), x % GroupPixels(n), n);
    assert v == Get(row, npix, x, n) && row == base[p..p + len];
  }

  method SetPixel(base: array<byte>, p: nat, len: nat, npix: nat, x: nat, v: nat, n: depth)
    requires p + len <= base.Length && Holds(base[p..p + len], npix, n) && x < npix && v < Pow2(n)
    modifies base
    ensures base[..] == old(base[..p]) + Set(old(base[p..p + len]), npix, x, v, n) + old(base[p + len..])
  {
    hide *;
    ghost var m := base[..];
    assert m[p..p + len] == base[p..p + len];
    GroupInFrame(m, p, len, npix, x, n);
    SetInRow(m, p, len, npix, x, v, n);
    SetGroup(base, p + Offset(x, n), x % GroupPixels(n), v, n);
  }

  lemma SetInRow(was: seq<byte>, p: nat, len: nat, npix: nat, x: nat, v: nat, n: depth)
    requires p + len <= |was| && Holds(was[p..p + len], npix, n) && x < npix && v < Pow2(n)
    ensures var a := p + Offset(x, n);
      && a + GroupBytes(n) <= p + len && x % GroupPixels(n) < GroupPixels(n)
      && was[..a] + GroupSet(GroupOf(was, a, n), x % GroupPixels(n), v, n) + was[a + GroupBytes(n)..]
         == was[..p] + Set(was[p..p + len], npix, x, v, n) + was[p + len..]
  {
    hide *;
    GroupInFrame(was, p, len, npix, x, n);
    SetIs(was[p..p + len], npix, x, v, n);
    var o := Offset(x, n);
    InsideOut(was, p, len, o, GroupBytes(n), GroupSet(GroupOf(was, p + o, n), x % GroupPixels(n), v, n));
  }

  lemma InsideOut(was: seq<byte>, p: nat, len: nat, o: nat, w: nat, g: seq<byte>)
    requires p + len <= |was| && o + w <= len && |g| == w
    ensures was[..p + o] + g + was[p + o + w..]
         == was[..p] + (was[p..p + len][..o] + g + was[p..p + len][o + w..]) + was[p + len..]
  {
  }

  // ----- The row as a bit stream -----

  // The bytes of a row change places two by two; from there on it is a bit stream.
  function Swapped(j: nat): nat { if j % 2 == 0 then j + 1 else j - 1 }

  predicate StreamBit(p: seq<byte>, t: nat)
    requires Swapped(t / 8) < |p|
  {
    Bit(p[Swapped(t / 8)], 7 - t % 8)
  }

  // Where a byte can be split.
  predicate Cut(s: nat) { s == 0 || s == 2 || s == 4 || s == 6 || s == 8 }

  lemma CutPowers()
    ensures Pow2(0) == 1 && Pow2(2) == 4 && Pow2(4) == 16 && Pow2(6) == 64 && Pow2(8) == 256
  {
  }

  lemma CutShifts(b: byte)
    ensures Shr(b, 0) == b && Shr(b, 2) == b / 4 && Shr(b, 4) == b / 16 && Shr(b, 6) == b / 64 && Shr(b, 8) == b / 256
  {
    assert Shr(b, 4) == Shr(b / 2 / 2, 2);
    assert Shr(b, 6) == Shr(b / 2 / 2 / 2 / 2, 2);
    assert Shr(b, 8) == Shr(b / 2 / 2 / 2 / 2 / 2 / 2, 2);
  }

  lemma CutIsSplit(b: byte, s: nat)
    requires Cut(s)
    ensures Splits(Pow2(s)) && Share(Pow2(s)) == Pow2(8 - s)
    ensures Top(b, Pow2(s)) == Shr(b, s) < Pow2(8 - s)
    ensures Bottom(b, Pow2(s)) < Pow2(s) && b == Shr(b, s) * Pow2(s) + Bottom(b, Pow2(s))
  {
    CutPowers();
    CutShifts(b);
    hide Pow2, Shr;
    if s == 0 {} else if s == 2 {} else if s == 4 {} else if s == 6 {} else {}
  }

  // The bits of a joined pixel: the top of l, and above it the bottom of h.
  lemma BitOfJoin(h: byte, s: nat, l: byte, t: nat, i: nat)
    requires Cut(s) && Cut(t) && i < s + 8 - t
    ensures Splits(Pow2(s)) && Splits(Pow2(t))
    ensures Bit(Join(h, Pow2(s), l, Pow2(t)), i) == if i < 8 - t then Bit(l, i + t) else Bit(h, i - (8 - t))
  {
    CutIsSplit(h, s);
    CutIsSplit(l, t);
    assert t <= 8;
    var a, b := Bottom(h, Pow2(s)), Top(l, Pow2(t));
    assert Join(h, Pow2(s), l, Pow2(t)) == a * Pow2(8 - t) + b;
    hide *;
    BitOfSum(a, b, 8 - t, i);
    if i < 8 - t {
      BitOfShr(l, t, i);
    } else {
      BitOfSum(Shr(h, s), a, s, i - (8 - t));
    }
  }

  function Log(m: nat): (s: nat)
    requires Splits(m)
    ensures Cut(s) && Pow2(s) == m
  {
    CutPowers();
    if m == 1 then 0 else if m == 4 then 2 else if m == 16 then 4 else if m == 64 then 6 else 8
  }

  // Bit b of pixel k, from the top, is bit k*n + b of the stream of its group.
  lemma StreamPlace(k: nat, n: depth, b: nat)
    requires k < GroupPixels(n) && b < n
    ensures var w, t := PlaceOf(k, n), k * n + b;
      && n == Log(w.hm) + 8 - Log(w.m)
      && t < 8 * GroupBytes(n)
      && if n - 1 - b < 8 - Log(w.m)
         then Swapped(t / 8) == w.l && 7 - t % 8 == n - 1 - b + Log(w.m)
         else Swapped(t / 8) == w.h && 7 - t % 8 == n - 1 - b - (8 - Log(w.m))
  {
    hide Pow2;
    if n == 12 { if k == 0 {} else if k == 1 {} else if k == 2 {} else {} }
    else if k == 0 {} else if k == 1 {} else if k == 2 {} else if k == 3 {}
    else if k == 4 {} else if k == 5 {} else if k == 6 {} else {}
  }

  lemma GroupIsStream(a: seq<byte>, k: nat, n: depth, b: nat)
    requires |a| == GroupBytes(n) && k < GroupPixels(n) && b < n
    ensures Swapped((k * n + b) / 8) < |a| && Bit(GroupGet(a, k, n), n - 1 - b) == StreamBit(a, k * n + b)
  {
    var w := PlaceOf(k, n);
    StreamPlace(k, n, b);
    BitOfJoin(a[w.h], Log(w.hm), a[w.l], Log(w.m), n - 1 - b);
    assert GroupGet(a, k, n) == Join(a[w.h], w.hm, a[w.l], w.m);
    hide Bit, Join, Pow2, PlaceOf, Log, GroupBytes, GroupPixels;
  }

  // Where the stream of a group lies in that of the row.
  lemma AlongRow(x: nat, n: depth)
    ensures x * n == 8 * Offset(x, n) + x % GroupPixels(n) * n && Offset(x, n) % 2 == 0
  {
    var q := x / GroupPixels(n);
    DivMod(x, GroupPixels(n));
    if n == 10 {
      assert Offset(x, n) == 10 * q;
    } else {
      assert Offset(x, n) == 6 * q;
    }
  }

  lemma BytesAlong(c: nat, t: nat)
    requires c % 2 == 0
    ensures (8 * c + t) % 8 == t % 8 && Swapped((8 * c + t) / 8) == c + Swapped(t / 8)
  {
  }

  lemma StreamOffset(x: nat, n: depth, b: nat)
    requires b < n
    ensures var t := x % GroupPixels(n) * n + b;
      && (x * n + b) % 8 == t % 8
      && Swapped((x * n + b) / 8) == Offset(x, n) + Swapped(t / 8)
  {
    hide *;
    AlongRow(x, n);
    BytesAlong(Offset(x, n), x % GroupPixels(n) * n + b);
  }

  // The packed row is a bit stream: pixel x is its bits x*n to x*n + n, the top one first.
  lemma PixelIsStream(p: seq<byte>, npix: nat, x: nat, n: depth, b: nat)
    requires Holds(p, npix, n) && x < npix && b < n
    ensures Swapped((x * n + b) / 8) < |p|
    ensures Bit(Get(p, npix, x, n), n - 1 - b) == StreamBit(p, x * n + b)
  {
    hide *;
    var o, k := Offset(x, n), x % GroupPixels(n);
    OffsetFits(p, npix, n, x);
    GetIs(p, npix, x, n);
    StreamOffset(x, n, b);
    var a, t := GroupOf(p, o, n), k * n + b;
    GroupIsStream(a, k, n, b);
    var j := Swapped(t / 8);
    ByteOfGroup(p, o, n, j);
    assert Swapped((x * n + b) / 8) == o + j < |p|;
    StreamIs(a, t);
    StreamIs(p, x * n + b);
  }

  lemma StreamIs(p: seq<byte>, t: nat)
    requires Swapped(t / 8) < |p|
    ensures StreamBit(p, t) == Bit(p[Swapped(t / 8)], 7 - t % 8)
  {
    hide Bit, Swapped;
  }
}

/** Passes that rewrite the pixels of a frame, row by row (the loops over y of chdk-src/core/bendx.c). */
module PixelRows {
  import opened Arith
  import opened Bits
  import opened Frame
  import opened Packed
  import opened Pixels
  import opened Words

  // The frame b is m, but for the pixels of the row at p, which are vs.
  ghost predicate Repainted(m: seq<byte>, b: seq<byte>, p: nat, len: nat, npix: nat, n: depth, vs: seq<nat>) {
    && p + len <= |m| == |b| && b[..p] == m[..p] && b[p + len..] == m[p + len..]
    && Holds(m[p..p + len], npix, n) && Holds(b[p..p + len], npix, n)
    && PixelsOf(b[p..p + len], npix, n) == vs
    && Tail(b[p..p + len], npix, n) == Tail(m[p..p + len], npix, n)
  }

  lemma Painted(m: seq<byte>, b: seq<byte>, p: nat, len: nat, npix: nat, n: depth, vs: seq<nat>)
    requires Repainted(m, b, p, len, npix, n, vs)
    ensures p + len <= |b| && Holds(b[p..p + len], npix, n)
    ensures PixelsOf(b[p..p + len], npix, n) == vs && |vs| == npix
    ensures forall x | 0 <= x < npix :: vs[x] == Get(b[p..p + len], npix, x, n) < Pow2(n)
  {
  }

  lemma Repaint(m: seq<byte>, b: seq<byte>, p: nat, len: nat, npix: nat, n: depth, vs: seq<nat>, x: nat, v: nat)
    requires Repainted(m, b, p, len, npix, n, vs) && x < npix && v < Pow2(n)
    ensures |vs| == npix && p + len <= |b| && Holds(b[p..p + len], npix, n)
    ensures Repainted(m, b[..p] + Set(b[p..p + len], npix, x, v, n) + b[p + len..], p, len, npix, n, vs[x := v])
  {
    var q := Set(b[p..p + len], npix, x, v, n);
    SetPixels(b[p..p + len], npix, x, v, n);
    hide Set, PixelsOf, Tail, Holds, Pow2;
    Middle(b[..p], q, b[p + len..]);
  }

  lemma Middle(a: seq<byte>, b: seq<byte>, c: seq<byte>)
    ensures (a + b + c)[..|a|] == a && (a + b + c)[|a|..|a| + |b|] == b && (a + b + c)[|a| + |b|..] == c
  {
  }

  lemma Unpainted(m: seq<byte>, p: nat, len: nat, npix: nat, n: depth)
    requires p + len <= |m| && Holds(m[p..p + len], npix, n)
    ensures Repainted(m, m, p, len, npix, n, PixelsOf(m[p..p + len], npix, n))
  {
  }

  // Reads pixel x of the row that is being repainted.
  method ReadPixel(base: array<byte>, p: nat, len: nat, npix: nat, x: nat, n: depth, ghost m: seq<byte>, ghost vs: seq<nat>)
    returns (v: nat)
    requires Repainted(m, base[..], p, len, npix, n, vs) && x < npix
    ensures |vs| == npix && v == vs[x] < Pow2(n)
  {
    hide *;
    Painted(m, base[..], p, len, npix, n, vs);
    assert base[..][p..p + len] == base[p..p + len];
    v := GetPixel(base, p, len, npix, x, n);
  }

  method WritePixel(base: array<byte>, p: nat, len: nat, npix: nat, x: nat, v: nat, n: depth, ghost m: seq<byte>,
                    ghost vs: seq<nat>)
    requires Repainted(m, base[..], p, len, npix, n, vs) && x < npix && v < Pow2(n)
    modifies base
    ensures |vs| == npix && Repainted(m, base[..], p, len, npix, n, vs[x := v])
  {
    hide *;
    ghost var b := base[..];
    Repaint(m, b, p, len, npix, n, vs, x, v);
    assert b[p..p + len] == base[p..p + len];
    SetPixel(base, p, len, npix, x, v, n);
  }

  // ----- Frames -----

  // Whether a row of len bytes has room for so many pixels, in whole groups.
  predicate Fits(len: nat, npix: nat, n: depth) { npix % GroupPixels(n) == 0 && Offset(npix, n) <= len }

  // The whole groups of a row lie inside it, and leave out less than one.
  lemma WholePixelsFill(len: nat, rowpix: nat, n: depth)
    requires 8 * len >= rowpix * n
    ensures Fits(len, WholePixels(rowpix, n), n)
    ensures rowpix - GroupPixels(n) < WholePixels(rowpix, n) <= rowpix
  {
  }

  // The pixels of row y.
  function RowPixels(m: seq<byte>, y: nat, len: nat, rows: nat, npix: nat, n: depth): (vs: seq<nat>)
    requires IsFrame(m, len, rows) && y < rows && Fits(len, npix, n)
    ensures |vs| == npix && forall x | 0 <= x < npix :: vs[x] < Pow2(n)
  {
    PixelsOf(Row(m, y, len, rows), npix, n)
  }

  function RowTail(m: seq<byte>, y: nat, len: nat, rows: nat, npix: nat, n: depth): seq<byte>
    requires IsFrame(m, len, rows) && y < rows && Fits(len, npix, n)
  {
    Tail(Row(m, y, len, rows), npix, n)
  }

  // Row z has these pixels, and the tail it had in the frame m0.
  ghost predicate RowShows(m0: seq<byte>, m: seq<byte>, len: nat, rows: nat, npix: nat, n: depth, z: nat, vs: seq<nat>)
    requires IsFrame(m0, len, rows) && IsFrame(m, len, rows) && z < rows && Fits(len, npix, n)
  {
    RowPixels(m, z, len, rows, npix, n) == vs && RowTail(m, z, len, rows, npix, n) == RowTail(m0, z, len, rows, npix, n)
  }

  // Rows below y show what f says, the others are still those of the frame m0.
  ghost predicate PaintedUpTo(m0: seq<byte>, m: seq<byte>, len: nat, rows: nat, npix: nat, n: depth, y: nat,
                              f: nat -> seq<nat>) {
    && IsFrame(m0, len, rows) && IsFrame(m, len, rows) && Fits(len, npix, n)
    && forall z: nat | z < rows ::
         RowShows(m0, m, len, rows, npix, n, z, if z < y then f(z) else RowPixels(m0, z, len, rows, npix, n))
  }

  lemma NothingPainted(m0: seq<byte>, len: nat, rows: nat, npix: nat, n: depth, f: nat -> seq<nat>)
    requires IsFrame(m0, len, rows) && Fits(len, npix, n)
    ensures PaintedUpTo(m0, m0, len, rows, npix, n, 0, f)
  {
    hide RowPixels, RowTail;
  }

  lemma AllPainted(m0: seq<byte>, m: seq<byte>, len: nat, rows: nat, npix: nat, n: depth, f: nat -> seq<nat>)
    requires PaintedUpTo(m0, m, len, rows, npix, n, rows, f)
    ensures IsFrame(m0, len, rows) && IsFrame(m, len, rows) && Fits(len, npix, n)
    ensures forall z: nat | z < rows :: RowShows(m0, m, len, rows, npix, n, z, f(z))
  {
    hide RowShows;
    forall z: nat | z < rows ensures RowShows(m0, m, len, rows, npix, n, z, f(z)) {
    }
  }

  // Row z, not reached yet, can be repainted from its original pixels.
  lemma RowToPaint(m0: seq<byte>, m: seq<byte>, len: nat, rows: nat, npix: nat, n: depth, y: nat, f: nat -> seq<nat>, z: nat)
    requires PaintedUpTo(m0, m, len, rows, npix, n, y, f) && y <= z < rows
    ensures IsFrame(m0, len, rows) && IsFrame(m, len, rows) && Fits(len, npix, n)
    ensures Repainted(m, m, Start(z, len), len, npix, n, RowPixels(m0, z, len, rows, npix, n))
  {
    hide *;
    StillOriginal(m0, m, len, rows, npix, n, y, f, z);
    RowPixelsIs(m, z, len, rows, npix, n);
    Unpainted(m, Start(z, len), len, npix, n);
  }

  lemma StillOriginal(m0: seq<byte>, m: seq<byte>, len: nat, rows: nat, npix: nat, n: depth, y: nat, f: nat -> seq<nat>,
                      z: nat)
    requires PaintedUpTo(m0, m, len, rows, npix, n, y, f) && y <= z < rows
    ensures IsFrame(m0, len, rows) && IsFrame(m, len, rows) && Fits(len, npix, n)
    ensures RowPixels(m, z, len, rows, npix, n) == RowPixels(m0, z, len, rows, npix, n)
  {
    hide RowPixels, RowTail, IsFrame, Fits;
    assert RowShows(m0, m, len, rows, npix, n, z, if z < y then f(z) else RowPixels(m0, z, len, rows, npix, n));
  }

  lemma RowPixelsIs(m: seq<byte>, y: nat, len: nat, rows: nat, npix: nat, n: depth)
    requires IsFrame(m, len, rows) && y < rows && Fits(len, npix, n)
    ensures Start(y, len) + len <= |m| && Holds(m[Start(y, len)..Start(y, len) + len], npix, n)
    ensures RowPixels(m, y, len, rows, npix, n) == PixelsOf(m[Start(y, len)..Start(y, len) + len], npix, n)
  {
    RowIs(m, y, len, rows);
    hide PixelsOf, Row, Start;
  }

  lemma RowKept(m0: seq<byte>, m: seq<byte>, len: nat, rows: nat, npix: nat, n: depth, y: nat, f: nat -> seq<nat>)
    requires PaintedUpTo(m0, m, len, rows, npix, n, y, f) && y < rows
    requires f(y) == RowPixels(m0, y, len, rows, npix, n)
    ensures PaintedUpTo(m0, m, len, rows, npix, n, y + 1, f)
  {
    hide RowShows, RowPixels;
    var next := y + 1;
    forall z: nat | z < rows
      ensures RowShows(m0, m, len, rows, npix, n, z, if z < next then f(z) else RowPixels(m0, z, len, rows, npix, n))
    {
    }
  }

  lemma RowPainted(m0: seq<byte>, m: seq<byte>, b: seq<byte>, len: nat, rows: nat, npix: nat, n: depth, y: nat,
                   f: nat -> seq<nat>)
    requires PaintedUpTo(m0, m, len, rows, npix, n, y, f) && y < rows
    requires Repainted(m, b, Start(y, len), len, npix, n, f(y))
    ensures PaintedUpTo(m0, b, len, rows, npix, n, y + 1, f)
  {
    var next := y + 1;
    forall z: nat | z < rows
      ensures RowShows(m0, b, len, rows, npix, n, z, if z < next then f(z) else RowPixels(m0, z, len, rows, npix, n))
    {
      assert RowShows(m0, m, len, rows, npix, n, z, if z < y then f(z) else RowPixels(m0, z, len, rows, npix, n));
      hide PaintedUpTo;
      if z == y {
        PaintedRow(m0, m, b, len, rows, npix, n, y, f(y));
      } else {
        OtherRow(m, b, len, rows, npix, n, y, f(y), z);
      }
      hide RowPixels, RowTail;
    }
    hide RowShows;
  }

  lemma PaintedRow(m0: seq<byte>, m: seq<byte>, b: seq<byte>, len: nat, rows: nat, npix: nat, n: depth, y: nat, vs: seq<nat>)
    requires IsFrame(m0, len, rows) && IsFrame(m, len, rows) && IsFrame(b, len, rows) && y < rows && Fits(len, npix, n)
    requires RowTail(m, y, len, rows, npix, n) == RowTail(m0, y, len, rows, npix, n)
    requires Repainted(m, b, Start(y, len), len, npix, n, vs)
    ensures RowShows(m0, b, len, rows, npix, n, y, vs)
  {
    RowIs(m, y, len, rows);
    RowIs(b, y, len, rows);
    hide PixelsOf, Tail, Row;
  }

  lemma OtherRow(m: seq<byte>, b: seq<byte>, len: nat, rows: nat, npix: nat, n: depth, y: nat, vs: seq<nat>, z: nat)
    requires IsFrame(m, len, rows) && y < rows && z < rows && z != y
    requires Repainted(m, b, Start(y, len), len, npix, n, vs)
    ensures IsFrame(b, len, rows) && Row(b, z, len, rows) == Row(m, z, len, rows)
  {
    var p := Start(y, len);
    assert |b| == |m| && b[..p] == m[..p] && b[p + len..] == m[p + len..];
    RowBounds(z, y, len);
    RowBounds(y, z, len);
    hide Repainted;
    SameRow(m, b, p, len, rows, z);
  }

  lemma SameRow(m: seq<byte>, b: seq<byte>, p: nat, len: nat, rows: nat, z: nat)
    requires IsFrame(m, len, rows) && |b| == |m| && z < rows && p + len <= |m|
    requires b[..p] == m[..p] && b[p + len..] == m[p + len..]
    requires Start(z, len) + len <= p || p + len <= Start(z, len)
    ensures Row(b, z, len, rows) == Row(m, z, len, rows)
  {
    hide Row, Start;
    var s := Start(z, len);
    RowIs(m, z, len, rows);
    RowIs(b, z, len, rows);
    if s + len <= p {
      SliceOfSlice(b, 0, p, s, s + len);
      SliceOfSlice(m, 0, p, s, s + len);
    } else {
      var t := s - (p + len);
      SliceOfSlice(b, p + len, |b|, t, t + len);
      SliceOfSlice(m, p + len, |m|, t, t + len);
    }
  }
}

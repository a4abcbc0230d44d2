/** The demosaic on the wrong Bayer phase (chdk-src/core/bendx.c:219-225, 1104-1148). */
module Cfa {
  import opened Arith
  import opened Bits
  import opened Frame
  import opened Packed
  import opened PixelRows
  import opened Pixels
  import opened Words

  // The bit planes a pixel effect writes: the lanes are the top eight, and none chosen means all.
  function Planes(x: Profile, n: depth): (mask: nat)
    ensures mask < Pow2(n)
  {
    Widths();
    if x.lanes == 0 then Pow2(n) - 1 else x.lanes * Pow2(n - 8)
  }

  lemma PlanesAll(x: Profile, n: depth)
    requires x.lanes == 0
    ensures Planes(x, n) == Pow2(n) - 1
  {
  }

  function Across(x: Profile): nat { if x.amount == 0 && x.reach == 0 then 1 else x.amount }

  // The pixel dx to the right of pixel i, round the end of the row.
  function Round(i: nat, dx: nat, npix: nat): (k: nat)
    requires npix > 0
    ensures k < npix
  {
    (i + dx) % npix
  }

  function Shifted(old_: seq<nat>, src: seq<nat>, x: Profile, n: depth): (vs: seq<nat>)
    requires |old_| == |src|
    ensures |vs| == |old_|
  {
    seq(|old_|, i requires 0 <= i < |old_| => Merge(old_[i], src[Round(i, Across(x), |src|)], Planes(x, n), x.mix, n))
  }

  // Row y takes its pixels from the original row reach below it, amount to the right and round; the
  // bottom rows, which have none, keep theirs.
  ghost function CfaRow(m: seq<byte>, len: nat, rows: nat, npix: nat, n: depth, x: Profile, y: nat): (vs: seq<nat>)
    requires IsFrame(m, len, rows) && Fits(len, npix, n) && y < rows
    ensures |vs| == npix
  {
    var cur := RowPixels(m, y, len, rows, npix, n);
    if On(x, y) && y + x.reach < rows
    then Shifted(cur, RowPixels(m, y + x.reach, len, rows, npix, n), x, n)
    else cur
  }

  lemma ShiftedAt(old_: seq<nat>, src: seq<nat>, x: Profile, n: depth, i: nat)
    requires |old_| == |src| && i < |old_|
    ensures Shifted(old_, src, x, n)[i] == Merge(old_[i], src[Round(i, Across(x), |src|)], Planes(x, n), x.mix, n) < Pow2(n)
  {
    hide Merge, Planes;
  }

  // The first i pixels are those of r, the others are still those of vs.
  ghost function Partly(vs: seq<nat>, r: seq<nat>, i: nat): (cur: seq<nat>)
    requires i <= |vs| == |r|
    ensures |cur| == |vs|
  {
    r[..i] + vs[i..]
  }

  lemma PartlyNext(vs: seq<nat>, r: seq<nat>, i: nat)
    requires i < |vs| == |r|
    ensures Partly(vs, r, i)[i] == vs[i] && Partly(vs, r, i)[i := r[i]] == Partly(vs, r, i + 1)
  {
  }

  lemma PartlyEnds(vs: seq<nat>, r: seq<nat>)
    requires |vs| == |r|
    ensures Partly(vs, r, 0) == vs && Partly(vs, r, |r|) == r
  {
  }

  // Pixel i's turn.
  method ShiftPixel(base: array<byte>, p: nat, src: array<byte>, q: nat, len: nat, npix: nat, x: Profile, n: depth,
                    i: nat, ghost m: seq<byte>, ghost vs: seq<nat>, ghost ss: seq<nat>)
    requires q + len <= src.Length && (src == base ==> p + len <= q) && i < npix == |vs| == |ss|
    requires Repainted(m, base[..], p, len, npix, n, Partly(vs, Shifted(vs, ss, x, n), i))
    requires Holds(src[q..q + len], npix, n) && ss == PixelsOf(src[q..q + len], npix, n)
    modifies base
    ensures Repainted(m, base[..], p, len, npix, n, Partly(vs, Shifted(vs, ss, x, n), i + 1))
    ensures src[q..q + len] == old(src[q..q + len])
  {
    ghost var b, from, r := base[..], src[q..q + len], Shifted(vs, ss, x, n);
    ghost var cur := Partly(vs, r, i);
    var k, mask := Round(i, Across(x), npix), Planes(x, n);
    ShiftedAt(vs, ss, x, n, i);
    PartlyNext(vs, r, i);
    assert ss[k] == Get(from, npix, k, n);
    hide *;
    var v := GetPixel(src, q, len, npix, k, n);
    var o := ReadPixel(base, p, len, npix, i, n, m, cur);
    WritePixel(base, p, len, npix, i, Merge(o, v, mask, x.mix, n), n, m, cur);
    if src == base {
      SourceStays(m, b, p, len, npix, n, cur, q);
      SourceStays(m, base[..], p, len, npix, n, cur[i := r[i]], q);
      assert src[q..q + len] == base[..][q..q + len] && from == b[q..q + len];
    }
  }

  // Repaints the row at p from the pixels of the row at q of src, which is another row or a copy.
  method ShiftRow(base: array<byte>, p: nat, src: array<byte>, q: nat, len: nat, npix: nat, x: Profile, n: depth,
                  ghost vs: seq<nat>, ghost ss: seq<nat>)
    requires q + len <= src.Length && (src == base ==> p + len <= q) && npix == |vs| == |ss|
    requires Repainted(base[..], base[..], p, len, npix, n, vs)
    requires Holds(src[q..q + len], npix, n) && ss == PixelsOf(src[q..q + len], npix, n)
    modifies base
    ensures Repainted(old(base[..]), base[..], p, len, npix, n, Shifted(vs, ss, x, n))
  {
    hide *;
    ghost var m, from, r := base[..], src[q..q + len], Shifted(vs, ss, x, n);
    PartlyEnds(vs, r);
    for i := 0 to npix
      invariant Repainted(m, base[..], p, len, npix, n, Partly(vs, r, i))
      invariant src[q..q + len] == from
    {
      ShiftPixel(base, p, src, q, len, npix, x, n, i, m, vs, ss);
    }
  }

  // Repainting a row leaves those after it alone.
  lemma SourceStays(m: seq<byte>, b: seq<byte>, p: nat, len: nat, npix: nat, n: depth, vs: seq<nat>, q: nat)
    requires Repainted(m, b, p, len, npix, n, vs) && p + len <= q && q + len <= |m|
    ensures |b| == |m| && b[q..q + len] == m[q..q + len]
  {
    hide PixelsOf, Tail, Holds;
    forall i | q <= i < q + len ensures b[i] == m[i] {
      assert b[p + len..][i - (p + len)] == m[p + len..][i - (p + len)];
    }
  }

  ghost function CfaMap(m: seq<byte>, len: nat, rows: nat, npix: nat, n: depth, x: Profile): nat -> seq<nat>
    requires IsFrame(m, len, rows) && Fits(len, npix, n)
  {
    (y: nat) => if y < rows then CfaRow(m, len, rows, npix, n, x, y) else []
  }

  lemma CfaMapAt(m: seq<byte>, len: nat, rows: nat, npix: nat, n: depth, x: Profile, y: nat)
    requires IsFrame(m, len, rows) && Fits(len, npix, n) && y < rows
    ensures var cur, f := RowPixels(m, y, len, rows, npix, n), CfaMap(m, len, rows, npix, n, x);
      && f(y) == CfaRow(m, len, rows, npix, n, x, y)
      && (!On(x, y) || y + x.reach >= rows ==> f(y) == cur)
      && (On(x, y) && y + x.reach < rows ==> f(y) == Shifted(cur, RowPixels(m, y + x.reach, len, rows, npix, n), x, n))
  {
    hide RowPixels, Shifted;
  }

  lemma SourceRow(m0: seq<byte>, m: seq<byte>, len: nat, rows: nat, npix: nat, n: depth, y: nat, f: nat -> seq<nat>, z: nat)
    requires PaintedUpTo(m0, m, len, rows, npix, n, y, f) && y <= z < rows
    ensures IsFrame(m0, len, rows) && Fits(len, npix, n)
    ensures Start(z, len) + len <= |m| && Holds(m[Start(z, len)..Start(z, len) + len], npix, n)
    ensures PixelsOf(m[Start(z, len)..Start(z, len) + len], npix, n) == RowPixels(m0, z, len, rows, npix, n)
  {
    RowToPaint(m0, m, len, rows, npix, n, y, f, z);
    hide PaintedUpTo, RowPixels, Get;
  }

  // Row y takes its pixels from row sy.
  method CfaFrom(base: array<byte>, len: nat, rows: nat, npix: nat, n: depth, x: Profile, s0: array<byte>, y: nat,
                 ghost vs: seq<nat>, ghost ss: seq<nat>)
    requires base != s0 && len <= s0.Length && y + x.reach < rows && npix == |vs| == |ss|
    requires IsFrame(base[..], len, rows)
    requires Repainted(base[..], base[..], Start(y, len), len, npix, n, vs)
    requires Start(y + x.reach, len) + len <= base.Length
    requires Holds(base[..][Start(y + x.reach, len)..Start(y + x.reach, len) + len], npix, n)
    requires ss == PixelsOf(base[..][Start(y + x.reach, len)..Start(y + x.reach, len) + len], npix, n)
    modifies base, s0
    ensures Repainted(old(base[..]), base[..], Start(y, len), len, npix, n, Shifted(vs, ss, x, n))
  {
    hide *;
    var p, q := Start(y, len), Start(y + x.reach, len);
    assert base[q..q + len] == base[..][q..q + len];
    if x.reach == 0 {
      CopyRow(base, p, s0, len);
      assert s0[0..len] == s0[..len];
      ShiftRow(base, p, s0, 0, len, npix, x, n, vs, ss);
    } else {
      RowBounds(y, y + x.reach, len);
      ShiftRow(base, p, base, q, len, npix, x, n, vs, ss);
    }
  }

  // The pixels row y has, and those it is given.
  lemma CfaReady(m0: seq<byte>, m: seq<byte>, len: nat, rows: nat, npix: nat, n: depth, x: Profile, y: nat,
                 f: nat -> seq<nat>) returns (vs: seq<nat>, ss: seq<nat>)
    requires IsFrame(m0, len, rows) && Fits(len, npix, n) && f == CfaMap(m0, len, rows, npix, n, x)
    requires PaintedUpTo(m0, m, len, rows, npix, n, y, f)
    requires y < rows && On(x, y) && y + x.reach < rows
    ensures IsFrame(m, len, rows) && npix == |vs| == |ss| && f(y) == Shifted(vs, ss, x, n)
    ensures Repainted(m, m, Start(y, len), len, npix, n, vs)
    ensures Start(y + x.reach, len) + len <= |m|
    ensures Holds(m[Start(y + x.reach, len)..Start(y + x.reach, len) + len], npix, n)
    ensures ss == PixelsOf(m[Start(y + x.reach, len)..Start(y + x.reach, len) + len], npix, n)
  {
    hide *;
    var sy := y + x.reach;
    CfaMapAt(m0, len, rows, npix, n, x, y);
    vs, ss := RowPixels(m0, y, len, rows, npix, n), RowPixels(m0, sy, len, rows, npix, n);
    RowToPaint(m0, m, len, rows, npix, n, y, f, y);
    SourceRow(m0, m, len, rows, npix, n, y, f, sy);
  }

  method CfaTurn(base: array<byte>, len: nat, rows: nat, npix: nat, n: depth, x: Profile, s0: array<byte>, y: nat,
                 ghost m0: seq<byte>, ghost f: nat -> seq<nat>)
    requires base != s0 && len <= s0.Length && y < rows
    requires IsFrame(m0, len, rows) && Fits(len, npix, n) && f == CfaMap(m0, len, rows, npix, n, x)
    requires PaintedUpTo(m0, base[..], len, rows, npix, n, y, f)
    modifies base, s0
    ensures PaintedUpTo(m0, base[..], len, rows, npix, n, y + 1, f)
  {
    hide *;
    ghost var m := base[..];
    if !On(x, y) || y + x.reach >= rows {
      CfaMapAt(m0, len, rows, npix, n, x, y);
      RowKept(m0, m, len, rows, npix, n, y, f);
      return;
    }
    ghost var vs, ss := CfaReady(m0, m, len, rows, npix, n, x, y, f);
    CfaFrom(base, len, rows, npix, n, x, s0, y, vs, ss);
    RowPainted(m0, m, base[..], len, rows, npix, n, y, f);
  }

  method Cfa(base: array<byte>, len: nat, rows: nat, rowpix: nat, n: depth, x: Profile, s0: array<byte>)
    requires base != s0 && len <= s0.Length && IsFrame(base[..], len, rows) && 8 * len >= rowpix * n
    modifies base, s0
    ensures IsFrame(base[..], len, rows) && Fits(len, WholePixels(rowpix, n), n)
    ensures forall y: nat | y < rows ::
              RowShows(old(base[..]), base[..], len, rows, WholePixels(rowpix, n), n, y,
                       CfaRow(old(base[..]), len, rows, WholePixels(rowpix, n), n, x, y))
  {
    ghost var m0 := base[..];
    var npix := WholePixels(rowpix, n);
    WholePixelsFill(len, rowpix, n);
    ghost var f := CfaMap(m0, len, rows, npix, n, x);
    NothingPainted(m0, len, rows, npix, n, f);
    if npix == 0 {
      NoPixels(m0, len, rows, n, x);
      return;
    }
    hide *;
    for y := 0 to rows
      invariant PaintedUpTo(m0, base[..], len, rows, npix, n, y, f)
    {
      CfaTurn(base, len, rows, npix, n, x, s0, y, m0, f);
    }
    AllPainted(m0, base[..], len, rows, npix, n, f);
    forall y: nat | y < rows
      ensures RowShows(m0, base[..], len, rows, npix, n, y, CfaRow(m0, len, rows, npix, n, x, y))
    {
      CfaMapAt(m0, len, rows, npix, n, x, y);
    }
  }

  lemma NoPixels(m: seq<byte>, len: nat, rows: nat, n: depth, x: Profile)
    requires IsFrame(m, len, rows) && Fits(len, 0, n)
    ensures forall y: nat | y < rows :: RowShows(m, m, len, rows, 0, n, y, CfaRow(m, len, rows, 0, n, x, y))
  {
    forall y: nat | y < rows ensures RowShows(m, m, len, rows, 0, n, y, CfaRow(m, len, rows, 0, n, x, y)) {
      assert CfaRow(m, len, rows, 0, n, x, y) == [] == RowPixels(m, y, len, rows, 0, n);
    }
  }

  // Bit b of the mask: every plane when no lane is chosen, else the lanes in the top eight planes.
  lemma PlanesBit(x: Profile, n: depth, b: nat)
    requires b < n
    ensures Bit(Planes(x, n), b) == if x.lanes == 0 then true else b >= n - 8 && Bit(x.lanes, b - (n - 8))
  {
    hide Bit;
    BitOfOnes(n, b);
    if x.lanes != 0 {
      Pow2Positive(n - 8);
      BitOfSum(x.lanes, 0, n - 8, b);
      NoBitOfZero(b);
    }
  }

  lemma Pow2Positive(s: nat)
    ensures 0 < Pow2(s)
  {
  }

  // In a band and with a source, pixel i of row y is merged with pixel i + amount of the original row
  // y + reach, round the end of the row; by one pixel when both knobs are zero.  All other pixels stay.
  lemma CfaInBand(m: seq<byte>, len: nat, rows: nat, npix: nat, n: depth, x: Profile, y: nat, i: nat)
    requires IsFrame(m, len, rows) && Fits(len, npix, n) && y < rows && i < npix
    ensures var cur := RowPixels(m, y, len, rows, npix, n);
      var dx := if x.amount == 0 && x.reach == 0 then 1 else x.amount;
      CfaRow(m, len, rows, npix, n, x, y)[i] ==
      if InBand(x.rowmod, y) && y + x.reach < rows
      then Merge(cur[i], RowPixels(m, y + x.reach, len, rows, npix, n)[(i + dx) % npix], Planes(x, n), x.mix, n)
      else cur[i]
  {
    OnIsBand(x, y);
    hide On, InBand, RowPixels, Merge, Planes;
  }

  // With Replace on all planes the rows that are on are the original ones, moved.
  lemma CfaMovesRows(m: seq<byte>, len: nat, rows: nat, npix: nat, n: depth, x: Profile, y: nat, i: nat)
    requires IsFrame(m, len, rows) && Fits(len, npix, n) && y < rows && i < npix
    requires InBand(x.rowmod, y) && y + x.reach < rows && x.lanes == 0 && x.mix == Replace
    ensures var dx := if x.amount == 0 && x.reach == 0 then 1 else x.amount;
      CfaRow(m, len, rows, npix, n, x, y)[i] == RowPixels(m, y + x.reach, len, rows, npix, n)[(i + dx) % npix]
  {
    OnIsBand(x, y);
    hide On, InBand, RowPixels, Merge, Planes, CfaRow, CfaMap, Shifted;
    var cur, src := RowPixels(m, y, len, rows, npix, n), RowPixels(m, y + x.reach, len, rows, npix, n);
    CfaMapAt(m, len, rows, npix, n, x, y);
    PlanesAll(x, n);
    ShiftedAt(cur, src, x, n, i);
    MergeReplaces(cur[i], src[Round(i, Across(x), npix)], n);
  }
}

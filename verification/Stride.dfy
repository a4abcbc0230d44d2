/** A mis-programmed DMA stride (chdk-src/core/bendx.c:827-865): row y is fetched from d*y bytes further
    into the frame, round the end of it if need be, while the rows are being rewritten. */
module Stride {
  import opened Arith
  import opened Frame
  import opened Words

  function Excess(x: Profile): nat { x.amount + 1 + x.reach * 64 }

  // Where row y is fetched from.
  function Source(y: nat, len: nat, d: nat, total: nat): (s: nat)
    requires total > 0
    ensures s < total
  {
    RemainderBound(Start(y, len + d), total);
    Start(y, len + d) % total
  }

  // The i-th byte from src on, round the end of the frame.
  function Around(src: nat, i: nat, total: nat): nat
    requires src < total && i <= total
  {
    if src + i < total then src + i else src + i - total
  }

  function Fetched(m: seq<byte>, src: nat, len: nat): (r: seq<byte>)
    requires src < |m| && len <= |m|
    ensures |r| == len
  {
    seq(len, i requires 0 <= i < len => m[Around(src, i, |m|)])
  }

  method FetchRow(base: array<byte>, src: nat, s0: array<byte>, len: nat)
    requires base != s0 && src < base.Length && len <= base.Length && len <= s0.Length
    modifies s0
    ensures s0[..len] == Fetched(base[..], src, len)
  {
    var total := base.Length;
    if src + len <= total {
      for i := 0 to len
        invariant forall k | 0 <= k < i :: s0[k] == base[Around(src, k, total)]
      {
        s0[i] := base[src + i];
      }
    } else {
      var head := total - src;
      for i := 0 to head
        invariant forall k | 0 <= k < i :: s0[k] == base[Around(src, k, total)]
      {
        s0[i] := base[src + i];
      }
      for i := head to len
        invariant forall k | 0 <= k < i :: s0[k] == base[Around(src, k, total)]
      {
        s0[i] := base[i - head];
      }
    }
  }

  // The bent byte i of row y: the byte it is merged with is the original one, unless the pass has been
  // there already, in which case it is the one the pass left.
  ghost predicate BentByte(m0: seq<byte>, m: seq<byte>, len: nat, rows: nat, x: Profile, y: nat, i: nat)
    requires IsFrame(m0, len, rows) && IsFrame(m, len, rows) && y < rows && i < len
  {
    RowBounds(y, rows, len);
    var g := Start(y, len) + i;
    var h := Around(Source(y, len, Excess(x), |m|), i, |m|);
    m[g] == if On(x, y) then MergeByte(m0[g], if h < Start(y, len) then m[h] else m0[h], Lanes(x), x.mix) else m0[g]
  }

  // Row z of the frame is as it should be after rows below y have been bent.
  ghost predicate RowBent(m0: seq<byte>, m: seq<byte>, len: nat, rows: nat, x: Profile, y: nat, z: nat)
    requires IsFrame(m0, len, rows) && IsFrame(m, len, rows) && z < rows
  {
    if z < y then forall i: nat | i < len :: BentByte(m0, m, len, rows, x, z, i)
    else Row(m, z, len, rows) == Row(m0, z, len, rows)
  }

  ghost predicate Bent(m0: seq<byte>, m: seq<byte>, len: nat, rows: nat, x: Profile, y: nat) {
    && IsFrame(m0, len, rows) && IsFrame(m, len, rows)
    && forall z: nat | z < rows :: RowBent(m0, m, len, rows, x, y, z)
  }

  // Bytes from row y on are the original ones.
  lemma Unbent(m0: seq<byte>, m: seq<byte>, len: nat, rows: nat, x: Profile, y: nat, h: nat)
    requires Bent(m0, m, len, rows, x, y) && Start(y, len) <= h < |m| && len > 0
    ensures |m| == |m0| && m[h] == m0[h]
  {
    var z, k := h / len, h % len;
    RemainderBound(h, len);
    DivMod(h, len);
    assert h == Start(z, len) + k;
    if z < y { RowBounds(z, y, len); assert false; }
    if z >= rows {
      RowBounds(rows, z, len);
      assert false;
    }
    assert RowBent(m0, m, len, rows, x, y, z);
    RowIs(m, z, len, rows);
    RowIs(m0, z, len, rows);
    assert Row(m, z, len, rows)[k] == m[h] && Row(m0, z, len, rows)[k] == m0[h];
  }

  // What row y is replaced with.
  ghost function NewRow(m: seq<byte>, len: nat, rows: nat, x: Profile, y: nat): (r: seq<byte>)
    requires IsFrame(m, len, rows) && y < rows && len > 0
    ensures |r| == len
  {
    RowBounds(y, rows, len);
    if On(x, y) then Blend(Row(m, y, len, rows), Fetched(m, Source(y, len, Excess(x), |m|), len), x)
    else Row(m, y, len, rows)
  }

  // A byte of the new row.
  lemma NewRowByte(m: seq<byte>, len: nat, rows: nat, x: Profile, y: nat, i: nat)
    requires IsFrame(m, len, rows) && y < rows && i < len
    ensures |m| > 0 && Start(y, len) + i < |m|
    ensures var g, h := Start(y, len) + i, Around(Source(y, len, Excess(x), |m|), i, |m|);
      h < |m| && NewRow(m, len, rows, x, y)[i] == if On(x, y) then MergeByte(m[g], m[h], Lanes(x), x.mix) else m[g]
  {
    RowBounds(y, rows, len);
    RowByte(m, len, rows, y, i);
    hide Source, MergeByte, On, Row, Lanes, Start;
  }

  lemma NewByte(m0: seq<byte>, m: seq<byte>, m': seq<byte>, len: nat, rows: nat, x: Profile, y: nat, i: nat)
    requires Bent(m0, m, len, rows, x, y) && y < rows && i < len
    requires m' == WithRow(m, y, len, rows, NewRow(m, len, rows, x, y))
    ensures BentByte(m0, m', len, rows, x, y, i)
  {
    hide Source, Around, MergeByte, On, Row, Lanes, NewRow, WithRow, RowBent, Start;
    RowBounds(y, rows, len);
    NewRowByte(m, len, rows, x, y, i);
    var g, h := Start(y, len) + i, Around(Source(y, len, Excess(x), |m|), i, |m|);
    var r := NewRow(m, len, rows, x, y);
    Unbent(m0, m, len, rows, x, y, g);
    WithRowByte(m, y, len, rows, r, g);
    WithRowByte(m, y, len, rows, r, h);
    if h >= Start(y, len) { Unbent(m0, m, len, rows, x, y, h); }
  }

  lemma OldByte(m0: seq<byte>, m: seq<byte>, m': seq<byte>, len: nat, rows: nat, x: Profile, y: nat, r: seq<byte>, z: nat, i: nat)
    requires IsFrame(m0, len, rows) && IsFrame(m, len, rows) && z < y < rows && i < len && |r| == len
    requires BentByte(m0, m, len, rows, x, z, i) && m' == WithRow(m, y, len, rows, r)
    ensures BentByte(m0, m', len, rows, x, z, i)
  {
    RowBounds(y, rows, len);
    RowBounds(z, y, len);
    hide MergeByte, On, Around;
  }

  lemma RowStays(m0: seq<byte>, m: seq<byte>, m': seq<byte>, len: nat, rows: nat, x: Profile, y: nat, z: nat)
    requires Bent(m0, m, len, rows, x, y) && y < rows && z < rows && len > 0
    requires m' == WithRow(m, y, len, rows, NewRow(m, len, rows, x, y))
    ensures RowBent(m0, m', len, rows, x, y + 1, z)
  {
    var r := NewRow(m, len, rows, x, y);
    assert RowBent(m0, m, len, rows, x, y, z);
    hide BentByte, WithRow, NewRow, Bent, Row;
    if z == y {
      forall i: nat | i < len ensures BentByte(m0, m', len, rows, x, z, i) {
        NewByte(m0, m, m', len, rows, x, y, i);
      }
    } else if z < y {
      forall i: nat | i < len ensures BentByte(m0, m', len, rows, x, z, i) {
        OldByte(m0, m, m', len, rows, x, y, r, z, i);
      }
    } else {
      RowOfWithRow(m, y, len, rows, r, z);
    }
  }

  lemma Turn(m0: seq<byte>, m: seq<byte>, m': seq<byte>, len: nat, rows: nat, x: Profile, y: nat)
    requires Bent(m0, m, len, rows, x, y) && y < rows && len > 0
    requires m' == WithRow(m, y, len, rows, NewRow(m, len, rows, x, y))
    ensures Bent(m0, m', len, rows, x, y + 1)
  {
    var next := y + 1;
    hide RowBent, NewRow, WithRow;
    forall z: nat | z < rows ensures RowBent(m0, m', len, rows, x, next, z) {
      RowStays(m0, m, m', len, rows, x, y, z);
    }
  }

  lemma SameRow(m: seq<byte>, len: nat, rows: nat, y: nat)
    requires IsFrame(m, len, rows) && y < rows
    ensures WithRow(m, y, len, rows, Row(m, y, len, rows)) == m
  {
    RowBounds(y, rows, len);
  }

  // Row y's turn.
  method StrideTurn(base: array<byte>, len: nat, rows: nat, x: Profile, y: nat, s0: array<byte>)
    requires base != s0 && len <= s0.Length && IsFrame(base[..], len, rows) && y < rows && len > 0
    modifies base, s0
    ensures base[..] == WithRow(old(base[..]), y, len, rows, NewRow(old(base[..]), len, rows, x, y))
  {
    ghost var m := base[..];
    RowBounds(y, rows, len);
    var src := Source(y, len, Excess(x), base.Length);
    ghost var r := NewRow(m, len, rows, x, y);
    RowIs(m, y, len, rows);
    WithRowIs(m, y, len, rows, r);
    SameRow(m, len, rows, y);
    if !On(x, y) { return; }
    hide *;
    FetchRow(base, src, s0, len);
    BlendRow(base, Start(y, len), s0, len, x);
  }

  lemma NothingToBend(rows: nat, len: nat)
    requires Start(rows, len) == 0
    ensures rows == 0 || len == 0
  {
    if rows > 0 { MulAtLeast(len, rows); }
  }

  method Stride(base: array<byte>, len: nat, rows: nat, x: Profile, s0: array<byte>)
    requires base != s0 && len <= s0.Length && IsFrame(base[..], len, rows)
    modifies base, s0
    ensures IsFrame(base[..], len, rows)
    ensures forall y: nat, i: nat | y < rows && i < len :: BentByte(old(base[..]), base[..], len, rows, x, y, i)
  {
    ghost var m0 := base[..];
    var total := base.Length;
    if total == 0 {
      NothingToBend(rows, len);
      return;
    }
    assert len > 0;
    hide *;
    BentAtFirst(m0, len, rows, x);
    for y := 0 to rows
      invariant Bent(m0, base[..], len, rows, x, y)
    {
      ghost var m := base[..];
      BentFrames(m0, m, len, rows, x, y);
      StrideTurn(base, len, rows, x, y, s0);
      Turn(m0, m, base[..], len, rows, x, y);
    }
    AllBent(m0, base[..], len, rows, x);
  }

  lemma BentAtFirst(m0: seq<byte>, len: nat, rows: nat, x: Profile)
    requires IsFrame(m0, len, rows)
    ensures Bent(m0, m0, len, rows, x, 0)
  {
  }

  lemma BentFrames(m0: seq<byte>, m: seq<byte>, len: nat, rows: nat, x: Profile, y: nat)
    requires Bent(m0, m, len, rows, x, y)
    ensures IsFrame(m, len, rows)
  {
  }

  lemma AllBent(m0: seq<byte>, m: seq<byte>, len: nat, rows: nat, x: Profile)
    requires Bent(m0, m, len, rows, x, rows)
    ensures IsFrame(m0, len, rows) && IsFrame(m, len, rows)
    ensures forall y: nat, i: nat | y < rows && i < len :: BentByte(m0, m, len, rows, x, y, i)
  {
    hide BentByte;
    forall y: nat, i: nat | y < rows && i < len ensures BentByte(m0, m, len, rows, x, y, i) {
      assert RowBent(m0, m, len, rows, x, rows, y);
    }
  }

  // Every byte fetched from before the wrap is the original one, d*y bytes out of place.
  lemma SourceIsOriginal(m0: seq<byte>, m: seq<byte>, len: nat, rows: nat, x: Profile, y: nat, i: nat)
    requires IsFrame(m0, len, rows) && IsFrame(m, len, rows) && y < rows && i < len
    requires BentByte(m0, m, len, rows, x, y, i)
    requires y * (len + x.amount + 1 + 64 * x.reach) + i < |m|
    ensures y * len + i < |m|
    ensures var g, h := y * len + i, y * (len + x.amount + 1 + 64 * x.reach) + i;
      m[g] == if InBand(x.rowmod, y) then MergeByte(m0[g], m0[h], Lanes(x), x.mix) else m0[g]
  {
    OnIsBand(x, y);
    var d := Excess(x);
    assert len + d == len + x.amount + 1 + 64 * x.reach;
    assert Start(y, len) == y * len && Start(y, len + d) == y * (len + x.amount + 1 + 64 * x.reach);
    RowBounds(y, rows, len);
    Distribute(y, len, d);
    MulMonotone(0, d, y);
    QuotientIs(Start(y, len + d), |m|, 0, Start(y, len + d));
    assert Source(y, len, d, |m|) == Start(y, len + d) >= Start(y, len);
    hide MergeByte, On, InBand, Start, Source, Excess;
  }

  // Past the wrap, a row in a band is fetched from that place modulo the length of the frame; a row in no
  // band stays wherever its source would be.
  lemma SourceWraps(m0: seq<byte>, m: seq<byte>, len: nat, rows: nat, x: Profile, y: nat, i: nat)
    requires IsFrame(m0, len, rows) && IsFrame(m, len, rows) && y < rows && i < len
    requires BentByte(m0, m, len, rows, x, y, i)
    ensures y * len + i < |m|
    ensures var g, h := y * len + i, (y * (len + x.amount + 1 + 64 * x.reach) + i) % |m|;
      m[g] == if InBand(x.rowmod, y) then MergeByte(m0[g], if h < y * len then m[h] else m0[h], Lanes(x), x.mix) else m0[g]
  {
    OnIsBand(x, y);
    RowBounds(y, rows, len);
    var t, s := Start(y, len + Excess(x)), Source(y, len, Excess(x), |m|);
    assert Start(y, len) == y * len && t == y * (len + x.amount + 1 + 64 * x.reach);
    RemainderBound(t, |m|);
    DivMod(t, |m|);
    var h := Around(s, i, |m|);
    NextMultiple(t / |m|, |m|);
    QuotientIs(t + i, |m|, if s + i < |m| then t / |m| else t / |m| + 1, h);
    hide MergeByte, On, InBand, Start, Source, Excess;
  }

  // The condition leaves no choice: only one frame meets it.
  lemma {:induction false} BentIsUnique(m0: seq<byte>, a: seq<byte>, b: seq<byte>, len: nat, rows: nat, x: Profile, y: nat)
    requires IsFrame(m0, len, rows) && IsFrame(a, len, rows) && IsFrame(b, len, rows) && y <= rows
    requires forall z: nat, i: nat | z < rows && i < len :: BentByte(m0, a, len, rows, x, z, i) && BentByte(m0, b, len, rows, x, z, i)
    ensures Start(y, len) <= |a| == |b| && SameUpTo(a, b, Start(y, len))
  {
    if y == 0 {
      RowBounds(0, rows, len);
    } else {
      BentIsUnique(m0, a, b, len, rows, x, y - 1);
      RowBounds(y - 1, rows, len);
      var p := Start(y - 1, len);
      forall g | p <= g < p + len ensures a[g] == b[g] {
        assert BentByte(m0, a, len, rows, x, y - 1, g - p) && BentByte(m0, b, len, rows, x, y - 1, g - p);
        SameByte(m0, a, b, len, rows, x, y - 1, g - p);
      }
    }
  }

  predicate SameUpTo(a: seq<byte>, b: seq<byte>, n: nat)
    requires n <= |a| == |b|
  {
    forall g | 0 <= g < n :: a[g] == b[g]
  }

  lemma SameByte(m0: seq<byte>, a: seq<byte>, b: seq<byte>, len: nat, rows: nat, x: Profile, y: nat, i: nat)
    requires IsFrame(m0, len, rows) && IsFrame(a, len, rows) && IsFrame(b, len, rows) && y < rows && i < len
    requires BentByte(m0, a, len, rows, x, y, i) && BentByte(m0, b, len, rows, x, y, i)
    requires Start(y, len) <= |a| == |b| && SameUpTo(a, b, Start(y, len))
    ensures Start(y, len) + i < |a| && a[Start(y, len) + i] == b[Start(y, len) + i]
  {
    RowBounds(y, rows, len);
  }

  // Three rows of one byte, one byte of excess: row 2 wraps round to row 1, which has been bent already, and
  // gets the byte of row 2 back instead of that of row 1.
  lemma StrideExample(m: seq<byte>)
    requires IsFrame([1, 2, 3], 1, 3) && IsFrame(m, 1, 3)
    requires forall y: nat, i: nat | y < 3 && i < 1 :: BentByte([1, 2, 3], m, 1, 3, Profile(0, 0, 0, Replace, 0), y, i)
    ensures |m| == 3 && Source(2, 1, 1, 3) == 1 && m == [1, 3, 3]
  {
    hide *;
    FrameOfThree(m);
    OneByte(m, 0, 0);
    OneByte(m, 1, 2);
    OneByte(m, 2, 1);
  }

  lemma FrameOfThree(m: seq<byte>)
    requires IsFrame(m, 1, 3)
    ensures |m| == 3
    ensures Source(0, 1, 1, 3) == 0 && Source(1, 1, 1, 3) == 2 && Source(2, 1, 1, 3) == 1
  {
    assert Start(1, 2) == 2 && Start(2, 2) == 4;
  }

  lemma OneByte(m: seq<byte>, y: nat, h: nat)
    requires IsFrame([1, 2, 3], 1, 3) && IsFrame(m, 1, 3) && |m| == 3 && y < 3 && h < 3
    requires BentByte([1, 2, 3], m, 1, 3, Profile(0, 0, 0, Replace, 0), y, 0) && Source(y, 1, 1, 3) == h
    ensures m[y] == if h < y then m[h] else [1, 2, 3][h]
  {
    var m0: seq<byte> := [1, 2, 3];
    assert Start(y, 1) == y;
    ByteReplaced(m0[y], if h < y then m[h] else m0[h]);
    hide Source, MergeByte, IsFrame, Start;
  }

  lemma ByteReplaced(o: byte, w: byte)
    ensures MergeByte(o, w, 0xff, Replace) == w
  {
    ByteWidth();
    MergeReplaces(o, w, 8);
  }
}

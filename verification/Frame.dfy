/** Frame-buffer rows, and how an effect's output is merged back into them
    (chdk-src/core/bendx.c:171-235, 647-652). */
module Frame {
  import opened Arith
  import opened Bits
  import opened Words

  datatype Mix = Replace | MixXor | MixOr | MixAnd

  // The knobs of a profile.
  datatype Profile = Profile(amount: byte, reach: byte, lanes: byte, mix: Mix, rowmod: byte)

  function Lanes(x: Profile): byte { if x.lanes != 0 then x.lanes else 0xff }

  // Row banding: on for rowmod rows, off for rowmod rows.
  function On(x: Profile, y: nat): bool {
    if x.rowmod < 2 then true else y % (x.rowmod * 2) < x.rowmod
  }

  // Rows come in bands of rowmod, every other one of which is treated, the first one first; a rowmod of 0 or
  // 1 leaves no row out.
  predicate InBand(rowmod: nat, y: nat) { rowmod < 2 || y / rowmod % 2 == 0 }

  lemma OnIsBand(x: Profile, y: nat)
    ensures On(x, y) == InBand(x.rowmod, y)
  {
    if x.rowmod >= 2 { HalfOfTwice(y, x.rowmod); }
  }

  // The lower half of twice the length is an even number of lengths.
  lemma HalfOfTwice(y: nat, r: nat)
    requires r > 0
    ensures (y % (r * 2) < r) == (y / r % 2 == 0)
  {
    var q, t := y / r, y % r;
    DivMod(y, r);
    var a, b := q / 2, q % 2;
    TwiceTimes(a, b, r);
    QuotientIs(y, r * 2, a, if b == 0 then t else r + t);
  }

  lemma TwiceTimes(a: int, b: int, r: int)
    requires b == 0 || b == 1
    ensures (2 * a + b) * r == a * (r * 2) + (if b == 0 then 0 else r)
  {
  }

  // The first band is on, and a band further on it is the other way round.
  lemma BandsAlternate(x: Profile, y: nat)
    requires x.rowmod >= 2
    ensures y < x.rowmod ==> On(x, y)
    ensures On(x, y + x.rowmod) == !On(x, y)
  {
    hide On;
    OnIsBand(x, y);
    OnIsBand(x, y + x.rowmod);
    OneBandOn(y, x.rowmod);
  }

  lemma OneBandOn(y: nat, r: nat)
    requires r > 0
    ensures (y + r) / r == y / r + 1 && (y < r ==> y / r == 0) && y / r >= 0
  {
    DivMod(y, r);
    RemainderBound(y, r);
    NextMultiple(y / r, r);
    QuotientIs(y + r, r, y / r + 1, y % r);
    if y < r { QuotientIs(y, r, 0, y); }
  }

  // ----- Merging -----

  function Mixed(old_: nat, nw: nat, mix: Mix, n: nat): nat {
    match mix
    case MixXor => Xor(old_, nw, n)
    case MixOr => Or(old_, nw, n)
    case MixAnd => And(old_, nw, n)
    case Replace => nw
  }

  // The lines in the mask take the mixed value, the others keep the old one.
  function Merge(old_: nat, nw: nat, mask: nat, mix: Mix, n: nat): (r: nat)
    ensures r < Pow2(n)
  {
    Or(AndNot(old_, mask, n), And(Mixed(old_, nw, mix, n), mask, n), n)
  }

  function MixBit(o: bool, w: bool, mix: Mix): bool {
    match mix
    case MixXor => o != w
    case MixOr => o || w
    case MixAnd => o && w
    case Replace => w
  }

  lemma MergeBit(old_: nat, nw: nat, mask: nat, mix: Mix, n: nat, i: nat)
    requires i < n
    ensures Bit(Merge(old_, nw, mask, mix, n), i)
         == if Bit(mask, i) then MixBit(Bit(old_, i), Bit(nw, i), mix) else Bit(old_, i)
  {
    hide Bit, And, Or, Xor, AndNot;
    BitOfOps(old_, nw, n, i);
    BitOfOps(old_, mask, n, i);
    BitOfOps(Mixed(old_, nw, mix, n), mask, n, i);
    BitOfOps(AndNot(old_, mask, n), And(Mixed(old_, nw, mix, n), mask, n), n, i);
  }

  // Replace on every line writes the new value.
  lemma MergeReplaces(old_: nat, nw: nat, n: nat)
    requires nw < Pow2(n)
    ensures Merge(old_, nw, Pow2(n) - 1, Replace, n) == nw
  {
    hide Bit, Merge, Pow2;
    forall i: nat | i < n ensures Bit(Merge(old_, nw, Pow2(n) - 1, Replace, n), i) == Bit(nw, i) {
      MergeBit(old_, nw, Pow2(n) - 1, Replace, n, i);
      BitOfOnes(n, i);
    }
    SameBits(Merge(old_, nw, Pow2(n) - 1, Replace, n), nw, n);
  }

  lemma ByteWidth()
    ensures Pow2(8) == 0x100
  {
    assert Pow2(4) == 16;
  }

  function MergeByte(old_: byte, nw: byte, lanes: byte, mix: Mix): byte {
    ByteWidth();
    Merge(old_, nw, lanes, mix, 8)
  }

  function Blend(row: seq<byte>, nw: seq<byte>, x: Profile): (r: seq<byte>)
    requires |row| == |nw|
    ensures |r| == |row|
  {
    seq(|row|, i requires 0 <= i < |row| => MergeByte(row[i], nw[i], Lanes(x), x.mix))
  }

  lemma BlendReplaces(row: seq<byte>, nw: seq<byte>, x: Profile)
    requires |row| == |nw| && Lanes(x) == 0xff && x.mix == Replace
    ensures Blend(row, nw, x) == nw
  {
    ByteWidth();
    forall i | 0 <= i < |row| ensures Blend(row, nw, x)[i] == nw[i] {
      MergeReplaces(row[i], nw[i], 8);
    }
  }

  // Every bit of a blended row: the lanes take the mix, all of them when none is chosen, and the other bits
  // stay.
  lemma BlendBit(row: seq<byte>, nw: seq<byte>, x: Profile, i: nat, j: nat)
    requires |row| == |nw| && i < |row| && j < 8
    ensures Bit(Blend(row, nw, x)[i], j) ==
      if x.lanes == 0 || Bit(x.lanes, j) then MixBit(Bit(row[i], j), Bit(nw[i], j), x.mix) else Bit(row[i], j)
  {
    hide Bit, Merge;
    ByteWidth();
    BitOfOnes(8, j);
    MergeBit(row[i], nw[i], Lanes(x), x.mix, 8, j);
  }

  // ----- Rows -----

  // Where row y begins.
  function Start(y: nat, len: nat): nat { y * len }

  lemma RowBounds(y: nat, z: nat, len: nat)
    ensures Start(0, len) == 0 && Start(y + 1, len) == Start(y, len) + len
    ensures y < z ==> Start(y, len) + len <= Start(z, len)
  {
    NextMultiple(y, len);
    if y < z { MulMonotone(y + 1, z, len); }
  }

  // Whether a byte sequence is a frame of so many rows.
  predicate IsFrame(m: seq<byte>, len: nat, rows: nat) { |m| == Start(rows, len) }

  function Row(m: seq<byte>, y: nat, len: nat, rows: nat): (r: seq<byte>)
    requires IsFrame(m, len, rows) && y < rows
    ensures |r| == len && Start(y, len) + len <= |m|
  {
    RowBounds(y, rows, len);
    m[Start(y, len)..Start(y, len) + len]
  }

  // A frame is its rows.
  lemma {:induction false} SameFrame(a: seq<byte>, b: seq<byte>, len: nat, rows: nat)
    requires IsFrame(a, len, rows) && IsFrame(b, len, rows)
    requires forall y: nat | y < rows :: Row(a, y, len, rows) == Row(b, y, len, rows)
    ensures a == b
  {
    SameRows(a, b, len, rows, rows);
    assert a == a[..Start(rows, len)] && b == b[..Start(rows, len)];
  }

  lemma {:induction false} SameRows(a: seq<byte>, b: seq<byte>, len: nat, rows: nat, y: nat)
    requires IsFrame(a, len, rows) && IsFrame(b, len, rows) && y <= rows
    requires forall z: nat | z < rows :: Row(a, z, len, rows) == Row(b, z, len, rows)
    ensures Start(y, len) <= |a| == |b| && a[..Start(y, len)] == b[..Start(y, len)]
  {
    RowBounds(0, rows, len);
    if y > 0 {
      var p := Start(y - 1, len);
      SameRows(a, b, len, rows, y - 1);
      RowBounds(y - 1, y, len);
      var r := Row(a, y - 1, len, rows);
      RowIs(a, y - 1, len, rows);
      RowIs(b, y - 1, len, rows);
      assert a[..p + len] == a[..p] + a[p..p + len] && b[..p + len] == b[..p] + b[p..p + len];
    }
  }

  // The frame with row y replaced.
  function WithRow(m: seq<byte>, y: nat, len: nat, rows: nat, r: seq<byte>): (m': seq<byte>)
    requires IsFrame(m, len, rows) && y < rows && |r| == len
    ensures IsFrame(m', len, rows)
  {
    RowBounds(y, rows, len);
    m[..Start(y, len)] + r + m[Start(y, len) + len..]
  }

  lemma RowOfWithRow(m: seq<byte>, y: nat, len: nat, rows: nat, r: seq<byte>, z: nat)
    requires IsFrame(m, len, rows) && y < rows && z < rows && |r| == len
    ensures Row(WithRow(m, y, len, rows, r), z, len, rows) == if z == y then r else Row(m, z, len, rows)
  {
    RowBounds(y, rows, len);
    RowBounds(z, rows, len);
    RowBounds(y, z, len);
    RowBounds(z, y, len);
  }

  // The sequence m with the first i bytes of r written from p on.
  ghost function Overwritten(m: seq<byte>, p: nat, r: seq<byte>, i: nat): (b: seq<byte>)
    requires i <= |r| && p + |r| <= |m|
    ensures |b| == |m|
  {
    m[..p] + r[..i] + m[p + i..]
  }

  lemma OverwriteNext(m: seq<byte>, p: nat, r: seq<byte>, i: nat)
    requires i < |r| && p + |r| <= |m|
    ensures Overwritten(m, p, r, i)[p + i] == m[p + i]
    ensures Overwritten(m, p, r, i)[p + i := r[i]] == Overwritten(m, p, r, i + 1)
  {
  }

  lemma OverwriteAll(m: seq<byte>, p: nat, r: seq<byte>)
    requires p + |r| <= |m|
    ensures Overwritten(m, p, r, 0) == m
    ensures Overwritten(m, p, r, |r|) == m[..p] + r + m[p + |r|..]
    ensures forall i, k | 0 <= i <= |r| && 0 <= k < p :: Overwritten(m, p, r, i)[k] == m[k]
  {
    assert r[..|r|] == r;
  }

  // Writes nw, merged, into the row that starts at p.
  method BlendRow(base: array<byte>, p: nat, nw: array<byte>, len: nat, x: Profile)
    requires base != nw && p + len <= base.Length && len <= nw.Length
    modifies base
    ensures base[..] == old(base[..p]) + Blend(old(base[p..p + len]), nw[..len], x) + old(base[p + len..])
  {
    var lanes := Lanes(x);
    ghost var was := base[..];
    ghost var r := Blend(was[p..p + len], nw[..len], x);
    OverwriteAll(was, p, r);
    hide Overwritten, MergeByte, Lanes;
    for i := 0 to len
      invariant base[..] == Overwritten(was, p, r, i)
    {
      OverwriteNext(was, p, r, i);
      assert base[p + i] == base[..][p + i];
      assert r[i] == MergeByte(was[p + i], nw[i], lanes, x.mix);
      base[p + i] := MergeByte(base[p + i], nw[i], lanes, x.mix);
    }
  }

  method CopyRow(base: array<byte>, p: nat, dst: array<byte>, len: nat)
    requires base != dst && p + len <= base.Length && len <= dst.Length
    modifies dst
    ensures dst[..len] == base[p..p + len]
  {
    for i := 0 to len
      invariant dst[..i] == base[p..p + i]
    {
      dst[i] := base[p + i];
    }
  }

  // ----- Passes that rewrite a frame row by row -----

  // Rows below y hold what f says, the others are still those of the frame m0.
  ghost predicate UpTo(m0: seq<byte>, m: seq<byte>, len: nat, rows: nat, y: nat, f: nat -> seq<byte>) {
    && IsFrame(m0, len, rows) && IsFrame(m, len, rows)
    && forall z: nat | z < rows :: Row(m, z, len, rows) == if z < y then f(z) else Row(m0, z, len, rows)
  }

  lemma NoRowsYet(m0: seq<byte>, len: nat, rows: nat, f: nat -> seq<byte>)
    requires IsFrame(m0, len, rows)
    ensures UpTo(m0, m0, len, rows, 0, f)
  {
  }

  lemma RowsDone(m0: seq<byte>, m: seq<byte>, len: nat, rows: nat, f: nat -> seq<byte>)
    requires UpTo(m0, m, len, rows, rows, f)
    ensures IsFrame(m, len, rows) && forall z: nat | z < rows :: Row(m, z, len, rows) == f(z)
  {
  }

  lemma RowIs(m: seq<byte>, y: nat, len: nat, rows: nat)
    requires IsFrame(m, len, rows) && y < rows
    ensures Start(y, len) + len <= |m| && Row(m, y, len, rows) == m[Start(y, len)..Start(y, len) + len]
  {
    RowBounds(y, rows, len);
  }

  lemma RowByte(m: seq<byte>, len: nat, rows: nat, y: nat, i: nat)
    requires IsFrame(m, len, rows) && y < rows && i < len
    ensures Start(y, len) + i < |m| && Row(m, y, len, rows)[i] == m[Start(y, len) + i]
  {
    hide *;
    RowIs(m, y, len, rows);
  }

  // A byte of the frame with a row replaced.
  lemma WithRowByte(m: seq<byte>, y: nat, len: nat, rows: nat, r: seq<byte>, h: nat)
    requires IsFrame(m, len, rows) && y < rows && |r| == len && h < |m|
    ensures |WithRow(m, y, len, rows, r)| == |m|
    ensures WithRow(m, y, len, rows, r)[h] ==
      if Start(y, len) <= h < Start(y, len) + len then r[h - Start(y, len)] else m[h]
  {
    WithRowIs(m, y, len, rows, r);
    hide WithRow, Start, IsFrame;
  }

  lemma RowDone(m0: seq<byte>, m: seq<byte>, len: nat, rows: nat, y: nat, f: nat -> seq<byte>, z: nat)
    requires UpTo(m0, m, len, rows, y, f) && z < y <= rows
    ensures IsFrame(m, len, rows) && Row(m, z, len, rows) == f(z)
  {
  }

  lemma WithRowIs(m: seq<byte>, y: nat, len: nat, rows: nat, r: seq<byte>)
    requires IsFrame(m, len, rows) && y < rows && |r| == len
    ensures Start(y, len) + len <= |m| && WithRow(m, y, len, rows, r) == m[..Start(y, len)] + r + m[Start(y, len) + len..]
  {
    RowBounds(y, rows, len);
  }

  lemma RowLeft(m0: seq<byte>, m: seq<byte>, len: nat, rows: nat, y: nat, f: nat -> seq<byte>)
    requires UpTo(m0, m, len, rows, y, f) && y < rows
    ensures IsFrame(m, len, rows) && Row(m, y, len, rows) == Row(m0, y, len, rows)
  {
  }

  lemma RowWritten(m0: seq<byte>, m: seq<byte>, m': seq<byte>, len: nat, rows: nat, y: nat, f: nat -> seq<byte>)
    requires UpTo(m0, m, len, rows, y, f) && y < rows && |f(y)| == len
    requires m' == WithRow(m, y, len, rows, f(y))
    ensures UpTo(m0, m', len, rows, y + 1, f)
  {
    forall z: nat | z < rows ensures Row(m', z, len, rows) == if z < y + 1 then f(z) else Row(m0, z, len, rows) {
      RowOfWithRow(m, y, len, rows, f(y), z);
    }
  }

  lemma RowSkipped(m0: seq<byte>, m: seq<byte>, len: nat, rows: nat, y: nat, f: nat -> seq<byte>)
    requires UpTo(m0, m, len, rows, y, f) && y < rows && f(y) == Row(m0, y, len, rows)
    ensures UpTo(m0, m, len, rows, y + 1, f)
  {
  }
}

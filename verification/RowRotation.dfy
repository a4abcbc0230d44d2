/** Rotating a row by bits, and the two effects that do it to a frame (chdk-src/core/bendx.c:598-751). */
module RowRotation {
  import opened Arith
  import opened Bits
  import opened Frame
  import opened Words

  // Bit k of a row, most significant bit of the first byte first.
  predicate RowBit(row: seq<byte>, k: nat)
    requires k < 8 * |row|
  {
    Bit(row[k / 8], 7 - k % 8)
  }

  // Places on a circle of c.
  function Wrap(k: nat, c: nat): (r: nat)
    requires c > 0
    ensures r < c
  {
    k % c
  }

  // Byte i of the row rotated left by 8*bo + bi bits.
  function RotatedByte(row: seq<byte>, bo: nat, bi: nat, i: nat): byte
    requires |row| > 0 && bi < 8
  {
    var a, b := row[Wrap(i + bo, |row|)], row[Wrap(i + bo + 1, |row|)];
    ByteWidth();
    if bi == 0 then a else Or(a * Pow2(bi), Shr(b, 8 - bi), 8)
  }

  function Rotated(row: seq<byte>, bits: nat): (r: seq<byte>)
    ensures |r| == |row|
  {
    if row == [] then []
    else
      var n := Wrap(bits, 8 * |row|);
      seq(|row|, i requires 0 <= i < |row| => RotatedByte(row, n / 8, n % 8, i))
  }

  // Position 8*q + r in a circle of 8*len.
  lemma Around(q: nat, r: nat, len: nat)
    requires len > 0 && r < 8
    ensures Wrap(8 * q + r, 8 * len) == 8 * Wrap(q, len) + r
  {
    var e, w := q / len, q % len;
    DivMod(q, len);
    assert 8 * q + r == e * (8 * len) + (8 * w + r) by { assert e * (8 * len) == 8 * (e * len); }
    QuotientIs(8 * q + r, 8 * len, e, 8 * w + r);
  }

  lemma RotatedByteBit(row: seq<byte>, bo: nat, bi: nat, i: nat, j: nat)
    requires |row| > 0 && bi < 8 && j < 8
    ensures Bit(RotatedByte(row, bo, bi, i), 7 - j)
         == if j + bi < 8 then Bit(row[Wrap(i + bo, |row|)], 7 - (j + bi))
            else Bit(row[Wrap(i + bo + 1, |row|)], 7 - (j + bi - 8))
  {
    var a, b := row[Wrap(i + bo, |row|)], row[Wrap(i + bo + 1, |row|)];
    hide Bit, Or, Shr, Pow2;
    if bi > 0 {
      BitOfOps(a * Pow2(bi), Shr(b, 8 - bi), 8, 7 - j);
      BitOfShl(a, bi, 7 - j);
      BitOfShr(b, 8 - bi, 7 - j);
      ByteWidth();
      NoBits(a, 8);
      NoBits(b, 8);
    }
  }

  // Where the bit of place k comes from.
  lemma PlaceOf(k: nat, n: nat, len: nat)
    requires len > 0
    ensures var i, j, bo, bi := k / 8, k % 8, n / 8, n % 8; var p := Wrap(k + n, 8 * len);
      if j + bi < 8 then p / 8 == Wrap(i + bo, len) && p % 8 == j + bi
      else p / 8 == Wrap(i + bo + 1, len) && p % 8 == j + bi - 8
  {
    hide Wrap;
    var i, j, bo, bi := k / 8, k % 8, n / 8, n % 8;
    if j + bi < 8 {
      assert k + n == 8 * (i + bo) + (j + bi);
      Around(i + bo, j + bi, len);
      ByteAndBit(Wrap(i + bo, len), j + bi);
    } else {
      assert k + n == 8 * (i + bo + 1) + (j + bi - 8);
      Around(i + bo + 1, j + bi - 8, len);
      ByteAndBit(Wrap(i + bo + 1, len), j + bi - 8);
    }
  }

  // The rotated row has, at each place, the bit that was `bits` places further on.
  lemma RotatedBit(row: seq<byte>, bits: nat, k: nat)
    requires k < 8 * |row|
    ensures RowBit(Rotated(row, bits), k) == RowBit(row, Wrap(k + bits, 8 * |row|))
  {
    hide RotatedByte, Bit, Wrap;
    var n := Wrap(bits, 8 * |row|);
    assert Rotated(row, bits)[k / 8] == RotatedByte(row, n / 8, n % 8, k / 8);
    RotatedByteBit(row, n / 8, n % 8, k / 8, k % 8);
    AddMod(k, bits, 8 * |row|);
    PlaceOf(k, n, |row|);
  }

  lemma ByteAndBit(q: nat, r: nat)
    requires r < 8
    ensures (8 * q + r) / 8 == q && (8 * q + r) % 8 == r
  {
  }

  lemma AddMod(k: nat, bits: nat, c: nat)
    requires c > 0
    ensures Wrap(k + bits, c) == Wrap(k + Wrap(bits, c), c)
  {
    var w := Wrap(bits, c);
    DivMod(bits, c);
    DivMod(k + w, c);
    var e, f := bits / c, (k + w) / c;
    Distribute(c, e, f);
    assert (e + f) * c == c * (e + f);
    QuotientIs(k + bits, c, e + f, Wrap(k + w, c));
  }

  // Rows with the same bits are the same row.
  lemma SameRow(a: seq<byte>, b: seq<byte>)
    requires |a| == |b| && forall k: nat | k < 8 * |a| :: RowBit(a, k) == RowBit(b, k)
    ensures a == b
  {
    ByteWidth();
    forall i | 0 <= i < |a| ensures a[i] == b[i] {
      forall t: nat | t < 8 ensures Bit(a[i], t) == Bit(b[i], t) {
        ByteAndBit(i, 7 - t);
        assert RowBit(a, 8 * i + (7 - t)) == RowBit(b, 8 * i + (7 - t));
      }
      SameBits(a[i], b[i], 8);
    }
  }

  // Rotations compose by addition.
  lemma RotationsAdd(row: seq<byte>, a: nat, b: nat)
    ensures Rotated(Rotated(row, a), b) == Rotated(row, a + b)
  {
    hide Rotated, Wrap, RowBit;
    var c := 8 * |row|;
    forall k: nat | k < c ensures RowBit(Rotated(Rotated(row, a), b), k) == RowBit(Rotated(row, a + b), k) {
      RotatedBit(Rotated(row, a), b, k);
      RotatedBit(row, a, Wrap(k + b, c));
      RotatedBit(row, a + b, k);
      AddMod(a, k + b, c);
      assert Wrap(k + b, c) + a == a + Wrap(k + b, c) && k + (a + b) == a + (k + b);
    }
    SameRow(Rotated(Rotated(row, a), b), Rotated(row, a + b));
  }

  // A whole turn is no turn.
  lemma WholeTurn(row: seq<byte>, turns: nat)
    ensures Rotated(row, turns * (8 * |row|)) == row
  {
    if row != [] {
      QuotientIs(turns * (8 * |row|), 8 * |row|, turns, 0);
      NoTurn(row, turns * (8 * |row|));
    }
  }

  lemma NoTurn(row: seq<byte>, bits: nat)
    requires row != [] && Wrap(bits, 8 * |row|) == 0
    ensures Rotated(row, bits) == row
  {
    forall i | 0 <= i < |row| ensures Rotated(row, bits)[i] == row[i] {
      QuotientIs(i, |row|, 0, i);
    }
  }

  // Every rotation can be undone by another.
  lemma RotationUndone(row: seq<byte>, bits: nat)
    requires row != []
    ensures Rotated(Rotated(row, bits), 8 * |row| - Wrap(bits, 8 * |row|)) == row
  {
    hide Rotated;
    var c := 8 * |row|;
    var e, w := bits / c, Wrap(bits, c);
    DivMod(bits, c);
    RotationsAdd(row, bits, c - w);
    NextMultiple(e, c);
    assert bits + (c - w) == (e + 1) * c;
    WholeTurn(row, e + 1);
  }

  // ----- The effects -----

  method Rot(dst: array<byte>, src: array<byte>, len: nat, bits: nat)
    requires dst != src && len <= dst.Length && len <= src.Length
    modifies dst
    ensures dst[..len] == Rotated(src[..len], bits)
  {
    if len == 0 { return; }
    var n := Wrap(bits, 8 * len);
    var bo, bi := n / 8, n % 8;
    ghost var row := src[..len];
    ByteWidth();
    if bi == 0 {
      for i := 0 to len
        invariant forall j | 0 <= j < i :: dst[j] == RotatedByte(row, bo, bi, j)
      {
        dst[i] := src[Wrap(i + bo, len)];
      }
      return;
    }
    for i := 0 to len
      invariant forall j | 0 <= j < i :: dst[j] == RotatedByte(row, bo, bi, j)
    {
      var a, b := src[Wrap(i + bo, len)], src[Wrap(i + bo + 1, len)];
      dst[i] := Or(a * Pow2(bi), Shr(b, 8 - bi), 8);
    }
  }

  // What a rotating effect makes of row y.
  ghost function RotatedRow(m: seq<byte>, len: nat, rows: nat, x: Profile, bits: nat, y: nat): seq<byte>
    requires IsFrame(m, len, rows) && y < rows
  {
    var r := Row(m, y, len, rows);
    if On(x, y) then Blend(r, Rotated(r, bits), x) else r
  }

  function SlipBits(x: Profile): nat { x.amount + 1 + x.reach * 8 }

  ghost function TearBits(x: Profile, y: nat): nat { x.reach * 8 + (y + 1) * (x.amount + 1) }

  // One row of a rotating effect.
  method RotateRow(base: array<byte>, len: nat, rows: nat, x: Profile, y: nat, p: nat, bits: nat, s0: array<byte>, s1: array<byte>)
    requires base != s0 && base != s1 && s0 != s1 && len <= s0.Length && len <= s1.Length
    requires IsFrame(base[..], len, rows) && y < rows && p == Start(y, len)
    modifies base, s0, s1
    ensures var r := Row(old(base[..]), y, len, rows);
      base[..] == WithRow(old(base[..]), y, len, rows, Blend(r, Rotated(r, bits), x))
  {
    hide Rotated, Blend;
    RowBounds(y, rows, len);
    ghost var r := Row(base[..], y, len, rows);
    CopyRow(base, p, s0, len);
    assert s0[..len] == r;
    Rot(s1, s0, len, bits);
    assert s1[..len] == Rotated(r, bits) && base[p..p + len] == r;
    BlendRow(base, p, s1, len, x);
  }

  method Slip(base: array<byte>, len: nat, rows: nat, x: Profile, s0: array<byte>, s1: array<byte>)
    requires base != s0 && base != s1 && s0 != s1 && len <= s0.Length && len <= s1.Length
    requires IsFrame(base[..], len, rows)
    modifies base, s0, s1
    ensures IsFrame(base[..], len, rows)
    ensures forall y: nat | y < rows ::
              Row(base[..], y, len, rows) == RotatedRow(old(base[..]), len, rows, x, SlipBits(x), y)
  {
    var bits := SlipBits(x);
    ghost var m0 := base[..];
    ghost var f := (y: nat) => if y < rows then RotatedRow(m0, len, rows, x, bits, y) else [];
    hide Row, WithRow, Blend, Rotated, On, UpTo, SlipBits, TearBits;
    NoRowsYet(m0, len, rows, f);
    for y := 0 to rows
      invariant UpTo(m0, base[..], len, rows, y, f)
    {
      ghost var m := base[..];
      RowLeft(m0, m, len, rows, y, f);
      if On(x, y) {
        RotateRow(base, len, rows, x, y, Start(y, len), bits, s0, s1);
        assert base[..] == WithRow(m, y, len, rows, f(y));
        RowWritten(m0, m, base[..], len, rows, y, f);
      } else {
        RowSkipped(m0, m, len, rows, y, f);
      }
    }
    RowsDone(m0, base[..], len, rows, f);
  }

  lemma TearGrows(x: Profile, y: nat)
    ensures TearBits(x, 0) == x.reach * 8 + (x.amount + 1)
    ensures TearBits(x, y + 1) == TearBits(x, y) + (x.amount + 1)
  {
  }

  // The rotation grows down the frame, whether or not a row is on.
  method Tear(base: array<byte>, len: nat, rows: nat, x: Profile, s0: array<byte>, s1: array<byte>)
    requires base != s0 && base != s1 && s0 != s1 && len <= s0.Length && len <= s1.Length
    requires IsFrame(base[..], len, rows)
    modifies base, s0, s1
    ensures IsFrame(base[..], len, rows)
    ensures forall y: nat | y < rows ::
              Row(base[..], y, len, rows) == RotatedRow(old(base[..]), len, rows, x, TearBits(x, y), y)
  {
    var per := x.amount + 1;
    var bits := x.reach * 8;
    ghost var m0 := base[..];
    ghost var f := (y: nat) => if y < rows then RotatedRow(m0, len, rows, x, TearBits(x, y), y) else [];
    hide Row, WithRow, Blend, Rotated, On, UpTo, TearBits;
    TearGrows(x, 0);
    NoRowsYet(m0, len, rows, f);
    for y := 0 to rows
      invariant UpTo(m0, base[..], len, rows, y, f)
      invariant bits + per == TearBits(x, y)
    {
      ghost var m := base[..];
      RowLeft(m0, m, len, rows, y, f);
      TearGrows(x, y);
      bits := bits + per;
      if On(x, y) {
        RotateRow(base, len, rows, x, y, Start(y, len), bits, s0, s1);
        assert base[..] == WithRow(m, y, len, rows, f(y));
        RowWritten(m0, m, base[..], len, rows, y, f);
      } else {
        RowSkipped(m0, m, len, rows, y, f);
      }
    }
    RowsDone(m0, base[..], len, rows, f);
  }

  // A row in a band is blended with itself rotated, any other row stays.
  lemma RotatedInBand(m: seq<byte>, len: nat, rows: nat, x: Profile, bits: nat, y: nat)
    requires IsFrame(m, len, rows) && y < rows
    ensures var r := Row(m, y, len, rows);
      RotatedRow(m, len, rows, x, bits, y) == if InBand(x.rowmod, y) then Blend(r, Rotated(r, bits), x) else r
  {
    OnIsBand(x, y);
    hide On, InBand, Row, Blend, Rotated;
  }

  // The first rowmod rows are treated, and the next rowmod are not.
  lemma FirstBands(m: seq<byte>, len: nat, rows: nat, x: Profile, bits: nat, y: nat)
    requires IsFrame(m, len, rows) && y < rows && y < 2 * x.rowmod && x.rowmod >= 2
    ensures var r := Row(m, y, len, rows);
      RotatedRow(m, len, rows, x, bits, y) == if y < x.rowmod then Blend(r, Rotated(r, bits), x) else r
  {
    hide *;
    RotatedInBand(m, len, rows, x, bits, y);
    BandsAlternate(x, if y < x.rowmod then y else y - x.rowmod);
    OnIsBand(x, y);
  }

  // With Replace on all lanes every row in a band is the original row, rotated.
  lemma TearRotates(m: seq<byte>, len: nat, rows: nat, x: Profile, y: nat)
    requires IsFrame(m, len, rows) && y < rows && (x.lanes == 0 || x.lanes == 0xff) && x.mix == Replace
    requires InBand(x.rowmod, y)
    ensures RotatedRow(m, len, rows, x, TearBits(x, y), y)
         == Rotated(Row(m, y, len, rows), 8 * x.reach + (y + 1) * (x.amount + 1))
  {
    hide Row, Blend, Rotated, InBand, On, RotatedRow;
    var r := Row(m, y, len, rows);
    RotatedInBand(m, len, rows, x, TearBits(x, y), y);
    BlendReplaces(r, Rotated(r, TearBits(x, y)), x);
    assert TearBits(x, y) == 8 * x.reach + (y + 1) * (x.amount + 1);
  }

  // The slip rotates them all by the same number of bits.
  lemma SlipRotates(m: seq<byte>, len: nat, rows: nat, x: Profile, y: nat)
    requires IsFrame(m, len, rows) && y < rows && (x.lanes == 0 || x.lanes == 0xff) && x.mix == Replace
    requires InBand(x.rowmod, y)
    ensures RotatedRow(m, len, rows, x, SlipBits(x), y) == Rotated(Row(m, y, len, rows), 8 * x.reach + x.amount + 1)
  {
    hide Row, Blend, Rotated, InBand, On, RotatedRow;
    var r := Row(m, y, len, rows);
    RotatedInBand(m, len, rows, x, SlipBits(x), y);
    BlendReplaces(r, Rotated(r, SlipBits(x)), x);
  }
}

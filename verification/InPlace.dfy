/** Effects that read the frame while they rewrite it (chdk-src/core/bendx.c:827-865, 902-973). */
module InPlace {
  import opened Arith
  import opened Frame
  import opened Words

  // ----- Bus echo -----

  function EchoDelay(x: Profile, len: nat): nat {
    var d := x.amount + 1 + x.reach * 64;
    if d > len then len else d
  }

  lemma EchoDelayFits(x: Profile, len: nat)
    ensures EchoDelay(x, len) <= len
  {
  }

  // Row y of the echoed frame: each byte meets the one the scan delivered d bytes earlier, which may
  // be in the row before; nothing comes back before anything has been sent.
  ghost function EchoByte(m: seq<byte>, x: Profile, d: nat, on: bool, g: nat): byte
    requires g < |m|
  {
    if on && g >= d then MergeByte(m[g], m[g - d], Lanes(x), x.mix) else m[g]
  }

  ghost function EchoRow(m: seq<byte>, len: nat, rows: nat, x: Profile, d: nat, y: nat): (r: seq<byte>)
    requires IsFrame(m, len, rows) && y < rows
    ensures |r| == len
  {
    RowBounds(y, rows, len);
    seq<byte>(len, i requires 0 <= i < len => EchoByte(m, x, d, On(x, y), Start(y, len) + i))
  }

  // A byte of the row, from the row's own bytes and those of the row before.
  function Echoed(cur: seq<byte>, prev: seq<byte>, havePrev: bool, d: nat, x: Profile, on: bool, i: nat): byte
    requires i < |cur| == |prev| && d <= |cur|
  {
    if !on then cur[i]
    else if i >= d then MergeByte(cur[i], cur[i - d], Lanes(x), x.mix)
    else if havePrev then MergeByte(cur[i], prev[|cur| + i - d], Lanes(x), x.mix)
    else cur[i]
  }

  function EchoedRow(cur: seq<byte>, prev: seq<byte>, havePrev: bool, d: nat, x: Profile, on: bool): (r: seq<byte>)
    requires |cur| == |prev| && d <= |cur|
    ensures |r| == |cur|
  {
    seq(|cur|, i requires 0 <= i < |cur| => Echoed(cur, prev, havePrev, d, x, on, i))
  }

  // In a band, every byte of the frame is merged with the byte that the scan delivered amount + 1 + 64*reach
  // bytes before it, a row's length at most, if there is one; all other bytes stay.
  lemma EchoInBand(m: seq<byte>, len: nat, rows: nat, x: Profile, y: nat, i: nat)
    requires IsFrame(m, len, rows) && y < rows && i < len
    ensures y * len + i < |m|
    ensures var g, far := y * len + i, x.amount + 1 + 64 * x.reach; var d := if far < len then far else len;
      EchoRow(m, len, rows, x, EchoDelay(x, len), y)[i]
      == if InBand(x.rowmod, y) && g >= d then MergeByte(m[g], m[g - d], Lanes(x), x.mix) else m[g]
  {
    OnIsBand(x, y);
    hide On, InBand, MergeByte, Lanes, EchoRow, Row, IsFrame;
    RowByte(m, len, rows, y, i);
    EchoRowAt(m, len, rows, x, EchoDelay(x, len), y, i);
  }

  // The byte that comes back on byte i, if anything does.
  method Reflected(cur: array<byte>, prev: array<byte>, havePrev: bool, len: nat, d: nat, i: nat)
    returns (driven: bool, src: byte)
    requires i < len <= cur.Length && len <= prev.Length && d <= len
    ensures driven == (i >= d || havePrev)
    ensures driven ==> src == if i >= d then cur[..len][i - d] else prev[..len][len + i - d]
  {
    driven, src := true, 0;
    if i >= d {
      src := cur[i - d];
    } else if havePrev {
      src := prev[len + i - d];
    } else {
      driven := false;
    }
  }

  method EchoOne(base: array<byte>, p: nat, cur: array<byte>, prev: array<byte>, havePrev: bool, len: nat, d: nat,
                 x: Profile, y: nat)
    requires base != cur && base != prev && p + len <= base.Length && len <= cur.Length && len <= prev.Length && d <= len
    requires cur[..len] == base[p..p + len]
    modifies base
    ensures base[..] == old(base[..p]) + EchoedRow(cur[..len], prev[..len], havePrev, d, x, On(x, y)) + old(base[p + len..])
  {
    ghost var was := base[..];
    ghost var c, q := cur[..len], prev[..len];
    ghost var r := EchoedRow(c, q, havePrev, d, x, On(x, y));
    OverwriteAll(was, p, r);
    if !On(x, y) {
      assert r == c;
      return;
    }
    forall i | 0 <= i < len ensures r[i] == Echoed(c, q, havePrev, d, x, true, i) && c[i] == was[p + i] {
      assert c[i] == base[p..p + len][i];
    }
    hide MergeByte, Lanes, On, Overwritten, EchoedRow, Echoed;
    for i := 0 to len
      invariant base[..] == Overwritten(was, p, r, i)
    {
      OverwriteNext(was, p, r, i);
      EchoOneByte(base, p, cur, prev, havePrev, len, d, x, i);
    }
  }

  method EchoOneByte(base: array<byte>, p: nat, cur: array<byte>, prev: array<byte>, havePrev: bool, len: nat, d: nat,
                     x: Profile, i: nat)
    requires base != cur && base != prev && p + len <= base.Length && len <= cur.Length && len <= prev.Length && d <= len
    requires i < len && base[p + i] == cur[..len][i]
    modifies base
    ensures base[..] == old(base[..])[p + i := Echoed(cur[..len], prev[..len], havePrev, d, x, true, i)]
  {
    hide MergeByte, Lanes;
    var driven, src := Reflected(cur, prev, havePrev, len, d, i);
    if driven {
      base[p + i] := MergeByte(base[p + i], src, Lanes(x), x.mix);
    }
  }

  ghost function EchoMap(m: seq<byte>, len: nat, rows: nat, x: Profile, d: nat): nat -> seq<byte>
    requires IsFrame(m, len, rows)
  {
    (y: nat) => if y < rows then EchoRow(m, len, rows, x, d, y) else []
  }

  lemma EchoMapAt(m: seq<byte>, len: nat, rows: nat, x: Profile, d: nat, y: nat)
    requires IsFrame(m, len, rows) && y < rows
    ensures EchoMap(m, len, rows, x, d)(y) == EchoRow(m, len, rows, x, d, y)
  {
  }

  method Echo(base: array<byte>, len: nat, rows: nat, x: Profile, s0: array<byte>, s1: array<byte>)
    requires base != s0 && base != s1 && s0 != s1 && len <= s0.Length && len <= s1.Length
    requires IsFrame(base[..], len, rows)
    modifies base, s0, s1
    ensures IsFrame(base[..], len, rows)
    ensures forall y: nat | y < rows ::
              Row(base[..], y, len, rows) == EchoRow(old(base[..]), len, rows, x, EchoDelay(x, len), y)
  {
    var d := EchoDelay(x, len);
    var cur, prev, havePrev := s0, s1, false;
    hide *;
    ghost var m0 := base[..];
    ghost var f := EchoMap(m0, len, rows, x, d);
    EchoDelayFits(x, len);
    NoRowsYet(m0, len, rows, f);
    forall y: nat | y < rows ensures f(y) == EchoRow(m0, len, rows, x, d, y) { EchoMapAt(m0, len, rows, x, d, y); }
    for y := 0 to rows
      invariant UpTo(m0, base[..], len, rows, y, f)
      invariant (cur == s0 && prev == s1) || (cur == s1 && prev == s0)
      invariant havePrev == (y > 0)
      invariant y > 0 ==> prev[..len] == Row(m0, y - 1, len, rows)
    {
      ghost var m := base[..];
      RowLeft(m0, m, len, rows, y, f);
      RowBounds(y, rows, len);
      CopyRow(base, Start(y, len), cur, len);
      RowIs(m, y, len, rows);
      EchoOne(base, Start(y, len), cur, prev, havePrev, len, d, x, y);
      EchoedIsRow(m0, len, rows, x, d, y, cur[..len], prev[..len]);
      WithRowIs(m, y, len, rows, f(y));
      RowWritten(m0, m, base[..], len, rows, y, f);
      cur, prev := prev, cur;
      havePrev := true;
    }
    RowsDone(m0, base[..], len, rows, f);
  }

  lemma EchoedIsRow(m0: seq<byte>, len: nat, rows: nat, x: Profile, d: nat, y: nat, cur: seq<byte>, prev: seq<byte>)
    requires IsFrame(m0, len, rows) && y < rows && d <= len
    requires cur == Row(m0, y, len, rows) && |prev| == len && (y > 0 ==> prev == Row(m0, y - 1, len, rows))
    ensures EchoedRow(cur, prev, y > 0, d, x, On(x, y)) == EchoRow(m0, len, rows, x, d, y)
  {
    forall i | 0 <= i < len ensures Echoed(cur, prev, y > 0, d, x, On(x, y), i) == EchoRow(m0, len, rows, x, d, y)[i] {
      EchoedIs(m0, len, rows, x, d, y, cur, prev, i);
    }
    hide Echoed, EchoRow, Row;
  }

  lemma EchoRowAt(m: seq<byte>, len: nat, rows: nat, x: Profile, d: nat, y: nat, i: nat)
    requires IsFrame(m, len, rows) && y < rows && i < len
    ensures Start(y, len) + i < |m| && EchoRow(m, len, rows, x, d, y)[i] == EchoByte(m, x, d, On(x, y), Start(y, len) + i)
  {
    RowIs(m, y, len, rows);
    hide EchoByte, Row, On;
  }

  lemma EchoedIs(m0: seq<byte>, len: nat, rows: nat, x: Profile, d: nat, y: nat, cur: seq<byte>, prev: seq<byte>, i: nat)
    requires IsFrame(m0, len, rows) && y < rows && d <= len && i < len
    requires cur == Row(m0, y, len, rows) && |prev| == len && (y > 0 ==> prev == Row(m0, y - 1, len, rows))
    ensures Echoed(cur, prev, y > 0, d, x, On(x, y), i) == EchoRow(m0, len, rows, x, d, y)[i]
  {
    hide MergeByte, Row, IsFrame, Start, On, Lanes;
    RowByte(m0, len, rows, y, i);
    EchoRowAt(m0, len, rows, x, d, y, i);
    if i >= d {
      RowByte(m0, len, rows, y, i - d);
    } else if y > 0 {
      RowByte(m0, len, rows, y - 1, len + i - d);
      RowBounds(y - 1, y, len);
    } else {
      RowBounds(0, 1, len);
    }
  }

  // ----- Line memory -----

  function Period(x: Profile): nat { x.amount + 2 }

  function Hold(x: Profile): nat { if x.reach + 1 >= Period(x) then Period(x) - 1 else x.reach + 1 }

  // How far row y is into its period.
  function Phase(x: Profile, y: nat): (pos: nat)
    ensures pos <= y && pos < Period(x)
  {
    RemainderBound(y, Period(x));
    y % Period(x)
  }

  // Whether row y is in the part of its period that the line memory is not clocked.
  predicate Held(x: Profile, y: nat) { Phase(x, y) >= Period(x) - Hold(x) }

  // The last row that was latched before the held ones of y's period.
  function Latched(x: Profile, y: nat): nat
    requires Held(x, y)
  {
    y - Phase(x, y) + (Period(x) - Hold(x)) - 1
  }

  lemma LatchedIsClocked(x: Profile, y: nat)
    requires Held(x, y)
    ensures Latched(x, y) < y && !Held(x, Latched(x, y))
    ensures Latched(x, y) == y / Period(x) * Period(x) + Period(x) - Hold(x) - 1
  {
    var p, q := Period(x), y / Period(x);
    DivMod(y, p);
    QuotientIs(q * p + (p - Hold(x) - 1), p, q, p - Hold(x) - 1);
    assert Phase(x, Latched(x, y)) == p - Hold(x) - 1;
  }

  ghost function LineMemRow(m: seq<byte>, len: nat, rows: nat, x: Profile, y: nat): (r: seq<byte>)
    requires IsFrame(m, len, rows) && y < rows
    ensures |r| == len
  {
    if Held(x, y) && On(x, y) then Blend(Row(m, y, len, rows), Row(m, Latched(x, y), len, rows), x)
    else Row(m, y, len, rows)
  }

  // Merges row sy into row y, in place.
  method MergeRows(base: array<byte>, p: nat, q: nat, len: nat, x: Profile)
    requires p + len <= base.Length && q + len <= p
    modifies base
    ensures base[..] == old(base[..p]) + Blend(old(base[p..p + len]), old(base[q..q + len]), x) + old(base[p + len..])
  {
    ghost var was := base[..];
    ghost var r := Blend(was[p..p + len], was[q..q + len], x);
    OverwriteAll(was, p, r);
    hide Overwritten, MergeByte, Lanes;
    for i := 0 to len
      invariant base[..] == Overwritten(was, p, r, i)
    {
      OverwriteNext(was, p, r, i);
      assert base[p + i] == base[..][p + i] && base[q + i] == base[..][q + i] == was[q + i];
      assert r[i] == MergeByte(was[p + i], was[q + i], Lanes(x), x.mix);
      base[p + i] := MergeByte(base[p + i], base[q + i], Lanes(x), x.mix);
    }
  }

  // Row y presents row sy.
  method HoldRow(base: array<byte>, len: nat, rows: nat, x: Profile, y: nat, sy: nat, ghost r: seq<byte>)
    requires IsFrame(base[..], len, rows) && sy < y < rows
    requires r == Blend(Row(base[..], y, len, rows), Row(base[..], sy, len, rows), x)
    modifies base
    ensures base[..] == WithRow(old(base[..]), y, len, rows, r)
  {
    hide *;
    ghost var m := base[..];
    var p, q := Start(y, len), Start(sy, len);
    RowIs(m, y, len, rows);
    RowIs(m, sy, len, rows);
    RowBounds(sy, y, len);
    WithRowIs(m, y, len, rows, r);
    assert base[p..p + len] == m[p..p + len] && base[q..q + len] == m[q..q + len];
    assert base[..p] == m[..p] && base[p + len..] == m[p + len..];
    MergeRows(base, p, q, len, x);
  }

  ghost function LineMemMap(m: seq<byte>, len: nat, rows: nat, x: Profile): nat -> seq<byte>
    requires IsFrame(m, len, rows)
  {
    (y: nat) => if y < rows then LineMemRow(m, len, rows, x, y) else []
  }

  lemma MapAt(m: seq<byte>, len: nat, rows: nat, x: Profile, y: nat)
    requires IsFrame(m, len, rows) && y < rows
    ensures LineMemMap(m, len, rows, x)(y) == LineMemRow(m, len, rows, x, y)
  {
    hide LineMemRow;
  }

  // Row y of the result, by the tests the program makes.
  lemma LineMemMapAt(m: seq<byte>, len: nat, rows: nat, x: Profile, y: nat)
    requires IsFrame(m, len, rows) && y < rows
    ensures 1 <= Hold(x) < Period(x)
    ensures LineMemMap(m, len, rows, x)(y) == LineMemRow(m, len, rows, x, y)
    ensures Phase(x, y) < Period(x) - Hold(x) || !On(x, y) ==> LineMemRow(m, len, rows, x, y) == Row(m, y, len, rows)
    ensures Phase(x, y) >= Period(x) - Hold(x) && On(x, y) ==>
      var sy := y - Phase(x, y) + (Period(x) - Hold(x)) - 1;
      && 0 <= sy < y
      && LineMemRow(m, len, rows, x, sy) == Row(m, sy, len, rows)
      && LineMemRow(m, len, rows, x, y) == Blend(Row(m, y, len, rows), Row(m, sy, len, rows), x)
  {
    hide Phase, Row, Blend;
    if Held(x, y) { LatchedIsClocked(x, y); }
  }

  // The row that is latched is never a held one, so it is still the original when it is presented.
  lemma HeldTurn(m0: seq<byte>, m: seq<byte>, len: nat, rows: nat, x: Profile, y: nat, sy: int)
    requires IsFrame(m0, len, rows) && y < rows && On(x, y)
    requires UpTo(m0, m, len, rows, y, LineMemMap(m0, len, rows, x))
    requires Phase(x, y) >= Period(x) - Hold(x) && sy == y - Phase(x, y) + (Period(x) - Hold(x)) - 1
    ensures 0 <= sy < y && IsFrame(m, len, rows)
    ensures LineMemMap(m0, len, rows, x)(y) == Blend(Row(m, y, len, rows), Row(m, sy, len, rows), x)
  {
    hide *;
    var f := LineMemMap(m0, len, rows, x);
    LineMemMapAt(m0, len, rows, x, y);
    MapAt(m0, len, rows, x, sy);
    RowLeft(m0, m, len, rows, y, f);
    RowDone(m0, m, len, rows, y, f, sy);
  }

  // Row y's turn.
  method LineMemTurn(base: array<byte>, len: nat, rows: nat, x: Profile, y: nat, ghost m0: seq<byte>, ghost f: nat -> seq<byte>)
    requires IsFrame(m0, len, rows) && y < rows && f == LineMemMap(m0, len, rows, x)
    requires UpTo(m0, base[..], len, rows, y, f)
    modifies base
    ensures UpTo(m0, base[..], len, rows, y + 1, f)
  {
    hide *;
    var period, hold := Period(x), Hold(x);
    ghost var m := base[..];
    LineMemMapAt(m0, len, rows, x, y);
    var pos := Phase(x, y);
    if pos < period - hold || !On(x, y) {
      RowSkipped(m0, m, len, rows, y, f);
      return;
    }
    var sy := y - pos + (period - hold) - 1;
    HeldTurn(m0, m, len, rows, x, y, sy);
    HoldRow(base, len, rows, x, y, sy, f(y));
    RowWritten(m0, m, base[..], len, rows, y, f);
  }

  method LineMem(base: array<byte>, len: nat, rows: nat, x: Profile)
    requires IsFrame(base[..], len, rows)
    modifies base
    ensures IsFrame(base[..], len, rows)
    ensures forall y: nat | y < rows :: Row(base[..], y, len, rows) == LineMemRow(old(base[..]), len, rows, x, y)
  {
    hide *;
    ghost var m0 := base[..];
    ghost var f := LineMemMap(m0, len, rows, x);
    NoRowsYet(m0, len, rows, f);
    for y := 0 to rows
      invariant UpTo(m0, base[..], len, rows, y, f)
    {
      LineMemTurn(base, len, rows, x, y, m0, f);
    }
    RowsDone(m0, base[..], len, rows, f);
    forall y: nat | y < rows ensures Row(base[..], y, len, rows) == LineMemRow(m0, len, rows, x, y) {
      LineMemMapAt(m0, len, rows, x, y);
    }
  }

  // In a band, the last min(reach + 1, amount + 1) rows of every period of amount + 2 present the row before
  // them; all other rows stay.
  lemma LineMemInBand(m: seq<byte>, len: nat, rows: nat, x: Profile, y: nat)
    requires IsFrame(m, len, rows) && y < rows
    ensures var p, h := x.amount + 2, if x.reach < x.amount then x.reach + 1 else x.amount + 1;
      && (y % p >= p - h ==> 0 <= y - y % p + p - h - 1 < rows)
      && LineMemRow(m, len, rows, x, y) ==
         if InBand(x.rowmod, y) && y % p >= p - h
         then Blend(Row(m, y, len, rows), Row(m, y - y % p + p - h - 1, len, rows), x)
         else Row(m, y, len, rows)
  {
    OnIsBand(x, y);
    hide On, InBand, Blend, Row, IsFrame, LineMemRow;
    LineMemMapAt(m, len, rows, x, y);
    RemainderBound(y, x.amount + 2);
  }

  // With Replace on all lanes every held row of a period repeats the same latched row.
  lemma HeldRowsRepeat(m: seq<byte>, len: nat, rows: nat, x: Profile, y: nat, z: nat)
    requires IsFrame(m, len, rows) && y < rows && z < rows && y / Period(x) == z / Period(x)
    requires Held(x, y) && Held(x, z) && InBand(x.rowmod, y) && InBand(x.rowmod, z)
    requires (x.lanes == 0 || x.lanes == 0xff) && x.mix == Replace
    ensures Latched(x, y) == Latched(x, z) < rows
    ensures LineMemRow(m, len, rows, x, y) == LineMemRow(m, len, rows, x, z) == Row(m, Latched(x, y), len, rows)
  {
    LatchedIsClocked(x, y);
    LatchedIsClocked(x, z);
    OnIsBand(x, y);
    OnIsBand(x, z);
    hide Row, Blend, On, InBand;
    BlendReplaces(Row(m, y, len, rows), Row(m, Latched(x, y), len, rows), x);
    BlendReplaces(Row(m, z, len, rows), Row(m, Latched(x, y), len, rows), x);
  }
}

/** The state a picture was taken with, as a record of 204 bytes (chdk-src/core/bend_shot.c:22-152,
    chdk-src/include/bend_shot.h), and the gates its parts pass through on the way back
    (chdk-src/core/bendx.c:350-411, 455-483, 521-538; chdk-src/core/bend.c:656-661, 723-750). */
module ShotRecord {
  import opened Bend
  import opened Layouts
  import opened Options
  import opened Words

  // ----- The effect chain -----

  const BX_OFF: nat := 0
  const BX_COUNT: nat := 19
  const BXMIX_COUNT: nat := 4
  const CHAIN_MAX: nat := 4

  datatype Effect = Effect(kind: byte, amount: byte, reach: byte, lanes: byte, mix: byte, rowmod: byte, pad: seq<byte>,
                           seed: nat)

  datatype Chain = Chain(items: seq<Effect>, n: byte, pad: seq<byte>)

  predicate EffectFormed(x: Effect) { |x.pad| == 2 && x.seed < 0x1_0000_0000 }

  predicate ChainFormed(c: Chain) {
    |c.items| == CHAIN_MAX && |c.pad| == 3 && forall i | 0 <= i < CHAIN_MAX :: EffectFormed(c.items[i])
  }

  function ResetEffect(): Effect { Effect(0, 0, 0, 0, 0, 0, [0, 0], 0xb1a5ed) }

  function AmountMax(kind: nat): byte {
    match kind
    case 1 => 4
    case 2 => 15
    case 3 => 15
    case 4 => 11
    case 5 => 11
    case 6 => 63
    case 7 => 15
    case 8 => 63
    case 9 => 63
    case 10 => 63
    case 11 => 7
    case 12 => 15
    case 13 => 7
    case 14 => 15
    case 15 => 15
    case 16 => 15
    case 17 => 15
    case 18 => 7
    case _ => 0
  }

  function ReachMax(kind: nat): byte {
    match kind
    case 2 => 32
    case 3 => 32
    case 6 => 15
    case 8 => 15
    case 9 => 15
    case 11 => 15
    case 12 => 7
    case 13 => 7
    case 14 => 15
    case 15 => 15
    case 16 => 15
    case 17 => 15
    case 18 => 15
    case _ => 0
  }

  predicate EffectUsable(x: Effect) {
    && x.kind < BX_COUNT && x.amount <= AmountMax(x.kind) && x.reach <= ReachMax(x.kind)
    && x.mix < BXMIX_COUNT && x.rowmod <= 64 && x.seed != 0
  }

  function CleanEffect(x: Effect): Effect {
    if x.kind >= BX_COUNT then ResetEffect()
    else
      x.(amount := if x.amount > AmountMax(x.kind) then AmountMax(x.kind) else x.amount,
         reach := if x.reach > ReachMax(x.kind) then ReachMax(x.kind) else x.reach,
         mix := if x.mix >= BXMIX_COUNT then 0 else x.mix,
         rowmod := if x.rowmod > 64 then 0 else x.rowmod,
         seed := if x.seed == 0 then 0xb1a5ed else x.seed)
  }

  predicate IsOff(x: Effect) { x.kind == BX_OFF || x.kind >= BX_COUNT }

  // Drops locked item i: the rest moves down, the live slot included.
  function Remove(c: Chain, i: nat): (r: Chain)
    requires |c.items| == CHAIN_MAX && i < c.n <= CHAIN_MAX
    ensures |r.items| == CHAIN_MAX && r.n == c.n - 1
  {
    c.(items := c.items[..i] + c.items[i + 1..] + [ResetEffect()], n := c.n - 1)
  }

  // Closes the holes among the locked items from i on.
  function CloseHoles(c: Chain, i: nat): (r: Chain)
    requires |c.items| == CHAIN_MAX && c.n <= CHAIN_MAX
    ensures |r.items| == CHAIN_MAX && r.n <= CHAIN_MAX
    decreases c.n + CHAIN_MAX - i
  {
    if i >= c.n then c
    else if IsOff(c.items[i]) then CloseHoles(Remove(c, i), i)
    else CloseHoles(c, i + 1)
  }

  function CleanChain(c: Chain): (r: Chain)
    requires |c.items| == CHAIN_MAX
    ensures |r.items| == CHAIN_MAX
  {
    var d := Chain(seq(CHAIN_MAX, i requires 0 <= i < CHAIN_MAX => CleanEffect(c.items[i])),
                   if c.n > CHAIN_MAX then 0 else c.n, c.pad);
    CloseHoles(d, 0)
  }

  predicate ChainUsable(c: Chain)
    requires |c.items| == CHAIN_MAX
  {
    && c.n <= CHAIN_MAX && (forall i | 0 <= i < CHAIN_MAX :: EffectUsable(c.items[i]))
    && forall i | 0 <= i < c.n :: !IsOff(c.items[i])
  }

  lemma EffectKept(x: Effect)
    ensures EffectUsable(CleanEffect(x))
    ensures CleanEffect(x) == x <==> EffectUsable(x)
  {
  }

  lemma {:induction false} HolesClosed(c: Chain, i: nat)
    requires |c.items| == CHAIN_MAX && c.n <= CHAIN_MAX && forall k | 0 <= k < CHAIN_MAX :: EffectUsable(c.items[k])
    requires forall k | 0 <= k < i && k < c.n :: !IsOff(c.items[k])
    ensures ChainUsable(CloseHoles(c, i))
    ensures ChainUsable(c) ==> CloseHoles(c, i) == c
    decreases c.n + CHAIN_MAX - i
  {
    if i >= c.n {
    } else if IsOff(c.items[i]) {
      var d := Remove(c, i);
      forall k | 0 <= k < CHAIN_MAX ensures EffectUsable(d.items[k]) && (k < i ==> !IsOff(d.items[k])) {
        assert d.items[k] == if k < i then c.items[k] else if k < CHAIN_MAX - 1 then c.items[k + 1] else ResetEffect();
      }
      HolesClosed(d, i);
    } else {
      HolesClosed(c, i + 1);
    }
  }

  // The gate gives a usable chain, and leaves a chain alone exactly when it is usable.
  lemma ChainKept(c: Chain)
    requires |c.items| == CHAIN_MAX
    ensures ChainUsable(CleanChain(c))
    ensures CleanChain(c) == c <==> ChainUsable(c)
  {
    var d := Chain(seq(CHAIN_MAX, i requires 0 <= i < CHAIN_MAX => CleanEffect(c.items[i])),
                   if c.n > CHAIN_MAX then 0 else c.n, c.pad);
    forall i | 0 <= i < CHAIN_MAX
      ensures EffectUsable(d.items[i]) && (CleanEffect(c.items[i]) == c.items[i] <==> EffectUsable(c.items[i]))
    {
      EffectKept(c.items[i]);
    }
    HolesClosed(d, 0);
    if ChainUsable(c) { assert d.items == c.items; }
    hide EffectUsable, CleanEffect, CloseHoles;
  }

  // The items that do something, in order.
  function NotOff(s: seq<Effect>): seq<Effect> {
    if s == [] then [] else (if IsOff(s[0]) then [] else [s[0]]) + NotOff(s[1..])
  }

  // Closing the holes keeps the locked items that do something, in order, and the live one behind them.
  lemma {:induction false} HolesInOrder(c: Chain, i: nat)
    requires |c.items| == CHAIN_MAX && i <= c.n <= CHAIN_MAX
    ensures var r := CloseHoles(c, i);
      && r.items[..r.n] == c.items[..i] + NotOff(c.items[i..c.n])
      && (c.n < CHAIN_MAX ==> r.n < CHAIN_MAX && r.items[r.n] == c.items[c.n])
    decreases c.n + CHAIN_MAX - i
  {
    hide IsOff, Remove, CloseHoles, NotOff;
    ClosedIs(c, i);
    if i == c.n {
      NoneOff();
      assert c.items[i..c.n] == [];
    } else {
      NextItem(c, i);
      if IsOff(c.items[i]) {
        RemovedItem(c, i);
        HolesInOrder(Remove(c, i), i);
      } else {
        HolesInOrder(c, i + 1);
      }
    }
  }

  lemma ClosedIs(c: Chain, i: nat)
    requires |c.items| == CHAIN_MAX && i <= c.n <= CHAIN_MAX
    ensures i == c.n ==> CloseHoles(c, i) == c
    ensures i < c.n ==>
      CloseHoles(c, i) == if IsOff(c.items[i]) then CloseHoles(Remove(c, i), i) else CloseHoles(c, i + 1)
  {
    hide IsOff, Remove;
  }

  lemma NoneOff()
    ensures NotOff([]) == []
  {
  }

  lemma NextItem(c: Chain, i: nat)
    requires |c.items| == CHAIN_MAX && i < c.n <= CHAIN_MAX
    ensures c.items[..i + 1] == c.items[..i] + [c.items[i]]
    ensures NotOff(c.items[i..c.n]) == (if IsOff(c.items[i]) then [] else [c.items[i]]) + NotOff(c.items[i + 1..c.n])
  {
    hide IsOff;
    var s := c.items[i..c.n];
    assert s[0] == c.items[i] && s[1..] == c.items[i + 1..c.n];
  }

  lemma RemovedItem(c: Chain, i: nat)
    requires |c.items| == CHAIN_MAX && i < c.n <= CHAIN_MAX
    ensures var d := Remove(c, i);
      && d.items[..i] == c.items[..i] && d.items[i..d.n] == c.items[i + 1..c.n]
      && (c.n < CHAIN_MAX ==> d.items[d.n] == c.items[c.n])
  {
    hide ResetEffect;
  }

  // ----- The segments -----

  datatype Segs = Segs(layout: byte, active: byte, size: byte, pad: byte, slot: seq<byte>, b: seq<Recipe>)

  function SegCount(layout: nat): (n: nat)
    ensures 1 <= n <= SEG_MAX
  {
    Count(FromCode(layout))
  }

  ghost predicate SegsFormed(s: Segs) {
    |s.slot| == SEG_MAX && |s.b| == SEG_MAX - 1 && forall i | 0 <= i < SEG_MAX - 1 :: WellFormed(s.b[i])
  }

  ghost predicate SegsUsable(s: Segs)
    requires SegsFormed(s)
  {
    && s.layout < LAYOUTS && 1 <= s.size <= 100 && s.active < SegCount(s.layout)
    && (forall i | 0 <= i < SEG_MAX :: s.slot[i] <= 100) && forall i | 0 <= i < SEG_MAX - 1 :: Usable(s.b[i])
  }

  function CleanSegs(s: Segs, nbits: byte): Segs
    requires |s.slot| == SEG_MAX && |s.b| == SEG_MAX - 1 && forall i | 0 <= i < SEG_MAX - 1 :: |s.b[i].route| == MAX_BITS
  {
    var layout: byte := if s.layout >= LAYOUTS then 0 else s.layout;
    Segs(layout, if s.active >= SegCount(layout) then 0 else s.active,
         if s.size == 0 then 50 else if s.size > 100 then 100 else s.size, s.pad,
         seq(SEG_MAX, i requires 0 <= i < SEG_MAX => if s.slot[i] > 100 then 0 else s.slot[i]),
         seq(SEG_MAX - 1, i requires 0 <= i < SEG_MAX - 1 => Sanitized(s.b[i], nbits)))
  }

  lemma SegsKept(s: Segs, nbits: byte)
    requires SegsFormed(s) && 2 <= nbits <= MAX_BITS
    ensures CleanSegs(s, nbits) == s <==> SegsUsable(s)
  {
    forall i | 0 <= i < SEG_MAX - 1 ensures Sanitized(s.b[i], nbits) == s.b[i] <==> Usable(s.b[i]) {
      SanitizedKeepsUsable(s.b[i], nbits);
    }
    hide Sanitized, Usable, SegCount;
    var r := CleanSegs(s, nbits);
    if r == s {
      forall i | 0 <= i < SEG_MAX - 1 ensures Usable(s.b[i]) { assert r.b[i] == Sanitized(s.b[i], nbits); }
      forall i | 0 <= i < SEG_MAX ensures s.slot[i] <= 100 { assert r.slot[i] == if s.slot[i] > 100 then 0 else s.slot[i]; }
    }
    if SegsUsable(s) {
      assert r.slot == s.slot && r.b == s.b;
    }
  }

  // ----- Structures as bytes -----

  function Signed(v: int): byte
    requires -128 <= v < 128
  {
    if v < 0 then v + 0x100 else v
  }

  function FromSigned(b: byte): int { if b < 128 then b else b - 0x100 }

  // A bend_t.
  function BendBytes(b: Recipe): (r: seq<byte>)
    requires |b.route| == MAX_BITS && |b.pad| == 2 && -128 <= b.tapDx < 128 && -128 <= b.tapDy < 128
    ensures |r| == 32
  {
    b.route + [b.nbits, b.bayer, b.rowPeriod, b.hdiv, b.vdiv, b.trashType, b.trashRate, b.depth]
      + [Signed(b.tapDx), Signed(b.tapDy)] + b.pad + Put32(b.seed)
  }

  function BendFrom(p: seq<byte>): (b: Recipe)
    requires |p| == 32
    ensures |b.route| == MAX_BITS
  {
    Recipe(p[..16], p[16], p[17], p[18], p[19], p[20], p[21], p[22], p[23], FromSigned(p[24]), FromSigned(p[25]),
           p[26..28], Get32(p[28..]))
  }

  lemma BendRoundTrip(b: Recipe)
    requires WellFormed(b)
    ensures BendFrom(BendBytes(b)) == b
  {
    var p := BendBytes(b);
    Word32(b.seed, []);
    assert p[28..] == Put32(b.seed) + [] && p[26..28] == b.pad && p[..16] == b.route;
    hide Put32, Get32;
  }

  // A bendx_t.
  function EffectBytes(x: Effect): (r: seq<byte>)
    requires |x.pad| == 2
    ensures |r| == 12
  {
    [x.kind, x.amount, x.reach, x.lanes, x.mix, x.rowmod] + x.pad + Put32(x.seed)
  }

  function EffectFrom(p: seq<byte>): Effect
    requires |p| == 12
  {
    Effect(p[0], p[1], p[2], p[3], p[4], p[5], p[6..8], Get32(p[8..]))
  }

  lemma EffectRoundTrip(x: Effect)
    requires EffectFormed(x)
    ensures EffectFrom(EffectBytes(x)) == x
  {
    var p := EffectBytes(x);
    Word32(x.seed, []);
    assert p[8..] == Put32(x.seed) + [] && p[6..8] == x.pad;
    hide Put32, Get32;
  }

  function ChainBytes(c: Chain): (r: seq<byte>)
    requires ChainFormed(c)
    ensures |r| == 52
  {
    EffectBytes(c.items[0]) + EffectBytes(c.items[1]) + EffectBytes(c.items[2]) + EffectBytes(c.items[3]) + [c.n] + c.pad
  }

  function ChainFrom(p: seq<byte>): (c: Chain)
    requires |p| == 52
    ensures |c.items| == CHAIN_MAX
  {
    Chain([EffectFrom(p[..12]), EffectFrom(p[12..24]), EffectFrom(p[24..36]), EffectFrom(p[36..48])], p[48], p[49..])
  }

  lemma ChainRoundTrip(c: Chain)
    requires ChainFormed(c)
    ensures ChainFrom(ChainBytes(c)) == c
  {
    hide EffectBytes, EffectFrom, ChainBytes, EffectFormed;
    ChainPieces(c);
    EffectRoundTrip(c.items[0]);
    EffectRoundTrip(c.items[1]);
    EffectRoundTrip(c.items[2]);
    EffectRoundTrip(c.items[3]);
    assert c.items == [c.items[0], c.items[1], c.items[2], c.items[3]];
  }

  lemma ChainPieces(c: Chain)
    requires ChainFormed(c)
    ensures var p := ChainBytes(c);
      && p[..12] == EffectBytes(c.items[0]) && p[12..24] == EffectBytes(c.items[1])
      && p[24..36] == EffectBytes(c.items[2]) && p[36..48] == EffectBytes(c.items[3]) && p[48] == c.n && p[49..] == c.pad
  {
    hide EffectBytes;
  }

  // A bend_segs_t.
  function SegsBytes(s: Segs): (r: seq<byte>)
    requires |s.slot| == SEG_MAX && |s.b| == SEG_MAX - 1
    requires forall i | 0 <= i < SEG_MAX - 1 ::
               |s.b[i].route| == MAX_BITS && |s.b[i].pad| == 2 && -128 <= s.b[i].tapDx < 128 && -128 <= s.b[i].tapDy < 128
    ensures |r| == 104
  {
    [s.layout, s.active, s.size, s.pad] + s.slot + BendBytes(s.b[0]) + BendBytes(s.b[1]) + BendBytes(s.b[2])
  }

  function SegsFrom(p: seq<byte>): (s: Segs)
    requires |p| == 104
    ensures |s.slot| == SEG_MAX && |s.b| == SEG_MAX - 1 && forall i | 0 <= i < SEG_MAX - 1 :: |s.b[i].route| == MAX_BITS
  {
    Segs(p[0], p[1], p[2], p[3], p[4..8], [BendFrom(p[8..40]), BendFrom(p[40..72]), BendFrom(p[72..])])
  }

  lemma SegsRoundTrip(s: Segs)
    requires SegsFormed(s)
    ensures SegsFrom(SegsBytes(s)) == s
  {
    var p := SegsBytes(s);
    BendRoundTrip(s.b[0]);
    BendRoundTrip(s.b[1]);
    BendRoundTrip(s.b[2]);
    hide BendBytes, BendFrom;
    assert p[8..40] == BendBytes(s.b[0]) && p[40..72] == BendBytes(s.b[1]) && p[72..] == BendBytes(s.b[2]);
    assert p[4..8] == s.slot && s.b == [s.b[0], s.b[1], s.b[2]];
  }

  // ----- The record -----

  const REC_MAX: nat := 204
  const MAGIC: seq<byte> := [0x42, 0x53, 0x48, 0x31]      // "BSH1"
  const VERSION: nat := 3

  datatype Shot = Shot(bend: Recipe, bendOn: bool, chain: Chain, chainOn: bool, segs: Segs)

  ghost predicate ShotFormed(t: Shot) { WellFormed(t.bend) && ChainFormed(t.chain) && SegsFormed(t.segs) }

  // Everything in it would pass its gate unchanged.
  ghost predicate ShotUsable(t: Shot)
    requires ShotFormed(t)
  {
    Usable(t.bend) && ChainUsable(t.chain) && SegsUsable(t.segs)
  }

  function Flags(t: Shot): nat { (if t.bendOn then 1 else 0) + if t.chainOn then 2 else 0 }

  function ShotHeader(t: Shot): (r: seq<byte>)
    ensures |r| == 16
  {
    MAGIC + Put16(VERSION) + Put16(32) + Put16(52) + Put16(Flags(t)) + Put16(104) + Put16(0)
  }

  ghost function Record(t: Shot): (r: seq<byte>)
    requires ShotFormed(t)
    ensures |r| == REC_MAX
  {
    ShotHeader(t) + BendBytes(t.bend) + ChainBytes(t.chain) + SegsBytes(t.segs)
  }

  // Versions 1 and 2 had five more effects: they are turned off, and the later ones move up.
  function UpgradeKind(k: byte): byte {
    if k == 12 || k == 13 || k == 17 || k == 19 || k == 20 then 0
    else if 21 <= k <= 23 then k - 5
    else if k >= 18 then k - 3
    else if k >= 14 then k - 2
    else k
  }

  // The 24 kinds there were: those turned off, and the others in the order they had, from 0 without a gap.
  predicate Retired(k: byte) { k == 12 || k == 13 || k == 17 || k == 19 || k == 20 }

  lemma UpgradeKeepsOrder(a: byte, b: byte)
    requires a < b < 24
    ensures Retired(a) ==> UpgradeKind(a) == BX_OFF
    ensures !Retired(a) && !Retired(b) ==> UpgradeKind(a) < UpgradeKind(b) < BX_COUNT
  {
  }

  // Nothing is lost: every kind there is was one of them.
  lemma UpgradeReaches(k: byte) returns (was: byte)
    requires k < BX_COUNT
    ensures was < 24 && !Retired(was) && UpgradeKind(was) == k
  {
    was := if k < 12 then k else if k < 15 then k + 2 else if k == 15 then 18 else k + 5;
  }

  function Upgraded(c: Chain, ver: nat): (r: Chain)
    requires |c.items| == CHAIN_MAX
    ensures |r.items| == CHAIN_MAX
  {
    if ver >= 3 then c
    else c.(items := seq(CHAIN_MAX, i requires 0 <= i < CHAIN_MAX => c.items[i].(kind := UpgradeKind(c.items[i].kind))))
  }

  function NoSegs(): (s: Segs)
    ensures |s.slot| == SEG_MAX && |s.b| == SEG_MAX - 1 && forall i | 0 <= i < SEG_MAX - 1 :: |s.b[i].route| == MAX_BITS
  {
    SegsFrom(seq(104, _ => 0))
  }

  // What a record of any version the camera understands says, once through the gates.
  function Unpacked(rec: seq<byte>, nbits: byte): Option<Shot> {
    if |rec| < 12 || rec[..4] != MAGIC || Get16(rec[6..]) != 32 || Get16(rec[8..]) != 52 then None
    else
      var ver := Get16(rec[4..]);
      var at: nat := if ver == 1 then 12 else 16;
      if ver < 1 || ver > VERSION then None
      else if ver >= 2 && (|rec| < 16 || Get16(rec[12..]) != 104) then None
      else if |rec| < at + 84 + (if ver >= 2 then 104 else 0) then None
      else
        var flags := Get16(rec[10..]);
        Some(Shot(Sanitized(BendFrom(rec[at..at + 32]), nbits), flags % 2 == 1,
                  CleanChain(Upgraded(ChainFrom(rec[at + 32..at + 84]), ver)), flags / 2 % 2 == 1,
                  CleanSegs(if ver >= 2 then SegsFrom(rec[at + 84..at + 188]) else NoSegs(), nbits)))
  }

  lemma Pieces(t: Shot)
    requires ShotFormed(t)
    ensures var r := Record(t);
      && r[..4] == MAGIC && Get16(r[4..]) == VERSION && Get16(r[6..]) == 32 && Get16(r[8..]) == 52
      && Get16(r[10..]) == Flags(t) && Get16(r[12..]) == 104
      && r[16..48] == BendBytes(t.bend) && r[48..100] == ChainBytes(t.chain) && r[100..204] == SegsBytes(t.segs)
  {
    var r, h := Record(t), ShotHeader(t);
    HeaderWords(t);
    hide BendBytes, ChainBytes, SegsBytes, ShotHeader, Get16;
    var q := BendBytes(t.bend) + ChainBytes(t.chain) + SegsBytes(t.segs);
    assert r == h + q;
    assert r[..4] == h[..4];
    SameWord(h, q, 4);
    SameWord(h, q, 6);
    SameWord(h, q, 8);
    SameWord(h, q, 10);
    SameWord(h, q, 12);
  }

  lemma SameWord(h: seq<byte>, q: seq<byte>, i: nat)
    requires i + 2 <= |h|
    ensures Get16((h + q)[i..]) == Get16(h[i..])
  {
  }

  lemma HeaderWords(t: Shot)
    ensures var h := ShotHeader(t);
      && h[..4] == MAGIC && Get16(h[4..]) == VERSION && Get16(h[6..]) == 32 && Get16(h[8..]) == 52
      && Get16(h[10..]) == Flags(t) && Get16(h[12..]) == 104
  {
  }

  // Byte by byte, from p on: a bend, and an effect.
  ghost predicate BendAt(r: seq<byte>, p: nat, b: Recipe)
    requires p + 32 <= |r| && WellFormed(b)
  {
    && (forall i | 0 <= i < 16 :: r[p + i] == b.route[i])
    && r[p + 16] == b.nbits && r[p + 17] == b.bayer && r[p + 18] == b.rowPeriod && r[p + 19] == b.hdiv
    && r[p + 20] == b.vdiv && r[p + 21] == b.trashType && r[p + 22] == b.trashRate && r[p + 23] == b.depth
    && (r[p + 24] - b.tapDx) % 0x100 == 0 && (r[p + 25] - b.tapDy) % 0x100 == 0
    && r[p + 26] == b.pad[0] && r[p + 27] == b.pad[1]
    && b.seed == r[p + 28] + r[p + 29] as int * 0x100 + r[p + 30] as int * 0x10000 + r[p + 31] as int * 0x1000000
  }

  ghost predicate EffectAt(r: seq<byte>, p: nat, x: Effect)
    requires p + 12 <= |r| && EffectFormed(x)
  {
    && r[p] == x.kind && r[p + 1] == x.amount && r[p + 2] == x.reach && r[p + 3] == x.lanes
    && r[p + 4] == x.mix && r[p + 5] == x.rowmod && r[p + 6] == x.pad[0] && r[p + 7] == x.pad[1]
    && x.seed == r[p + 8] + r[p + 9] as int * 0x100 + r[p + 10] as int * 0x10000 + r[p + 11] as int * 0x1000000
  }

  lemma BendBytesAre(b: Recipe)
    requires WellFormed(b)
    ensures BendAt(BendBytes(b), 0, b)
  {
    Word32(b.seed, []);
    hide Put32, Get32;
  }

  lemma EffectBytesAre(x: Effect)
    requires EffectFormed(x)
    ensures EffectAt(EffectBytes(x), 0, x)
  {
    Word32(x.seed, []);
    hide Put32, Get32;
  }

  lemma BendMoved(r: seq<byte>, p: nat, s: seq<byte>, b: Recipe)
    requires WellFormed(b) && |s| == 32 && BendAt(s, 0, b) && p + 32 <= |r| && r[p..p + 32] == s
    ensures BendAt(r, p, b)
  {
    forall i | 0 <= i < 32 ensures r[p + i] == s[i] { assert r[p..p + 32][i] == r[p + i]; }
  }

  lemma EffectMoved(r: seq<byte>, p: nat, s: seq<byte>, x: Effect)
    requires EffectFormed(x) && |s| == 12 && EffectAt(s, 0, x) && p + 12 <= |r| && r[p..p + 12] == s
    ensures EffectAt(r, p, x)
  {
    forall i | 0 <= i < 12 ensures r[p + i] == s[i] { assert r[p..p + 12][i] == r[p + i]; }
  }

  lemma HeaderIs(t: Shot)
    requires ShotFormed(t)
    ensures Record(t)[..16] == ['B' as int, 'S' as int, 'H' as int, '1' as int, 3, 0, 32, 0, 52, 0,
                                (if t.bendOn then 1 else 0) + (if t.chainOn then 2 else 0), 0, 104, 0, 0, 0]
  {
    var h := ShotHeader(t);
    hide BendBytes, ChainBytes, SegsBytes;
    assert Record(t)[..16] == h;
  }

  lemma EffectPlaced(r: seq<byte>, c: Chain, i: nat)
    requires ChainFormed(c) && |r| == REC_MAX && r[48..100] == ChainBytes(c) && i < 4
    ensures EffectAt(r, 48 + 12 * i, c.items[i])
  {
    var x, k := c.items[i], 12 * i;
    ChainPieces(c);
    EffectBytesAre(x);
    hide ChainBytes, EffectBytes, EffectAt, EffectFormed;
    SliceOfSlice(r, 48, 100, k, k + 12);
    EffectMoved(r, 48 + k, EffectBytes(x), x);
  }

  lemma ChainPlaced(r: seq<byte>, c: Chain)
    requires ChainFormed(c) && |r| == REC_MAX && r[48..100] == ChainBytes(c)
    ensures (forall i | 0 <= i < 4 :: EffectAt(r, 48 + 12 * i, c.items[i])) && r[96] == c.n && r[97..100] == c.pad
  {
    forall i | 0 <= i < 4 ensures EffectAt(r, 48 + 12 * i, c.items[i]) { EffectPlaced(r, c, i); }
    ChainPieces(c);
    hide ChainBytes, EffectBytes, EffectAt, EffectFormed;
    SliceOfSlice(r, 48, 100, 49, 52);
    assert r[48..100][48] == r[96];
  }

  lemma SegPlaced(r: seq<byte>, s: Segs, i: nat)
    requires SegsFormed(s) && |r| == REC_MAX && r[100..204] == SegsBytes(s) && i < 3
    ensures BendAt(r, 108 + 32 * i, s.b[i])
  {
    var b, k := s.b[i], 8 + 32 * i;
    SegsPieces(s);
    BendBytesAre(b);
    hide SegsBytes, BendBytes, BendAt, WellFormed;
    SliceOfSlice(r, 100, 204, k, k + 32);
    BendMoved(r, 100 + k, BendBytes(b), b);
  }

  lemma SegsPlaced(r: seq<byte>, s: Segs)
    requires SegsFormed(s) && |r| == REC_MAX && r[100..204] == SegsBytes(s)
    ensures r[100] == s.layout && r[101] == s.active && r[102] == s.size && r[103] == s.pad && r[104..108] == s.slot
    ensures forall i | 0 <= i < 3 :: BendAt(r, 108 + 32 * i, s.b[i])
  {
    forall i | 0 <= i < 3 ensures BendAt(r, 108 + 32 * i, s.b[i]) { SegPlaced(r, s, i); }
    SegsPieces(s);
    hide SegsBytes, BendBytes, BendAt, WellFormed;
    SliceOfSlice(r, 100, 204, 4, 8);
    assert forall i | 0 <= i < 4 :: r[100..204][i] == r[100 + i];
  }

  lemma BendPlaced(t: Shot)
    requires ShotFormed(t)
    ensures BendAt(Record(t), 16, t.bend)
  {
    Pieces(t);
    BendBytesAre(t.bend);
    hide Record, BendBytes, BendAt, WellFormed;
    BendMoved(Record(t), 16, BendBytes(t.bend), t.bend);
  }

  lemma SegsPieces(s: Segs)
    requires SegsFormed(s)
    ensures var p := SegsBytes(s);
      && p[0] == s.layout && p[1] == s.active && p[2] == s.size && p[3] == s.pad && p[4..8] == s.slot
      && p[8..40] == BendBytes(s.b[0]) && p[40..72] == BendBytes(s.b[1]) && p[72..104] == BendBytes(s.b[2])
  {
    hide BendBytes;
    var p := SegsBytes(s);
    assert p[8..40] == BendBytes(s.b[0]) && p[40..72] == BendBytes(s.b[1]) && p[72..104] == BendBytes(s.b[2]);
  }

  // Where everything is in a record.
  lemma RecordLayout(t: Shot)
    requires ShotFormed(t)
    ensures var r := Record(t);
      && r[..16] == ['B' as int, 'S' as int, 'H' as int, '1' as int, 3, 0, 32, 0, 52, 0,
                     (if t.bendOn then 1 else 0) + (if t.chainOn then 2 else 0), 0, 104, 0, 0, 0]
      && BendAt(r, 16, t.bend) && (forall i | 0 <= i < 4 :: EffectAt(r, 48 + 12 * i, t.chain.items[i]))
      && r[96] == t.chain.n && r[97..100] == t.chain.pad
      && r[100] == t.segs.layout && r[101] == t.segs.active && r[102] == t.segs.size && r[103] == t.segs.pad
      && r[104..108] == t.segs.slot && (forall i | 0 <= i < 3 :: BendAt(r, 108 + 32 * i, t.segs.b[i]))
  {
    hide *;
    var r := Record(t);
    ShotParts(t);
    Pieces(t);
    HeaderIs(t);
    BendPlaced(t);
    ChainPlaced(r, t.chain);
    SegsPlaced(r, t.segs);
  }

  // The state once each of its pieces has passed its gate.
  ghost function Gated(t: Shot, nbits: byte): Shot
    requires ShotFormed(t)
  {
    Shot(Sanitized(t.bend, nbits), t.bendOn, CleanChain(t.chain), t.chainOn, CleanSegs(t.segs, nbits))
  }

  // A record gives back the gated state: what was put in it exactly when every piece would pass its gate
  // unchanged; the two switches come back in any case.
  lemma ShotRoundTrip(t: Shot, nbits: byte)
    requires ShotFormed(t) && 2 <= nbits <= MAX_BITS
    ensures Unpacked(Record(t), nbits) == Some(Gated(t, nbits))
    ensures Gated(t, nbits).bendOn == t.bendOn && Gated(t, nbits).chainOn == t.chainOn
    ensures Gated(t, nbits) == t <==> ShotUsable(t)
  {
    hide *;
    var r := Record(t);
    ShotParts(t);
    GatedIs(t, nbits);
    Pieces(t);
    BendRoundTrip(t.bend);
    ChainRoundTrip(t.chain);
    SegsRoundTrip(t.segs);
    SanitizedKeepsUsable(t.bend, nbits);
    ChainKept(t.chain);
    SegsKept(t.segs, nbits);
    UnpackedNew(r, nbits);
    FlagsAre(t);
  }

  lemma GatedIs(t: Shot, nbits: byte)
    requires ShotFormed(t)
    ensures Gated(t, nbits) == Shot(Sanitized(t.bend, nbits), t.bendOn, CleanChain(t.chain), t.chainOn, CleanSegs(t.segs, nbits))
  {
  }

  // The two states differ at most in routes above a bend's own width.
  ghost predicate SameShot(t: Shot, u: Shot)
    requires ShotFormed(t) && ShotFormed(u)
  {
    && SameLines(t.bend, u.bend) && u.bendOn == t.bendOn && u.chain == t.chain && u.chainOn == t.chainOn
    && u.segs == t.segs.(b := u.segs.b) && forall i | 0 <= i < SEG_MAX - 1 :: SameLines(t.segs.b[i], u.segs.b[i])
  }

  // A state that has passed the gates comes back with the same lines, the same chain and the same layout,
  // whatever the camera's width; also one that a gate had to reset.
  lemma GatedRoundTrip(t: Shot, nbits: byte)
    requires ShotFormed(t) && 2 <= nbits <= MAX_BITS
    ensures var g := Gated(t, nbits);
      && ShotFormed(g) && ShotFormed(Gated(g, nbits))
      && Unpacked(Record(g), nbits) == Some(Gated(g, nbits)) && SameShot(g, Gated(g, nbits))
  {
    hide Sanitized, CleanChain, CleanSegs, SameLines, SameShot, Unpacked, Record, Gated, ShotUsable, ChainUsable;
    GatedFormed(t, nbits);
    var g := Gated(t, nbits);
    GatedFormed(g, nbits);
    ShotRoundTrip(g, nbits);
    GatedIs(t, nbits);
    GatedIs(g, nbits);
    ChainKept(t.chain);
    ChainKept(g.chain);
    SanitizedAgain(t.bend, nbits);
    SegsAgain(t.segs, nbits);
    SameShotIs(g, Gated(g, nbits));
  }

  // A ten-bit camera that has been reset does not get the same state back: bit 15 comes back rewired.
  lemma ResetNotKept(t: Shot)
    requires ShotFormed(t) && t.bend == Reset(10)
    ensures Unpacked(Record(t), 10) == Some(Gated(t, 10)) && t.bend.route[15] == 15 && Gated(t, 10).bend.route[15] == 9
  {
    ShotRoundTrip(t, 10);
    GatedIs(t, 10);
    hide Record, Unpacked, ShotFormed, Gated;
    assert Sanitized(Reset(10), 10).route[15] == CleanRoute(15, 15, 10);
  }

  lemma SameShotIs(t: Shot, u: Shot)
    requires ShotFormed(t) && ShotFormed(u)
    requires SameLines(t.bend, u.bend) && u.bendOn == t.bendOn && u.chain == t.chain && u.chainOn == t.chainOn
    requires u.segs == t.segs.(b := u.segs.b)
    requires forall i | 0 <= i < SEG_MAX - 1 ::
               WellFormed(t.segs.b[i]) && WellFormed(u.segs.b[i]) && SameLines(t.segs.b[i], u.segs.b[i])
    ensures SameShot(t, u)
  {
    hide SameLines;
  }

  lemma SegsAgain(s: Segs, nbits: byte)
    requires SegsFormed(s) && 2 <= nbits <= MAX_BITS
    ensures SegsFormed(CleanSegs(s, nbits)) && SegsFormed(CleanSegs(CleanSegs(s, nbits), nbits))
    ensures var c, d := CleanSegs(s, nbits), CleanSegs(CleanSegs(s, nbits), nbits);
      d == c.(b := d.b) && forall i | 0 <= i < SEG_MAX - 1 :: SameLines(c.b[i], d.b[i])
  {
    forall i | 0 <= i < SEG_MAX - 1
      ensures WellFormed(Sanitized(s.b[i], nbits)) && WellFormed(Sanitized(Sanitized(s.b[i], nbits), nbits))
      ensures SameLines(Sanitized(s.b[i], nbits), Sanitized(Sanitized(s.b[i], nbits), nbits))
    {
      SanitizedAgain(s.b[i], nbits);
    }
    hide Sanitized, SameLines, WellFormed;
    var c, d := CleanSegs(s, nbits), CleanSegs(CleanSegs(s, nbits), nbits);
    assert c.slot == d.slot;
    assert forall i | 0 <= i < SEG_MAX - 1 :: c.b[i] == Sanitized(s.b[i], nbits) && d.b[i] == Sanitized(c.b[i], nbits);
  }

  lemma GatedFormed(t: Shot, nbits: byte)
    requires ShotFormed(t) && 2 <= nbits <= MAX_BITS
    ensures ShotFormed(Gated(t, nbits))
  {
    SanitizedIsUsable(t.bend, nbits);
    SegsAgain(t.segs, nbits);
    CleanFormed(t.chain);
    hide Sanitized, CleanChain, CleanSegs, Usable, WellFormed, ChainFormed, SegsFormed;
  }

  lemma CleanFormed(c: Chain)
    requires ChainFormed(c)
    ensures ChainFormed(CleanChain(c))
  {
    var d := Chain(seq(CHAIN_MAX, i requires 0 <= i < CHAIN_MAX => CleanEffect(c.items[i])),
                   if c.n > CHAIN_MAX then 0 else c.n, c.pad);
    HolesFormed(d, 0);
    hide CloseHoles;
  }

  lemma {:induction false} HolesFormed(c: Chain, i: nat)
    requires ChainFormed(c) && c.n <= CHAIN_MAX
    ensures ChainFormed(CloseHoles(c, i))
    decreases c.n + CHAIN_MAX - i
  {
    if i >= c.n {
    } else if IsOff(c.items[i]) {
      var d := Remove(c, i);
      forall k | 0 <= k < CHAIN_MAX ensures EffectFormed(d.items[k]) {
        assert d.items[k] == if k < i then c.items[k] else if k < CHAIN_MAX - 1 then c.items[k + 1] else ResetEffect();
      }
      HolesFormed(d, i);
    } else {
      HolesFormed(c, i + 1);
    }
  }

  lemma ShotParts(t: Shot)
    requires ShotFormed(t)
    ensures WellFormed(t.bend) && ChainFormed(t.chain) && SegsFormed(t.segs) && |t.chain.items| == CHAIN_MAX
    ensures ShotUsable(t) == (Usable(t.bend) && ChainUsable(t.chain) && SegsUsable(t.segs))
  {
  }

  lemma FlagsAre(t: Shot)
    ensures (Flags(t) % 2 == 1) == t.bendOn && (Flags(t) / 2 % 2 == 1) == t.chainOn
  {
  }

  // A record of this version, read.
  lemma UnpackedNew(r: seq<byte>, nbits: byte)
    requires |r| == REC_MAX && r[..4] == MAGIC && Get16(r[4..]) == VERSION
    requires Get16(r[6..]) == 32 && Get16(r[8..]) == 52 && Get16(r[12..]) == 104
    ensures Unpacked(r, nbits) ==
      Some(Shot(Sanitized(BendFrom(r[16..48]), nbits), Get16(r[10..]) % 2 == 1, CleanChain(ChainFrom(r[48..100])),
                Get16(r[10..]) / 2 % 2 == 1, CleanSegs(SegsFrom(r[100..204]), nbits)))
  {
    hide BendFrom, ChainFrom, SegsFrom, Sanitized, CleanChain, CleanSegs, Get16;
  }

  // ----- The program -----

  // The items while those behind item i move down, up to item k.
  ghost function Moved(s: seq<Effect>, i: nat, k: nat): (r: seq<Effect>)
    requires |s| == CHAIN_MAX && i <= k < CHAIN_MAX
    ensures |r| == CHAIN_MAX
  {
    s[..i] + s[i + 1..k + 1] + s[k..]
  }

  lemma MovedDown(s: seq<Effect>, i: nat, k: nat)
    requires |s| == CHAIN_MAX && i <= k < CHAIN_MAX
    ensures Moved(s, i, i) == s
    ensures k < CHAIN_MAX - 1 ==> Moved(s, i, k)[k := Moved(s, i, k)[k + 1]] == Moved(s, i, k + 1)
    ensures k == CHAIN_MAX - 1 ==> Moved(s, i, k)[k := ResetEffect()] == s[..i] + s[i + 1..] + [ResetEffect()]
  {
  }

  // A chain, gated where it lies.
  class ChainCell {
    var c: Chain

    constructor (c: Chain)
      ensures this.c == c
    {
      this.c := c;
    }

    method SanitizeItem(i: nat)
      requires i < |c.items|
      modifies this
      ensures c == old(c).(items := old(c).items[i := CleanEffect(old(c).items[i])])
    {
      var x := c.items[i];
      if x.kind >= BX_COUNT {
        x := ResetEffect();
      } else {
        if x.amount > AmountMax(x.kind) { x := x.(amount := AmountMax(x.kind)); }
        if x.reach > ReachMax(x.kind) { x := x.(reach := ReachMax(x.kind)); }
        if x.mix >= BXMIX_COUNT { x := x.(mix := 0); }
        if x.rowmod > 64 { x := x.(rowmod := 0); }
        if x.seed == 0 { x := x.(seed := 0xb1a5ed); }
      }
      c := c.(items := c.items[i := x]);
    }

    method RemoveItem(i: nat)
      requires |c.items| == CHAIN_MAX && i < c.n <= CHAIN_MAX
      modifies this
      ensures c == Remove(old(c), i)
    {
      ghost var was := c.items;
      var items := c.items;
      MovedDown(was, i, i);
      for k := i to CHAIN_MAX - 1
        invariant items == Moved(was, i, k)
        modifies {}
      {
        MovedDown(was, i, k);
        items := items[k := items[k + 1]];
      }
      MovedDown(was, i, CHAIN_MAX - 1);
      c := c.(items := items[CHAIN_MAX - 1 := ResetEffect()], n := c.n - 1);
    }

    method Sanitize()
      requires |c.items| == CHAIN_MAX
      modifies this
      ensures c == CleanChain(old(c))
    {
      hide CloseHoles, CleanEffect;
      if c.n > CHAIN_MAX { c := c.(n := 0); }
      ghost var was := c.items;
      SanitizeItems();
      assert c.items == seq(CHAIN_MAX, i requires 0 <= i < CHAIN_MAX => CleanEffect(was[i]));
      CloseUp();
    }

    method SanitizeItems()
      requires |c.items| == CHAIN_MAX
      modifies this
      ensures |c.items| == CHAIN_MAX && c == old(c).(items := c.items)
      ensures forall i | 0 <= i < CHAIN_MAX :: c.items[i] == CleanEffect(old(c).items[i])
    {
      hide CleanEffect;
      ghost var was := c;
      for i := 0 to CHAIN_MAX
        invariant |c.items| == CHAIN_MAX && c == was.(items := c.items)
        invariant forall j | 0 <= j < CHAIN_MAX :: c.items[j] == if j < i then CleanEffect(was.items[j]) else was.items[j]
      {
        SanitizeItem(i);
      }
    }

    method CloseUp()
      requires |c.items| == CHAIN_MAX && c.n <= CHAIN_MAX
      modifies this
      ensures c == CloseHoles(old(c), 0)
    {
      ghost var d := c;
      var i := 0;
      while i < c.n
        invariant |c.items| == CHAIN_MAX && c.n <= CHAIN_MAX && CloseHoles(c, i) == CloseHoles(d, 0)
        decreases c.n + CHAIN_MAX - i
      {
        if IsOff(c.items[i]) { RemoveItem(i); } else { i := i + 1; }
      }
    }
  }

  // Writes the record into a buffer that has room for it.
  method Pack(out: array<byte>, t: Shot) returns (n: nat)
    requires ShotFormed(t)
    modifies out
    ensures out.Length < REC_MAX ==> n == 0 && out[..] == old(out[..])
    ensures out.Length >= REC_MAX ==> n == REC_MAX && out[..n] == Record(t)
  {
    if out.Length < REC_MAX { return 0; }
    ghost var r := Record(t);
    PackedParts(t);
    hide Put16, BendBytes, ChainBytes, SegsBytes, Record, ShotHeader;
    CopyTo(out, 0, MAGIC);
    CopyTo(out, 4, Put16(VERSION));
    CopyTo(out, 6, Put16(32));
    CopyTo(out, 8, Put16(52));
    CopyTo(out, 10, Put16(Flags(t)));
    CopyTo(out, 12, Put16(104));
    CopyTo(out, 14, Put16(0));
    assert out[..0] + MAGIC == MAGIC;
    n := 16;
    CopyTo(out, n, BendBytes(t.bend));
    n := n + 32;
    CopyTo(out, n, ChainBytes(t.chain));
    n := n + 52;
    CopyTo(out, n, SegsBytes(t.segs));
    n := n + 104;
  }

  lemma PackedParts(t: Shot)
    requires ShotFormed(t)
    ensures Record(t) == MAGIC + Put16(VERSION) + Put16(32) + Put16(52) + Put16(Flags(t)) + Put16(104) + Put16(0)
                         + BendBytes(t.bend) + ChainBytes(t.chain) + SegsBytes(t.segs)
  {
  }
}

/** A bend: for every output bit, where its value comes from (chdk-src/include/bend.h:17-97), and the
    gate every stored bend passes through (chdk-src/core/bend.c:82-154). */
module Bend {
  import opened Words

  const MAX_BITS: nat := 16
  const BUS_COUNT: nat := 12
  const BUS_NOISE: byte := 7
  const TRASH_COUNT: nat := 5

  const C_DATA: nat := 0
  const C_NDATA: nat := 1
  const C_TIE: nat := 2
  const C_BUS: nat := 3
  const C_NBUS: nat := 4

  // One byte per route: the class in the high nibble, a pin or bus number in the low one.
  function Class(src: byte): nat { src / 16 }

  function Index(src: byte): nat { src % 16 }

  function Source(class_: nat, idx: nat): byte
    requires class_ < 16 && idx < 16
  {
    16 * class_ + idx
  }

  datatype Recipe = Recipe(
    route: seq<byte>, nbits: byte, bayer: byte, rowPeriod: byte, hdiv: byte, vdiv: byte, trashType: byte,
    trashRate: byte, depth: byte, tapDx: int, tapDy: int, pad: seq<byte>, seed: nat)

  ghost predicate WellFormed(b: Recipe) {
    && |b.route| == MAX_BITS && |b.pad| == 2 && b.seed < 0x1_0000_0000
    && -128 <= b.tapDx < 128 && -128 <= b.tapDy < 128
  }

  // ----- What a usable bend is -----

  predicate RouteUsable(src: byte, nbits: nat) {
    var c, k := Class(src), Index(src);
    if c == C_DATA || c == C_NDATA then k < nbits
    else if c == C_TIE then k <= 1
    else (c == C_BUS || c == C_NBUS) && k < BUS_COUNT
  }

  ghost predicate Usable(b: Recipe)
    requires WellFormed(b)
  {
    && 2 <= b.nbits <= MAX_BITS
    && (forall i | 0 <= i < MAX_BITS :: RouteUsable(b.route[i], b.nbits))
    && b.bayer <= 4 && b.hdiv <= 12 && b.vdiv <= 12 && b.trashType < TRASH_COUNT && b.trashRate <= 12
    && 1 <= b.depth <= MAX_BITS && b.seed != 0
  }

  // Every line the bend is authored for has a usable route; the routes above its width are not read.
  ghost predicate LinesUsable(b: Recipe)
    requires WellFormed(b)
  {
    2 <= b.nbits <= MAX_BITS && forall i | 0 <= i < b.nbits :: RouteUsable(b.route[i], b.nbits)
  }

  // The two bends differ at most in the routes above their width.
  ghost predicate SameLines(b: Recipe, c: Recipe)
    requires WellFormed(b) && WellFormed(c)
  {
    c == b.(route := c.route) && b.nbits <= MAX_BITS && forall i | 0 <= i < b.nbits :: c.route[i] == b.route[i]
  }

  // ----- The gate -----

  function CleanRoute(src: byte, i: nat, nbits: byte): byte
    requires 2 <= nbits <= MAX_BITS
  {
    var c, k := Class(src), Index(src);
    if c == C_DATA || c == C_NDATA then (if k >= nbits then Source(c, nbits - 1) else src)
    else if c == C_TIE then Source(C_TIE, if k % 2 == 1 then 1 else 0)
    else if c == C_BUS || c == C_NBUS then (if k >= BUS_COUNT then Source(c, BUS_NOISE) else src)
    else Source(C_DATA, if i < nbits then i else nbits - 1)
  }

  function Reset(nbits: byte): Recipe {
    Recipe(seq(MAX_BITS, i requires 0 <= i < MAX_BITS => i), nbits, 0, 0, 3, 3, 0, 0, 3, 17, -3, [0, 0], 0x5eed1e55)
  }

  function CleanFields(b: Recipe): Recipe {
    b.(bayer := if b.bayer > 4 then 0 else b.bayer,
       hdiv := if b.hdiv > 12 then 3 else b.hdiv,
       vdiv := if b.vdiv > 12 then 3 else b.vdiv,
       trashType := if b.trashType >= TRASH_COUNT then 0 else b.trashType,
       trashRate := if b.trashRate > 12 then 0 else b.trashRate,
       depth := if b.depth < 1 || b.depth > MAX_BITS then 3 else b.depth,
       seed := if b.seed == 0 then 0x5eed1e55 else b.seed)
  }

  function Sanitized(b: Recipe, nbits: byte): Recipe
    requires |b.route| == MAX_BITS
  {
    if b.nbits < 2 || b.nbits > MAX_BITS then Reset(nbits)
    else CleanFields(b.(route := seq(MAX_BITS, i requires 0 <= i < MAX_BITS => CleanRoute(b.route[i], i, b.nbits))))
  }

  // A bend that its owner edits in place.
  class Cell {
    var b: Recipe

    constructor (b: Recipe)
      ensures this.b == b
    {
      this.b := b;
    }

    method Sanitize(nbits: byte)
      requires |b.route| == MAX_BITS
      modifies this
      ensures b == Sanitized(old(b), nbits)
    {
      if b.nbits < 2 || b.nbits > MAX_BITS {
        b := Reset(nbits);
        return;
      }
      ghost var was := b.route;
      for i := 0 to MAX_BITS
        invariant |b.route| == MAX_BITS && b == old(b).(route := b.route)
        invariant forall j | 0 <= j < MAX_BITS :: b.route[j] == if j < i then CleanRoute(was[j], j, b.nbits) else was[j]
      {
        var src := b.route[i];
        var idx := Index(src);
        var c := Class(src);
        if c == C_DATA || c == C_NDATA {
          if idx >= b.nbits { b := b.(route := b.route[i := Source(c, b.nbits - 1)]); }
        } else if c == C_TIE {
          b := b.(route := b.route[i := Source(C_TIE, idx % 2)]);
        } else if c == C_BUS || c == C_NBUS {
          if idx >= BUS_COUNT { b := b.(route := b.route[i := Source(c, BUS_NOISE)]); }
        } else {
          b := b.(route := b.route[i := Source(C_DATA, if i < b.nbits then i else b.nbits - 1)]);
        }
      }
      assert b.route == Sanitized(old(b), nbits).route;
      if b.bayer > 4 { b := b.(bayer := 0); }
      if b.hdiv > 12 { b := b.(hdiv := 3); }
      if b.vdiv > 12 { b := b.(vdiv := 3); }
      if b.trashType >= TRASH_COUNT { b := b.(trashType := 0); }
      if b.trashRate > 12 { b := b.(trashRate := 0); }
      if b.depth < 1 || b.depth > MAX_BITS { b := b.(depth := 3); }
      if b.seed == 0 { b := b.(seed := 0x5eed1e55); }
    }
  }

  // ----- What the gate gives -----

  // The gate leaves a bend alone exactly when it is usable.
  lemma SanitizedKeepsUsable(b: Recipe, nbits: byte)
    requires WellFormed(b) && 2 <= nbits <= MAX_BITS
    ensures Sanitized(b, nbits) == b <==> Usable(b)
  {
    if Sanitized(b, nbits) == b {
      forall i | 0 <= i < MAX_BITS ensures RouteUsable(b.route[i], b.nbits) {
        assert Sanitized(b, nbits).route[i] == CleanRoute(b.route[i], i, b.nbits);
      }
    }
    if Usable(b) {
      assert forall i | 0 <= i < MAX_BITS :: CleanRoute(b.route[i], i, b.nbits) == b.route[i];
      assert Sanitized(b, nbits).route == b.route;
    }
  }

  // The bend that comes out of the gate is usable, and so passes it again unchanged, unless it had to
  // be replaced: the replacement routes every bit to its own pin, also those above a narrower bus.
  lemma SanitizedIsUsable(b: Recipe, nbits: byte)
    requires WellFormed(b) && 2 <= nbits <= MAX_BITS
    ensures WellFormed(Sanitized(b, nbits))
    ensures Usable(Sanitized(b, nbits)) <==> 2 <= b.nbits <= MAX_BITS || nbits == MAX_BITS
  {
    var s := Sanitized(b, nbits);
    if 2 <= b.nbits <= MAX_BITS {
      forall i | 0 <= i < MAX_BITS ensures RouteUsable(s.route[i], s.nbits) {
        assert s.route[i] == CleanRoute(b.route[i], i, b.nbits);
      }
    } else {
      assert s.route[15] == 15;
    }
  }

  // A second pass changes the bend only after such a replacement.
  lemma SanitizeTwice(b: Recipe, nbits: byte)
    requires WellFormed(b) && 2 <= nbits <= MAX_BITS
    ensures Sanitized(Sanitized(b, nbits), nbits) == Sanitized(b, nbits)
            <==> 2 <= b.nbits <= MAX_BITS || nbits == MAX_BITS
  {
    SanitizedIsUsable(b, nbits);
    SanitizedKeepsUsable(Sanitized(b, nbits), nbits);
  }

  // After a replacement on a ten-bit camera, the second pass rewires bit 15.
  lemma SanitizeTwiceExample()
    ensures var b := Recipe(seq(16, _ => 0), 0, 0, 0, 0, 0, 0, 0, 0, 0, 0, [0, 0], 0);
      && Sanitized(b, 10).route[15] == 15
      && Sanitized(Sanitized(b, 10), 10).route[15] == 9
  {
    var b := Recipe(seq(16, _ => 0), 0, 0, 0, 0, 0, 0, 0, 0, 0, 0, [0, 0], 0);
    assert Sanitized(b, 10) == Reset(10);
    assert Sanitized(Reset(10), 10).route[15] == CleanRoute(15, 15, 10);
  }

  // Either way, every line the bend is authored for has a usable route.
  lemma SanitizedRoutes(b: Recipe, nbits: byte)
    requires WellFormed(b) && 2 <= nbits <= MAX_BITS
    ensures WellFormed(Sanitized(b, nbits)) && LinesUsable(Sanitized(b, nbits))
  {
    SanitizedIsUsable(b, nbits);
  }

  // So a second pass changes nothing that is read.
  lemma SanitizedAgain(b: Recipe, nbits: byte)
    requires WellFormed(b) && 2 <= nbits <= MAX_BITS
    ensures WellFormed(Sanitized(b, nbits)) && WellFormed(Sanitized(Sanitized(b, nbits), nbits))
    ensures SameLines(Sanitized(b, nbits), Sanitized(Sanitized(b, nbits), nbits))
  {
    var c := Sanitized(b, nbits);
    SanitizedIsUsable(b, nbits);
    SanitizedIsUsable(c, nbits);
    SanitizedRoutes(b, nbits);
    forall i | 0 <= i < c.nbits ensures Sanitized(c, nbits).route[i] == c.route[i] {
      assert Sanitized(c, nbits).route[i] == CleanRoute(c.route[i], i, c.nbits);
    }
    SanitizeTwice(b, nbits);
  }
}

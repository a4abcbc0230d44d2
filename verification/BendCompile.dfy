/** What a bend means, bit by bit, and how it flips (chdk-src/core/bend.c:57-78, 274-311, 384-418). */
module BendMeaning {
  import opened Bend
  import opened Bits
  import opened Words

  // What one output line is connected to.
  datatype Wire =
    | Pin(pin: nat, inverted: bool)
    | Rail(high: bool)
    | Bus(bus: nat, inverted: bool)

  // The per-pixel inputs the applier samples.
  datatype Inputs = Inputs(prev: nat, above: nat, ob: nat, tap: nat, noise: nat, frame: nat)

  // Bits correspond by their distance from the top.  Negative when there is no counterpart.
  function Counterpart(i: int, from: int, to: int): int { i - from + to }

  // The line bit i of a `to`-bit word is connected to by a bend authored at `from` bits.
  function WireOf(b: Recipe, from: nat, i: nat, to: nat): (w: Wire)
    requires |b.route| == MAX_BITS && from <= MAX_BITS && i < to <= MAX_BITS
    ensures w.Pin? ==> w.pin < to
    ensures w.Bus? ==> w.bus < BUS_COUNT
  {
    var ai := Counterpart(i, to, from);
    if ai < 0 then Pin(i, false)      // the bend says nothing about this bit: straight through
    else WireOfSource(b.route[ai], from, i, to)
  }

  function WireOfSource(src: byte, from: nat, i: nat, to: nat): (w: Wire)
    requires i < to
    ensures w.Pin? ==> w.pin < to
    ensures w.Bus? ==> w.bus < BUS_COUNT
  {
    var c, k := Class(src), Index(src);
    if c == C_DATA || c == C_NDATA then
      var p := Counterpart(k, from, to);
      // a pin that falls off the bottom of a narrower bus reads the lowest line
      Pin(if 0 <= p < to then p else if from > to then 0 else to - 1, c == C_NDATA)
    else if c == C_TIE then Rail(k % 2 == 1)
    else if c == C_BUS || c == C_NBUS then Bus(if k < BUS_COUNT then k else BUS_NOISE, c == C_NBUS)
    else Pin(i, false)
  }

  // What the bytes of a route say: the pins in place and inverted, the two rails, the buses in place and
  // inverted.
  lemma RouteBytes(k: nat, i: nat, n: nat)
    requires i < n <= MAX_BITS
    ensures k < n ==> WireOfSource(k, n, i, n) == Pin(k, false) && WireOfSource(0x10 + k, n, i, n) == Pin(k, true)
    ensures WireOfSource(0x20, n, i, n) == Rail(false) && WireOfSource(0x21, n, i, n) == Rail(true)
    ensures k < 12 ==> WireOfSource(0x30 + k, n, i, n) == Bus(k, false) && WireOfSource(0x40 + k, n, i, n) == Bus(k, true)
  {
  }

  // Whether an odd number of the low n bits of v is set.
  function OddBits(v: nat, n: nat): bool {
    n > 0 && Bit(v, n - 1) != OddBits(v, n - 1)
  }

  // The signal bus k puts on bit i.
  function Signal(k: nat, i: nat, v: nat, nbits: nat, hdiv: nat, vdiv: nat, x: nat, y: nat, s: Inputs): bool {
    match k
    case 0 => Bit(x, 0)
    case 1 => Bit(x, hdiv)
    case 2 => Bit(y, 0)
    case 3 => Bit(y, vdiv)
    case 4 => Bit(s.frame, 0)
    case 5 => Bit(x, 0) != Bit(y, 0)
    case 6 => Bit(s.ob, i)
    case 7 => Bit(s.noise, i)
    case 8 => Bit(s.prev, i)
    case 9 => Bit(s.above, i)
    case 10 => OddBits(v, nbits)
    case 11 => Bit(s.tap, i)
    case _ => false
  }

  // The value a wire puts on bit i of the output when the bus carries v.
  function Carried(w: Wire, i: nat, v: nat, nbits: nat, hdiv: nat, vdiv: nat, x: nat, y: nat, s: Inputs): bool {
    match w
    case Pin(p, inverted) => Bit(v, p) != inverted
    case Rail(high) => high
    case Bus(k, inverted) => Signal(k, i, v, nbits, hdiv, vdiv, x, y, s) != inverted
  }

  function Flipped(w: Wire): Wire {
    match w
    case Pin(p, inverted) => Pin(p, !inverted)
    case Rail(high) => Rail(!high)
    case Bus(k, inverted) => Bus(k, !inverted)
  }

  // ----- Reading a source on the wrong polarity -----

  function Invert(src: byte): byte {
    var c, k := Class(src), Index(src);
    if c == C_DATA then Source(C_NDATA, k)
    else if c == C_NDATA then Source(C_DATA, k)
    else if c == C_TIE then Source(C_TIE, if k % 2 == 1 then 0 else 1)
    else if c == C_BUS then Source(C_NBUS, k)
    else if c == C_NBUS then Source(C_BUS, k)
    else src
  }

  // Inverting twice gives the source back, except that a tie keeps only which rail it is on.
  lemma InvertTwice(src: byte)
    ensures Invert(Invert(src)) == src <==> Class(src) != C_TIE || Index(src) <= 1
    ensures Class(src) <= C_NBUS ==> (forall n :: RouteUsable(src, n) ==> RouteUsable(Invert(src), n))
  {
  }

  // The bend after XOR with a mask at its own width.
  function Xored(b: Recipe, mask: nat): Recipe
    requires |b.route| == MAX_BITS && b.nbits <= MAX_BITS
  {
    b.(route := seq(MAX_BITS, i requires 0 <= i < MAX_BITS =>
         if i < b.nbits && Bit(mask, i) then Invert(b.route[i]) else b.route[i]))
  }

  // Every line the mask names has its polarity flipped, at whatever width it is used; no other line moves.
  lemma XorFlipsWires(b: Recipe, mask: nat, i: nat, to: nat)
    requires WellFormed(b) && 2 <= b.nbits <= MAX_BITS && i < to <= MAX_BITS
    ensures var ai := Counterpart(i, to, b.nbits);
      var w, w' := WireOf(b, b.nbits, i, to), WireOf(Xored(b, mask), b.nbits, i, to);
      if ai >= 0 && Bit(mask, ai) && Class(b.route[ai]) <= C_NBUS then w' == Flipped(w) else w' == w
  {
  }

  lemma FlippedCarries(w: Wire, i: nat, v: nat, nbits: nat, hdiv: nat, vdiv: nat, x: nat, y: nat, s: Inputs)
    ensures Carried(Flipped(w), i, v, nbits, hdiv, vdiv, x, y, s) != Carried(w, i, v, nbits, hdiv, vdiv, x, y, s)
  {
  }

  // XOR with the same mask twice restores every bend whose lines are usable, as every bend that has
  // passed the gate has them; and they stay usable.
  lemma XorTwice(b: Recipe, mask: nat)
    requires WellFormed(b) && LinesUsable(b)
    ensures LinesUsable(Xored(b, mask)) && (Usable(b) ==> Usable(Xored(b, mask)))
    ensures Xored(Xored(b, mask), mask) == b
  {
    var c := Xored(b, mask);
    forall i | 0 <= i < MAX_BITS
      ensures i < b.nbits || Usable(b) ==> RouteUsable(c.route[i], b.nbits)
      ensures Xored(c, mask).route[i] == b.route[i]
    {
      InvertTwice(b.route[i]);
    }
    assert Xored(c, mask).route == b.route;
  }

  method PresetXor(cell: Cell, mask: nat)
    requires |cell.b.route| == MAX_BITS && cell.b.nbits <= MAX_BITS
    modifies cell
    ensures cell.b == Xored(old(cell.b), mask)
  {
    ghost var was := cell.b;
    for i := 0 to cell.b.nbits
      invariant |cell.b.route| == MAX_BITS && cell.b == was.(route := cell.b.route)
      invariant forall j | 0 <= j < MAX_BITS ::
        cell.b.route[j] == if j < i && Bit(mask, j) then Invert(was.route[j]) else was.route[j]
    {
      if Bit(mask, i) {
        cell.b := cell.b.(route := cell.b.route[i := Invert(cell.b.route[i])]);
      }
    }
    assert cell.b.route == Xored(was, mask).route;
  }
}

/** The compiler from a bend to a value table with bus masks, and the evaluator of the compiled form
    (chdk-src/core/bend.c:158-311). */
module BendCompile {
  import opened Bend
  import opened BendMeaning
  import opened Bits
  import opened Words

  // The compiled form.
  datatype Code = Code(
    lut: seq<nat>, nbits: nat, mask: nat, dynMask: nat, busInv: nat, busBits: seq<nat>, busUsed: nat,
    hdiv: nat, vdiv: nat, isPure: bool, isIdentity: bool)

  // ----- The evaluator -----

  function Fold(v: nat, k: nat): nat { Xor(v, Shr(v, k), 32) }

  function Parity(v: nat): nat { Fold(Fold(Fold(Fold(v, 8), 4), 2), 1) % 2 }

  // The order in which the buses are merged.
  const BUS_ORDER: seq<nat> := [0, 1, 2, 3, 4, 5, 10, 6, 7, 8, 9, 11]

  // What bus k puts on the lines in bits.
  function BusTerm(cc: Code, k: nat, bits: nat, v: nat, x: nat, y: nat, s: Inputs): nat {
    match k
    case 0 => if x % 2 == 1 then bits else 0
    case 1 => if Shr(x, cc.hdiv) % 2 == 1 then bits else 0
    case 2 => if y % 2 == 1 then bits else 0
    case 3 => if Shr(y, cc.vdiv) % 2 == 1 then bits else 0
    case 4 => if s.frame % 2 == 1 then bits else 0
    case 5 => if Xor(x, y, 32) % 2 == 1 then bits else 0
    case 10 => if Parity(And(v, cc.mask, 32)) == 1 then bits else 0
    case 6 => And(s.ob, bits, 32)
    case 7 => And(s.noise, bits, 32)
    case 8 => And(s.prev, bits, 32)
    case 9 => And(s.above, bits, 32)
    case 11 => And(s.tap, bits, 32)
    case _ => 0
  }

  // Merges the first n buses of the order.
  function BusVal(cc: Code, n: nat, v: nat, x: nat, y: nat, s: Inputs): nat
    requires n <= BUS_COUNT && |cc.busBits| == BUS_COUNT
  {
    if n == 0 then 0
    else
      var k, r := BUS_ORDER[n - 1], BusVal(cc, n - 1, v, x, y, s);
      if Bit(cc.busUsed, k) then Or(r, BusTerm(cc, k, cc.busBits[k], v, x, y, s), 32) else r
  }

  function Eval(cc: Code, v: nat, x: nat, y: nat, s: Inputs): nat
    requires |cc.busBits| == BUS_COUNT && And(v, cc.mask, 32) < |cc.lut|
  {
    var o := cc.lut[And(v, cc.mask, 32)];
    var o' := if cc.dynMask == 0 then o else
                var bv := Xor(BusVal(cc, BUS_COUNT, v, x, y, s), cc.busInv, 32);
                Or(AndNot(o, cc.dynMask, 32), And(bv, cc.dynMask, 32), 32);
    And(o', cc.mask, 32)
  }

  // ----- What the compiled form must say of each line -----

  datatype Masks = Masks(data: nat, tie: nat, high: nat, dyn: nat, inv: nat, bus: seq<nat>, used: nat)

  const NO_MASKS: Masks := Masks(0, 0, 0, 0, 0, [0, 0, 0, 0, 0, 0, 0, 0, 0, 0, 0, 0], 0)

  // The masks have line i wired as w.
  ghost predicate Wired(m: Masks, i: nat, w: Wire)
    requires |m.bus| == BUS_COUNT
  {
    && (Bit(m.data, i) <==> w.Pin?)
    && (Bit(m.tie, i) <==> w.Rail?)
    && (Bit(m.dyn, i) <==> w.Bus?)
    && (Bit(m.high, i) <==> w == Rail(true))
    && (Bit(m.inv, i) <==> w.Bus? && w.inverted)
    && (forall k: nat | k < BUS_COUNT :: Bit(m.bus[k], i) <==> w.Bus? && w.bus == k)
    && (w.Bus? ==> w.bus < BUS_COUNT && Bit(m.used, w.bus))
  }

  ghost predicate Unwired(m: Masks, i: nat)
    requires |m.bus| == BUS_COUNT
  {
    && !Bit(m.data, i) && !Bit(m.tie, i) && !Bit(m.dyn, i) && !Bit(m.high, i) && !Bit(m.inv, i)
    && forall k: nat | k < BUS_COUNT :: !Bit(m.bus[k], i)
  }

  function SetBit(v: nat, i: nat): (r: nat)
    ensures r < Pow2(32)
  {
    Or(v, Pow2(i), 32)
  }

  lemma BitOfSetBit(v: nat, i: nat, j: nat)
    requires i < 32 && j < 32
    ensures Bit(SetBit(v, i), j) == (Bit(v, j) || j == i)
  {
    BitOfOps(v, Pow2(i), 32, j);
    BitOfPow2(i, j);
  }

  // Wires line i.
  function Connect(m: Masks, i: nat, w: Wire): Masks
    requires |m.bus| == BUS_COUNT && (w.Bus? ==> w.bus < BUS_COUNT)
  {
    match w
    case Pin(_, _) => m.(data := SetBit(m.data, i))
    case Rail(high) => m.(tie := SetBit(m.tie, i), high := if high then SetBit(m.high, i) else m.high)
    case Bus(k, inverted) =>
      m.(dyn := SetBit(m.dyn, i), inv := if inverted then SetBit(m.inv, i) else m.inv,
         bus := m.bus[k := SetBit(m.bus[k], i)], used := SetBit(m.used, k))
  }

  lemma ConnectWires(m: Masks, i: nat, w: Wire)
    requires |m.bus| == BUS_COUNT && i < 32 && (w.Bus? ==> w.bus < BUS_COUNT)
    requires Unwired(m, i)
    ensures Wired(Connect(m, i, w), i, w)
  {
    hide Bit, SetBit;
    BitOfSetBit(m.data, i, i);
    BitOfSetBit(m.tie, i, i);
    BitOfSetBit(m.high, i, i);
    BitOfSetBit(m.dyn, i, i);
    BitOfSetBit(m.inv, i, i);
    if w.Bus? {
      BitOfSetBit(m.bus[w.bus], i, i);
      BitOfSetBit(m.used, w.bus, w.bus);
    }
  }

  lemma ConnectKeeps(m: Masks, i: nat, w: Wire, j: nat)
    requires |m.bus| == BUS_COUNT && i < 32 && j < 32 && i != j && (w.Bus? ==> w.bus < BUS_COUNT)
    ensures var m' := Connect(m, i, w);
      && (Unwired(m, j) ==> Unwired(m', j))
      && (forall v :: Wired(m, j, v) ==> Wired(m', j, v))
  {
    hide Bit, SetBit;
    BitOfSetBit(m.data, i, j);
    BitOfSetBit(m.tie, i, j);
    BitOfSetBit(m.high, i, j);
    BitOfSetBit(m.dyn, i, j);
    BitOfSetBit(m.inv, i, j);
    if w.Bus? {
      BitOfSetBit(m.bus[w.bus], i, j);
      forall k: nat | k < 32 ensures Bit(SetBit(m.used, w.bus), k) == (Bit(m.used, k) || k == w.bus) {
        BitOfSetBit(m.used, w.bus, k);
      }
    }
  }

  // ----- What the evaluator makes of the compiled form -----

  // What the table holds for line i; a line that a bus drives is left low.
  function Tabled(w: Wire, v: nat): bool {
    match w
    case Pin(p, inverted) => Bit(v, p) != inverted
    case Rail(high) => high
    case Bus(_, _) => false
  }

  // The compiled form stands for these wires.
  ghost predicate Stands(cc: Code, m: Masks, wires: seq<Wire>) {
    && |wires| == cc.nbits <= MAX_BITS && |m.bus| == BUS_COUNT
    && cc.mask == Pow2(cc.nbits) - 1 && |cc.lut| == Pow2(cc.nbits)
    && cc.dynMask == m.dyn && cc.busInv == m.inv && cc.busBits == m.bus && cc.busUsed == m.used
    && (forall i: nat | i < cc.nbits :: Wired(m, i, wires[i]) && (wires[i].Pin? ==> wires[i].pin < cc.nbits))
    && (forall v: nat, i: nat | v < |cc.lut| && i < cc.nbits :: Bit(cc.lut[v], i) == Tabled(wires[i], v))
  }

  lemma FoldBit(v: nat, k: nat, i: nat)
    requires i < 32
    ensures Bit(Fold(v, k), i) == (Bit(v, i) != Bit(v, i + k))
  {
    BitOfOps(v, Shr(v, k), 32, i);
    BitOfShr(v, k, i);
  }

  // Folding a word in half keeps its parity.
  lemma {:induction false} FoldParity(v: nat, k: nat, j: nat)
    requires j <= k <= 32
    ensures OddBits(Fold(v, k), j) == (OddBits(v, j) != (OddBits(v, k + j) != OddBits(v, k)))
  {
    hide Bit, Fold;
    if j > 0 {
      FoldParity(v, k, j - 1);
      FoldBit(v, k, j - 1);
    }
  }

  // The four foldings gather the parity of a sixteen-bit word in bit 0.
  lemma ParityIsOdd(v: nat)
    ensures (Parity(v) == 1) == OddBits(v, 16)
  {
    hide Fold;
    var a := Fold(v, 8);
    var b := Fold(a, 4);
    var c := Fold(b, 2);
    FoldParity(v, 8, 8);
    FoldParity(a, 4, 4);
    FoldParity(b, 2, 2);
    FoldParity(c, 1, 1);
    OddOne(Fold(c, 1));
    hide OddBits;
  }

  lemma OddOne(v: nat)
    ensures OddBits(v, 1) == (v % 2 == 1)
  {
  }

  // Bits above the word's width do not count.
  lemma {:induction false} OddBitsOf(v: nat, u: nat, n: nat, m: nat)
    requires n <= m
    requires forall i: nat | i < n :: Bit(u, i) == Bit(v, i)
    requires forall i: nat | n <= i < m :: !Bit(u, i)
    ensures OddBits(u, m) == OddBits(v, n)
    decreases m
  {
    if m > n { OddBitsOf(v, u, n, m - 1); } else if n > 0 { OddBitsOf(v, u, n - 1, n - 1); }
  }

  // One bus on one line.
  lemma BusTermBit(cc: Code, k: nat, bits: nat, i: nat, v: nat, x: nat, y: nat, s: Inputs)
    requires k < BUS_COUNT && i < 32 && cc.nbits <= MAX_BITS && cc.mask == Pow2(cc.nbits) - 1
    ensures Bit(BusTerm(cc, k, bits, v, x, y, s), i)
         == (Bit(bits, i) && Signal(k, i, v, cc.nbits, cc.hdiv, cc.vdiv, x, y, s))
  {
    NoBitOfZero(i);
    if k == 1 {
      BitOfShr(x, cc.hdiv, 0);
    } else if k == 3 {
      BitOfShr(y, cc.vdiv, 0);
    } else if k == 5 {
      BitOfOps(x, y, 32, 0);
    } else if k == 6 {
      BitOfOps(s.ob, bits, 32, i);
    } else if k == 7 {
      BitOfOps(s.noise, bits, 32, i);
    } else if k == 8 {
      BitOfOps(s.prev, bits, 32, i);
    } else if k == 9 {
      BitOfOps(s.above, bits, 32, i);
    } else if k == 10 {
      var u := And(v, cc.mask, 32);
      MaskFits(v, cc.nbits);
      NoBits(u, cc.nbits);
      OddBitsOf(v, u, cc.nbits, 16);
      ParityIsOdd(u);
    } else if k == 11 {
      BitOfOps(s.tap, bits, 32, i);
    }
  }

  lemma WiredBus(m: Masks, i: nat, w: Wire, k: nat)
    requires |m.bus| == BUS_COUNT && k < BUS_COUNT && Wired(m, i, w)
    ensures Bit(m.bus[k], i) <==> w.Bus? && w.bus == k
    ensures w.Bus? && w.bus == k ==> Bit(m.used, k)
  {
  }

  // All the buses together on a line that is wired to one of them, or to none.
  lemma {:induction false} BusValBit(cc: Code, m: Masks, wires: seq<Wire>, i: nat, n: nat, v: nat, x: nat, y: nat, s: Inputs)
    requires Stands(cc, m, wires) && i < cc.nbits && n <= BUS_COUNT
    ensures Bit(BusVal(cc, n, v, x, y, s), i)
         == (wires[i].Bus? && wires[i].bus in BUS_ORDER[..n]
             && Signal(wires[i].bus, i, v, cc.nbits, cc.hdiv, cc.vdiv, x, y, s))
  {
    hide Bit, Or, BusTerm, Wired, Signal, Pow2, Tabled;
    if n == 0 {
      NoBitOfZero(i);
    } else {
      var k := BUS_ORDER[n - 1];
      BusValBit(cc, m, wires, i, n - 1, v, x, y, s);
      BusTermBit(cc, k, cc.busBits[k], i, v, x, y, s);
      BitOfOps(BusVal(cc, n - 1, v, x, y, s), BusTerm(cc, k, cc.busBits[k], v, x, y, s), 32, i);
      WiredBus(m, i, wires[i], k);
      OrderNext(n);
    }
  }

  lemma OrderNext(n: nat)
    requires 0 < n <= BUS_COUNT
    ensures forall k :: k in BUS_ORDER[..n] <==> k in BUS_ORDER[..n - 1] || k == BUS_ORDER[n - 1]
  {
    assert BUS_ORDER[..n] == BUS_ORDER[..n - 1] + [BUS_ORDER[n - 1]];
  }

  lemma BusInOrder(k: nat)
    requires k < BUS_COUNT
    ensures k in BUS_ORDER[..BUS_COUNT]
  {
    var j := if k < 6 then k else if k < 10 then k + 1 else if k == 10 then 6 else 11;
    assert BUS_ORDER[..BUS_COUNT][j] == k;
  }

  // Every bit of the result is what its wire carries.
  lemma EvalBit(cc: Code, m: Masks, wires: seq<Wire>, i: nat, v: nat, x: nat, y: nat, s: Inputs)
    requires Stands(cc, m, wires) && i < cc.nbits
    ensures And(v, cc.mask, 32) < |cc.lut|
    ensures Bit(Eval(cc, v, x, y, s), i) == Carried(wires[i], i, v, cc.nbits, cc.hdiv, cc.vdiv, x, y, s)
  {
    Looked(cc, m, wires, i, v);
    var w, o := wires[i], cc.lut[And(v, cc.mask, 32)];
    if w.Bus? { BusInOrder(w.bus); }
    hide Bit, And, Or, Xor, AndNot, BusVal, Signal, Wired, Stands;
    BitOfOps(o, cc.mask, 32, i);
    if cc.dynMask == 0 {
      NoBitOfZero(i);
    } else {
      BusValBit(cc, m, wires, i, BUS_COUNT, v, x, y, s);
      MergedBit(o, BusVal(cc, BUS_COUNT, v, x, y, s), cc.busInv, cc.dynMask, cc.mask, i);
    }
  }

  // What the masks and the table say of line i.
  lemma Looked(cc: Code, m: Masks, wires: seq<Wire>, i: nat, v: nat)
    requires Stands(cc, m, wires) && i < cc.nbits
    ensures |wires| == cc.nbits <= MAX_BITS && |cc.busBits| == BUS_COUNT && (wires[i].Bus? ==> wires[i].bus < BUS_COUNT)
    ensures (Bit(cc.dynMask, i) <==> wires[i].Bus?) && (Bit(cc.busInv, i) <==> wires[i].Bus? && wires[i].inverted)
    ensures Bit(cc.mask, i) && And(v, cc.mask, 32) < |cc.lut|
    ensures Bit(cc.lut[And(v, cc.mask, 32)], i) == Tabled(wires[i], v)
  {
    hide And, Pow2, Bit;
    var u, w := And(v, cc.mask, 32), wires[i];
    MaskFits(v, cc.nbits);
    BitOfOnes(cc.nbits, i);
    assert Wired(m, i, w) && Bit(cc.lut[u], i) == Tabled(w, u);
  }

  // Bus lines take the bus value in its polarity, the other lines the table's.
  lemma MergedBit(o: nat, b: nat, inv: nat, dyn: nat, mask: nat, i: nat)
    requires i < 32
    ensures Bit(And(Or(AndNot(o, dyn, 32), And(Xor(b, inv, 32), dyn, 32), 32), mask, 32), i)
         == (Bit(mask, i) && if Bit(dyn, i) then Bit(b, i) != Bit(inv, i) else Bit(o, i))
  {
    hide Bit, And, Or, Xor, AndNot;
    var bv := Xor(b, inv, 32);
    BitOfOps(b, inv, 32, i);
    BitOfOps(o, dyn, 32, i);
    BitOfOps(bv, dyn, 32, i);
    BitOfOps(AndNot(o, dyn, 32), And(bv, dyn, 32), 32, i);
    BitOfOps(Or(AndNot(o, dyn, 32), And(bv, dyn, 32), 32), mask, 32, i);
  }

  // ----- The compiler -----

  function Wires(b: Recipe, nbits: nat): seq<Wire>
    requires |b.route| == MAX_BITS && b.nbits <= MAX_BITS && nbits <= MAX_BITS
  {
    var from := if b.nbits != 0 then b.nbits else nbits;
    seq(nbits, i requires 0 <= i < nbits => WireOf(b, from, i, nbits))
  }

  // The first n lines are wired, the others not yet.
  ghost predicate WiredUpTo(m: Masks, wires: seq<Wire>, n: nat) {
    && |m.bus| == BUS_COUNT && n <= |wires| <= MAX_BITS
    && (forall j: nat | j < n :: Wired(m, j, wires[j]))
    && (forall j: nat | n <= j < 32 :: Unwired(m, j))
    && m.dyn < Pow2(32) && m.tie < Pow2(32)
  }

  // The pin tables hold the pins of the first n lines.
  ghost predicate Pinned(pin: seq<nat>, inv: seq<bool>, wires: seq<Wire>, n: nat) {
    && n <= |wires| <= |pin| && |pin| == |inv|
    && forall j | 0 <= j < n && wires[j].Pin? :: wires[j] == Pin(pin[j], inv[j])
  }

  lemma NothingWired(wires: seq<Wire>)
    requires |wires| <= MAX_BITS
    ensures WiredUpTo(NO_MASKS, wires, 0)
  {
    hide Bit;
    forall j: nat | j < 32 ensures Unwired(NO_MASKS, j) { NoBitOfZero(j); }
    assert |NO_MASKS.bus| == BUS_COUNT && NO_MASKS.dyn < Pow2(32) && NO_MASKS.tie < Pow2(32);
  }

  lemma NextWired(m: Masks, wires: seq<Wire>, i: nat)
    requires i < |wires| && WiredUpTo(m, wires, i) && (wires[i].Bus? ==> wires[i].bus < BUS_COUNT)
    ensures WiredUpTo(Connect(m, i, wires[i]), wires, i + 1)
  {
    var w := wires[i];
    var m' := Connect(m, i, w);
    ConnectWires(m, i, w);
    forall j: nat | j < i ensures Wired(m', j, wires[j]) { ConnectKeeps(m, i, w, j); }
    forall j: nat | i < j < 32 ensures Unwired(m', j) { ConnectKeeps(m, i, w, j); }
    hide Wired, Unwired;
  }

  // Sets the masks and the pin of line i for one source.
  method Patch(src: byte, from: nat, i: nat, nbits: nat, m: Masks) returns (m': Masks, pin: nat, inv: bool)
    requires |m.bus| == BUS_COUNT && i < nbits
    ensures m' == Connect(m, i, WireOfSource(src, from, i, nbits))
    ensures WireOfSource(src, from, i, nbits).Pin? ==> WireOfSource(src, from, i, nbits) == Pin(pin, inv)
  {
    hide SetBit;
    m', pin, inv := m, i, false;
    var c, idx := Class(src), Index(src);
    if c == C_DATA || c == C_NDATA {
      inv := c == C_NDATA;
      pin := Remap(idx, from, nbits);
      m' := m.(data := SetBit(m.data, i));
    } else if c == C_TIE {
      m' := m.(tie := SetBit(m.tie, i));
      if idx % 2 == 1 { m' := m'.(high := SetBit(m.high, i)); }
    } else if c == C_NBUS || c == C_BUS {
      if c == C_NBUS { m' := m.(inv := SetBit(m.inv, i)); }
      var bus := if idx >= BUS_COUNT then BUS_NOISE else idx;
      m' := m'.(dyn := SetBit(m.dyn, i), bus := m.bus[bus := SetBit(m.bus[bus], i)], used := SetBit(m.used, bus));
    } else {
      m' := m.(data := SetBit(m.data, i));
    }
  }

  method Route(b: Recipe, nbits: nat, pin: array<nat>, inv: array<bool>) returns (m: Masks)
    requires WellFormed(b) && b.nbits <= MAX_BITS && 1 <= nbits <= MAX_BITS && pin.Length == inv.Length == MAX_BITS
    modifies pin, inv
    ensures WiredUpTo(m, Wires(b, nbits), nbits) && Pinned(pin[..], inv[..], Wires(b, nbits), nbits)
  {
    var from := if b.nbits != 0 then b.nbits else nbits;
    ghost var wires := Wires(b, nbits);
    m := NO_MASKS;
    NothingWired(wires);
    hide WiredUpTo, SetBit, Connect;
    for i := 0 to nbits
      invariant WiredUpTo(m, wires, i) && Pinned(pin[..], inv[..], wires, i)
    {
      var ai := Counterpart(i, nbits, from);
      assert wires[i] == WireOf(b, from, i, nbits);
      NextWired(m, wires, i);
      CountsBuses(m, wires, i);
      if ai < 0 {
        pin[i], inv[i] := i, false;
        m := StraightThrough(m, i);
      } else {
        m, pin[i], inv[i] := Patch(b.route[ai], from, i, nbits, m);
      }
    }
  }

  method StraightThrough(m: Masks, i: nat) returns (m': Masks)
    requires |m.bus| == BUS_COUNT
    ensures m' == Connect(m, i, Pin(i, false))
  {
    m' := m.(data := SetBit(m.data, i));
  }

  lemma CountsBuses(m: Masks, wires: seq<Wire>, i: nat)
    requires WiredUpTo(m, wires, i)
    ensures |m.bus| == BUS_COUNT
  {
  }

  function Remap(i: nat, from: nat, to: nat): nat
    requires 0 < to
  {
    var r := Counterpart(i, from, to);
    if r < 0 || r > to - 1 then (if from > to then 0 else to - 1) else r
  }

  // Fills the table.
  method Tabulate(m: Masks, pin: array<nat>, inv: array<bool>, lut: array<nat>, nbits: nat, ghost wires: seq<Wire>)
    requires nbits <= |wires| == nbits <= MAX_BITS && lut.Length == Pow2(nbits) && lut != pin
    requires WiredUpTo(m, wires, nbits) && Pinned(pin[..], inv[..], wires, nbits)
    modifies lut
    ensures forall v: nat | v < Pow2(nbits) :: lut[v] < Pow2(nbits)
    ensures forall v: nat, i: nat | v < Pow2(nbits) && i < nbits :: Bit(lut[v], i) == Tabled(wires[i], v)
  {
    hide Bit, And, SetBit, WiredUpTo, Pow2;
    var mask := Pow2(nbits) - 1;
    for v := 0 to lut.Length
      modifies lut
      invariant forall u: nat | u < v :: lut[u] < Pow2(nbits)
      invariant forall u: nat, i: nat | u < v && i < nbits :: Bit(lut[u], i) == Tabled(wires[i], u)
    {
      var o := m.high;
      for i := 0 to nbits
        modifies {}
        invariant forall j: nat | j < nbits :: Bit(o, j) == if j < i then Tabled(wires[j], v) else Bit(m.high, j)
      {
        WiredPin(m, wires, nbits, i);
        if !Bit(m.data, i) { continue; }
        var bit := Bit(Shr(v, pin[i]), 0);
        BitOfShr(v, pin[i], 0);
        if inv[i] { bit := !bit; }
        forall j: nat | j < nbits ensures Bit(SetBit(o, i), j) == (Bit(o, j) || j == i) {
          BitOfSetBit(o, i, j);
        }
        if bit { o := SetBit(o, i); }
      }
      MaskFits(o, nbits);
      Pow2Monotone(nbits, 16);
      Sixteen();
      lut[v] := And(o, mask, 32) % 0x1_0000;
    }
  }

  lemma Sixteen()
    ensures Pow2(16) == 0x1_0000
  {
    assert Pow2(8) == 0x100;
  }

  lemma WiredPin(m: Masks, wires: seq<Wire>, n: nat, i: nat)
    requires WiredUpTo(m, wires, n) && i < n
    ensures Bit(m.data, i) <==> wires[i].Pin?
    ensures Bit(m.high, i) <==> wires[i] == Rail(true)
  {
    assert Wired(m, i, wires[i]);
  }

  // The bend as compiled to nbits bits.
  ghost predicate CompiledFrom(cc: Code, b: Recipe, nbits: nat)
    requires |b.route| == MAX_BITS && b.nbits <= MAX_BITS && nbits <= MAX_BITS
  {
    && cc.nbits == nbits && cc.hdiv == b.hdiv && cc.vdiv == b.vdiv
    && (exists m :: Stands(cc, m, Wires(b, nbits)))
    && (forall v | 0 <= v < |cc.lut| :: cc.lut[v] < Pow2(nbits))
    && (cc.isPure <==> forall w | w in Wires(b, nbits) :: !w.Bus?)
    && (cc.isIdentity <==> forall i: nat | i < nbits :: Wires(b, nbits)[i] == Pin(i, false))
  }

  method Compile(b: Recipe, lut: array<nat>, nbits: nat) returns (cc: Code)
    requires WellFormed(b) && b.nbits <= MAX_BITS && 1 <= nbits <= MAX_BITS && lut.Length == Pow2(nbits)
    modifies lut
    ensures cc.lut == lut[..] && CompiledFrom(cc, b, nbits)
  {
    hide Pow2, Wires, Bit, WireOf, Stands, CompiledFrom, Tabled, Wired, WiredUpTo, Pinned;
    ghost var wires := Wires(b, nbits);
    WiresAre(b, nbits);
    var pin, inv := new nat[MAX_BITS], new bool[MAX_BITS];
    var m := Route(b, nbits, pin, inv);
    Tabulate(m, pin, inv, lut, nbits, wires);
    MasksFit(m, wires, nbits);
    var isPure, isIdentity := IsIdentity(m, pin, inv, nbits, wires);
    cc := Code(lut[..], nbits, Pow2(nbits) - 1, m.dyn, m.inv, m.bus, m.used, b.hdiv, b.vdiv, isPure, isIdentity);
    CodeStands(cc, m, wires);
    CodeIs(cc, m, b, nbits);
  }

  // The two flags: no line is on a bus; every line is straight through.
  method IsIdentity(m: Masks, pin: array<nat>, inv: array<bool>, nbits: nat, ghost wires: seq<Wire>)
    returns (isPure: bool, isIdentity: bool)
    requires WiredUpTo(m, wires, nbits) && Pinned(pin[..], inv[..], wires, nbits) && |wires| == nbits
    ensures isPure <==> forall w | w in wires :: !w.Bus?
    ensures isIdentity <==> forall i: nat | i < nbits :: wires[i] == Pin(i, false)
  {
    NoneSet(m, wires, nbits);
    PinsAre(pin[..], inv[..], wires, nbits);
    hide WiredUpTo, Pinned;
    isPure, isIdentity := m.dyn == 0, false;
    if isPure && m.tie == 0 {
      for i := 0 to nbits
        invariant forall j: nat | j < i :: wires[j] == Pin(j, false)
      {
        assert wires[i] in wires && wires[i] == Pin(pin[..][i], inv[..][i]);
        if pin[i] != i || inv[i] { return; }
      }
      isIdentity := true;
    } else {
      ghost var w :| w in wires && !w.Pin?;
    }
  }

  lemma PinsAre(pin: seq<nat>, inv: seq<bool>, wires: seq<Wire>, n: nat)
    requires Pinned(pin, inv, wires, n)
    ensures n <= |wires| <= |pin| && |pin| == |inv| && forall i: nat | i < n && wires[i].Pin? :: wires[i] == Pin(pin[i], inv[i])
  {
  }

  lemma MasksFit(m: Masks, wires: seq<Wire>, n: nat)
    requires WiredUpTo(m, wires, n)
    ensures |m.bus| == BUS_COUNT && forall i: nat | i < n :: i < |wires| && Wired(m, i, wires[i])
  {
  }

  lemma CodeStands(cc: Code, m: Masks, wires: seq<Wire>)
    requires |wires| == cc.nbits <= MAX_BITS && |m.bus| == BUS_COUNT
    requires cc.mask == Pow2(cc.nbits) - 1 && |cc.lut| == Pow2(cc.nbits)
    requires cc.dynMask == m.dyn && cc.busInv == m.inv && cc.busBits == m.bus && cc.busUsed == m.used
    requires forall i: nat | i < cc.nbits :: Wired(m, i, wires[i]) && (wires[i].Pin? ==> wires[i].pin < cc.nbits)
    requires forall v: nat, i: nat | v < Pow2(cc.nbits) && i < cc.nbits :: Bit(cc.lut[v], i) == Tabled(wires[i], v)
    ensures Stands(cc, m, wires)
  {
    hide Pow2, Bit, Tabled, Wired;
  }

  lemma CodeIs(cc: Code, m: Masks, b: Recipe, nbits: nat)
    requires |b.route| == MAX_BITS && b.nbits <= MAX_BITS && nbits <= MAX_BITS && |Wires(b, nbits)| == nbits
    requires cc.nbits == nbits && cc.hdiv == b.hdiv && cc.vdiv == b.vdiv && Stands(cc, m, Wires(b, nbits))
    requires |cc.lut| == Pow2(nbits) && forall v: nat | v < Pow2(nbits) :: cc.lut[v] < Pow2(nbits)
    requires cc.isPure <==> forall w | w in Wires(b, nbits) :: !w.Bus?
    requires cc.isIdentity <==> forall i: nat | i < nbits :: Wires(b, nbits)[i] == Pin(i, false)
    ensures CompiledFrom(cc, b, nbits)
  {
    hide Pow2, Stands, Wires;
  }

  lemma WiresAre(b: Recipe, nbits: nat)
    requires |b.route| == MAX_BITS && b.nbits <= MAX_BITS && nbits <= MAX_BITS
    ensures |Wires(b, nbits)| == nbits
    ensures forall i: nat | i < nbits :: Wires(b, nbits)[i].Pin? ==> Wires(b, nbits)[i].pin < nbits
  {
    forall i: nat | i < nbits ensures Wires(b, nbits)[i].Pin? ==> Wires(b, nbits)[i].pin < nbits { WirePin(b, nbits, i); }
    hide WireOf;
  }

  lemma WirePin(b: Recipe, nbits: nat, i: nat)
    requires |b.route| == MAX_BITS && b.nbits <= MAX_BITS && i < nbits <= MAX_BITS
    ensures |Wires(b, nbits)| == nbits
    ensures Wires(b, nbits)[i].Pin? ==> Wires(b, nbits)[i].pin < nbits
  {
    assert Wires(b, nbits)[i] == WireOf(b, if b.nbits != 0 then b.nbits else nbits, i, nbits);
  }

  // A mask is zero when no line of its kind is.
  lemma NoneSet(m: Masks, wires: seq<Wire>, n: nat)
    requires |wires| == n && WiredUpTo(m, wires, n)
    ensures m.dyn == 0 <==> forall w | w in wires :: !w.Bus?
    ensures m.tie == 0 <==> forall w | w in wires :: !w.Rail?
  {
    hide Bit, Pow2, WiredUpTo;
    LineOf(m, wires, n, 0);
    forall j: nat | j < 32
      ensures Bit(m.dyn, j) == (j < n && wires[j].Bus?) && Bit(m.tie, j) == (j < n && wires[j].Rail?)
    {
      LineOf(m, wires, n, j);
    }
    NoneIs(m, wires, n);
    forall w | w in wires
      ensures m.dyn == 0 ==> !w.Bus?
      ensures m.tie == 0 ==> !w.Rail?
    {
      var j: nat :| j < n && wires[j] == w;
      NoBitOfZero(j);
      LineOf(m, wires, n, j);
    }
  }

  lemma LineOf(m: Masks, wires: seq<Wire>, n: nat, j: nat)
    requires |wires| == n && WiredUpTo(m, wires, n) && j < 32
    ensures n <= MAX_BITS && Bit(m.dyn, j) == (j < n && wires[j].Bus?) && Bit(m.tie, j) == (j < n && wires[j].Rail?)
  {
    if j < n { assert Wired(m, j, wires[j]); } else { assert Unwired(m, j); }
    hide Bit, Pow2;
  }

  lemma NoneIs(m: Masks, wires: seq<Wire>, n: nat)
    requires |wires| == n && WiredUpTo(m, wires, n)
    requires forall j: nat | j < 32 ::
               Bit(m.dyn, j) == (j < n && wires[j].Bus?) && Bit(m.tie, j) == (j < n && wires[j].Rail?)
    ensures (forall w | w in wires :: !w.Bus?) ==> m.dyn == 0
    ensures (forall w | w in wires :: !w.Rail?) ==> m.tie == 0
  {
    hide Bit, Wired, Unwired, Pow2;
    forall j: nat | j < 32 ensures !Bit(0, j) { NoBitOfZero(j); }
    if forall w | w in wires :: !w.Bus? { SameBits(m.dyn, 0, 32); }
    if forall w | w in wires :: !w.Rail? { SameBits(m.tie, 0, 32); }
  }

  // ----- The main results -----

  // Every bit of a pixel evaluated through the compiled form is what the bend's wire for that bit
  // carries, at whatever width the bend is compiled.
  lemma CompilerIsCorrect(cc: Code, b: Recipe, nbits: nat, i: nat, v: nat, x: nat, y: nat, s: Inputs)
    requires WellFormed(b) && b.nbits <= MAX_BITS && 1 <= nbits <= MAX_BITS && CompiledFrom(cc, b, nbits) && i < nbits
    ensures |cc.busBits| == BUS_COUNT && And(v, cc.mask, 32) < |cc.lut|
    ensures var w := WireOf(b, if b.nbits != 0 then b.nbits else nbits, i, nbits);
      Bit(Eval(cc, v, x, y, s), i) == Carried(w, i, v, nbits, b.hdiv, b.vdiv, x, y, s)
  {
    var m :| Stands(cc, m, Wires(b, nbits));
    EvalBit(cc, m, Wires(b, nbits), i, v, x, y, s);
  }

  // A pure bend is flagged as the identity exactly when its table is the identity.
  lemma IdentityIsIdentity(cc: Code, b: Recipe, nbits: nat)
    requires WellFormed(b) && b.nbits <= MAX_BITS && 1 <= nbits <= MAX_BITS && CompiledFrom(cc, b, nbits) && cc.isPure
    ensures cc.isIdentity <==> forall v | 0 <= v < |cc.lut| :: cc.lut[v] == v
  {
    hide Bit, Pow2, Wires, Wired, Tabled;
    WiresAre(b, nbits);
    var wires := Wires(b, nbits);
    var m :| Stands(cc, m, wires);
    if cc.isIdentity {
      forall v | 0 <= v < |cc.lut| ensures cc.lut[v] == v { StraightEntry(cc, m, wires, v); }
    } else {
      var i: nat :| i < nbits && wires[i] != Pin(i, false);
      assert wires[i] in wires;
      DifferingEntry(cc, m, wires, i);
    }
  }

  lemma StraightEntry(cc: Code, m: Masks, wires: seq<Wire>, v: nat)
    requires Stands(cc, m, wires) && v < |cc.lut| && cc.lut[v] < Pow2(cc.nbits)
    requires forall i: nat | i < cc.nbits :: i < |wires| && wires[i] == Pin(i, false)
    ensures cc.lut[v] == v
  {
    hide Bit, Pow2, Wired;
    forall i: nat | i < cc.nbits ensures Bit(cc.lut[v], i) == Bit(v, i) {
      assert Bit(cc.lut[v], i) == Tabled(wires[i], v);
    }
    SameBits(cc.lut[v], v, cc.nbits);
  }

  // There is a word on which line i differs from what comes in.
  lemma DifferingEntry(cc: Code, m: Masks, wires: seq<Wire>, i: nat)
    requires Stands(cc, m, wires) && i < cc.nbits && i < |wires| && !wires[i].Bus? && wires[i] != Pin(i, false)
    ensures exists v :: 0 <= v < |cc.lut| && cc.lut[v] != v
  {
    hide Bit, Wired, Tabled;
    var v := if wires[i] == Rail(false) || (wires[i].Pin? && !wires[i].inverted) then Pow2(i) else 0;
    LineDiffers(wires[i], i, v);
    Pow2Monotone(i + 1, cc.nbits);
    assert v < |cc.lut| && Bit(cc.lut[v], i) == Tabled(wires[i], v);
  }

  lemma LineDiffers(w: Wire, i: nat, v: nat)
    requires !w.Bus? && w != Pin(i, false)
    requires v == if w == Rail(false) || (w.Pin? && !w.inverted) then Pow2(i) else 0
    ensures Tabled(w, v) != Bit(v, i)
  {
    BitOfPow2(i, i);
    NoBitOfZero(i);
    if w.Pin? {
      BitOfPow2(i, w.pin);
      NoBitOfZero(w.pin);
    }
  }

  // Whether the mask, at the bend's own width, names bit i of a word of nbits bits.
  predicate Masked(mask: nat, i: nat, nbits: nat, from: nat) {
    var ai := Counterpart(i, nbits, from);
    ai >= 0 && Bit(mask, ai)
  }

  // Compiling after XOR with a mask evaluates to the original result with the masked bits flipped: bit
  // by bit at any width, and as XOR of the two words at the bend's own.
  lemma XorComposes(cc: Code, cx: Code, b: Recipe, mask: nat, nbits: nat, v: nat, x: nat, y: nat, s: Inputs)
    requires WellFormed(b) && LinesUsable(b) && 1 <= nbits <= MAX_BITS
    requires CompiledFrom(cc, b, nbits) && CompiledFrom(cx, Xored(b, mask), nbits)
    ensures |cc.busBits| == |cx.busBits| == BUS_COUNT
    ensures And(v, cc.mask, 32) < |cc.lut| && And(v, cx.mask, 32) < |cx.lut|
    ensures forall i: nat | i < nbits ::
              Bit(Eval(cx, v, x, y, s), i) == (Bit(Eval(cc, v, x, y, s), i) != Masked(mask, i, nbits, b.nbits))
    ensures nbits == b.nbits && mask < Pow2(nbits) ==> Eval(cx, v, x, y, s) == Xor(Eval(cc, v, x, y, s), mask, 32)
  {
    hide Bit, Eval, Masked, Carried, Pow2, And, CompiledFrom, Xor;
    XorOneBit(cc, cx, b, mask, nbits, 0, v, x, y, s);
    var e, e' := Eval(cc, v, x, y, s), Eval(cx, v, x, y, s);
    forall i: nat | i < nbits ensures Bit(e', i) == (Bit(e, i) != Masked(mask, i, nbits, b.nbits)) {
      XorOneBit(cc, cx, b, mask, nbits, i, v, x, y, s);
    }
    if nbits == b.nbits && mask < Pow2(nbits) {
      EvalFits(cc, b, nbits, v, x, y, s);
      EvalFits(cx, Xored(b, mask), nbits, v, x, y, s);
      forall i: nat | i < nbits ensures Bit(e', i) == (Bit(e, i) != Bit(mask, i)) { AtOwnWidth(mask, i, nbits); }
      FlippedIsXor(e, e', mask, nbits);
    }
  }

  lemma AtOwnWidth(mask: nat, i: nat, nbits: nat)
    requires i < nbits
    ensures Masked(mask, i, nbits, nbits) == Bit(mask, i)
  {
  }

  lemma FlippedIsXor(e: nat, e': nat, mask: nat, n: nat)
    requires n <= 32 && e < Pow2(n) && e' < Pow2(n) && mask < Pow2(n)
    requires forall i: nat | i < n :: Bit(e', i) == (Bit(e, i) != Bit(mask, i))
    ensures e' == Xor(e, mask, 32)
  {
    hide Bit, Xor;
    NoBits(e, n);
    NoBits(e', n);
    NoBits(mask, n);
    forall i: nat | i < 32 ensures Bit(e', i) == Bit(Xor(e, mask, 32), i) {
      BitOfOps(e, mask, 32, i);
    }
    Pow2Monotone(n, 32);
    SameBits(e', Xor(e, mask, 32), 32);
  }

  lemma XorOneBit(cc: Code, cx: Code, b: Recipe, mask: nat, nbits: nat, i: nat, v: nat, x: nat, y: nat, s: Inputs)
    requires WellFormed(b) && LinesUsable(b) && i < nbits <= MAX_BITS
    requires CompiledFrom(cc, b, nbits) && CompiledFrom(cx, Xored(b, mask), nbits)
    ensures |cc.busBits| == |cx.busBits| == BUS_COUNT
    ensures And(v, cc.mask, 32) < |cc.lut| && And(v, cx.mask, 32) < |cx.lut|
    ensures Bit(Eval(cx, v, x, y, s), i) == (Bit(Eval(cc, v, x, y, s), i) != Masked(mask, i, nbits, b.nbits))
  {
    CompilerIsCorrect(cc, b, nbits, i, v, x, y, s);
    CompilerIsCorrect(cx, Xored(b, mask), nbits, i, v, x, y, s);
    var w, ai := WireOf(b, b.nbits, i, nbits), Counterpart(i, nbits, b.nbits);
    XorFlipsWires(b, mask, i, nbits);
    assert ai >= 0 ==> RouteUsable(b.route[ai], b.nbits);
    hide Bit, Eval, Carried, CompiledFrom;
    FlippedCarries(w, i, v, nbits, b.hdiv, b.vdiv, x, y, s);
  }

  lemma EvalFits(cc: Code, b: Recipe, nbits: nat, v: nat, x: nat, y: nat, s: Inputs)
    requires |b.route| == MAX_BITS && b.nbits <= MAX_BITS && nbits <= MAX_BITS && CompiledFrom(cc, b, nbits)
    requires |cc.busBits| == BUS_COUNT && And(v, cc.mask, 32) < |cc.lut|
    ensures Eval(cc, v, x, y, s) < Pow2(nbits)
  {
    hide And, Or, Xor, AndNot, BusVal, Wires, Wired, Bit, Pow2;
    var o := cc.lut[And(v, cc.mask, 32)];
    MaskFits(o, cc.nbits);
    var bv := Xor(BusVal(cc, BUS_COUNT, v, x, y, s), cc.busInv, 32);
    MaskFits(Or(AndNot(o, cc.dynMask, 32), And(bv, cc.dynMask, 32), 32), cc.nbits);
  }

  // ----- Widths -----

  // The routes lo to hi - 1 are pins from lo to hi - 1, read on either polarity, or rails.
  predicate PinsAndRails(route: seq<byte>, lo: nat, hi: nat)
    requires lo <= hi <= |route|
  {
    forall i | lo <= i < hi :: route[i] < 0x30 && (route[i] < 0x20 ==> lo <= route[i] % 16 < hi)
  }

  // A bend of pins and rails carried to a wider bus does to the upper part of the word what it does at its own
  // width, and nothing to the rest.
  lemma WiderKeepsTop(cf: Code, ct: Code, b: Recipe, t: nat, v: nat, x: nat, y: nat, s: Inputs)
    requires WellFormed(b) && 2 <= b.nbits <= t <= MAX_BITS && PinsAndRails(b.route, 0, b.nbits)
    requires CompiledFrom(cf, b, b.nbits) && CompiledFrom(ct, b, t) && v < Pow2(t)
    ensures var d := t - b.nbits; var u := HighPart(v, d);
      && |cf.busBits| == |ct.busBits| == BUS_COUNT && And(v, ct.mask, 32) < |ct.lut| && And(u, cf.mask, 32) < |cf.lut|
      && HighPart(Eval(ct, v, x, y, s), d) == Eval(cf, u, x, y, s)
      && LowPart(Eval(ct, v, x, y, s), d) == LowPart(v, d)
  {
    hide Bit, Pow2, And, HighPart, LowPart, Eval, Carried, CompiledFrom, WireOf, PinsAndRails;
    var f, d: nat := b.nbits, t - b.nbits;
    var u := HighPart(v, d);
    CompilerIsCorrect(cf, b, f, 0, u, x, y, s);
    CompilerIsCorrect(ct, b, t, 0, v, x, y, s);
    var e, e' := Eval(ct, v, x, y, s), Eval(cf, u, x, y, s);
    EvalFits(ct, b, t, v, x, y, s);
    EvalFits(cf, b, f, u, x, y, s);
    assert t == f + d;
    HighPartFits(e, f, d);
    forall i: nat | i < f ensures Bit(HighPart(e, d), i) == Bit(e', i) {
      PartsOf(e, d, i);
      CompilerIsCorrect(ct, b, t, i + d, v, x, y, s);
      CompilerIsCorrect(cf, b, f, i, u, x, y, s);
      SameLine(b, f, t, d, i, v, x, y, s);
    }
    SameBits(HighPart(e, d), e', f);
    PartsOf(e, d, 0);
    PartsOf(v, d, 0);
    forall i: nat | i < d ensures Bit(LowPart(e, d), i) == Bit(LowPart(v, d), i) {
      PartsOf(e, d, i);
      PartsOf(v, d, i);
      CompilerIsCorrect(ct, b, t, i, v, x, y, s);
      LowLine(b, t, i, v, x, y, s);
    }
    SameBits(LowPart(e, d), LowPart(v, d), d);
  }

  // Line i of the narrower bus carries what line i + d of the wider one does.
  lemma SameLine(b: Recipe, f: nat, t: nat, d: nat, i: nat, v: nat, x: nat, y: nat, s: Inputs)
    requires WellFormed(b) && f == b.nbits <= MAX_BITS && t == f + d <= MAX_BITS && i < f && PinsAndRails(b.route, 0, f)
    ensures Carried(WireOf(b, f, i + d, t), i + d, v, t, b.hdiv, b.vdiv, x, y, s)
         == Carried(WireOf(b, f, i, f), i, HighPart(v, d), f, b.hdiv, b.vdiv, x, y, s)
  {
    PartsOf(v, d, b.route[i] % 16);
    hide Bit, Signal, Pow2, HighPart;
  }

  lemma LowLine(b: Recipe, t: nat, i: nat, v: nat, x: nat, y: nat, s: Inputs)
    requires WellFormed(b) && b.nbits <= t <= MAX_BITS && i < t - b.nbits
    ensures Carried(WireOf(b, b.nbits, i, t), i, v, t, b.hdiv, b.vdiv, x, y, s) == Bit(v, i)
  {
  }

  // Carried to a narrower bus, it does there what it does to the upper part at its own width, if that part is
  // made of itself and of rails.
  lemma NarrowerKeepsTop(cf: Code, ct: Code, b: Recipe, t: nat, v: nat, x: nat, y: nat, s: Inputs)
    requires WellFormed(b) && 1 <= t <= b.nbits <= MAX_BITS && PinsAndRails(b.route, b.nbits - t, b.nbits)
    requires CompiledFrom(cf, b, b.nbits) && CompiledFrom(ct, b, t) && v < Pow2(b.nbits)
    ensures var d := b.nbits - t; var u := HighPart(v, d);
      && |cf.busBits| == |ct.busBits| == BUS_COUNT && And(v, cf.mask, 32) < |cf.lut| && And(u, ct.mask, 32) < |ct.lut|
      && HighPart(Eval(cf, v, x, y, s), d) == Eval(ct, u, x, y, s)
  {
    hide Bit, Pow2, And, HighPart, LowPart, Eval, Carried, CompiledFrom, WireOf, PinsAndRails;
    var f, d: nat := b.nbits, b.nbits - t;
    var u := HighPart(v, d);
    CompilerIsCorrect(cf, b, f, 0, v, x, y, s);
    CompilerIsCorrect(ct, b, t, 0, u, x, y, s);
    var e, e' := Eval(cf, v, x, y, s), Eval(ct, u, x, y, s);
    EvalFits(cf, b, f, v, x, y, s);
    EvalFits(ct, b, t, u, x, y, s);
    assert f == t + d;
    HighPartFits(e, t, d);
    forall i: nat | i < t ensures Bit(HighPart(e, d), i) == Bit(e', i) {
      PartsOf(e, d, i);
      CompilerIsCorrect(cf, b, f, i + d, v, x, y, s);
      CompilerIsCorrect(ct, b, t, i, u, x, y, s);
      LowerLine(b, f, t, d, i, v, x, y, s);
    }
    SameBits(HighPart(e, d), e', t);
  }

  lemma LowerLine(b: Recipe, f: nat, t: nat, d: nat, i: nat, v: nat, x: nat, y: nat, s: Inputs)
    requires WellFormed(b) && f == b.nbits <= MAX_BITS && f == t + d && i < t && PinsAndRails(b.route, d, f)
    ensures Carried(WireOf(b, f, i + d, f), i + d, v, f, b.hdiv, b.vdiv, x, y, s)
         == Carried(WireOf(b, f, i, t), i, HighPart(v, d), t, b.hdiv, b.vdiv, x, y, s)
  {
    var k := b.route[i + d] % 16;
    if b.route[i + d] < 0x20 { PartsOf(v, d, k - d); }
    hide Bit, Signal, Pow2, HighPart;
  }

  // The reset bend does nothing, at whatever width it is compiled.
  lemma ResetIsIdentity(cc: Code, n: byte, nbits: nat, v: nat, x: nat, y: nat, s: Inputs)
    requires 2 <= n <= MAX_BITS && 1 <= nbits <= MAX_BITS && CompiledFrom(cc, Reset(n), nbits) && v < Pow2(nbits)
    ensures cc.isPure && cc.isIdentity && |cc.busBits| == BUS_COUNT && And(v, cc.mask, 32) < |cc.lut|
    ensures Eval(cc, v, x, y, s) == v
  {
    hide Bit, Eval, Pow2, And, Stands;
    forall i: nat | i < nbits ensures Wires(Reset(n), nbits)[i] == Pin(i, false) { ResetWire(n, nbits, i); }
    WiresAre(Reset(n), nbits);
    hide CompiledFrom, Wires;
    CompilerIsCorrect(cc, Reset(n), nbits, 0, v, x, y, s);
    EvalFits(cc, Reset(n), nbits, v, x, y, s);
    forall i: nat | i < nbits ensures Bit(Eval(cc, v, x, y, s), i) == Bit(v, i) {
      CompilerIsCorrect(cc, Reset(n), nbits, i, v, x, y, s);
      ResetWire(n, nbits, i);
    }
    SameBits(Eval(cc, v, x, y, s), v, nbits);
  }

  lemma ResetWire(n: byte, nbits: nat, i: nat)
    requires 2 <= n <= MAX_BITS && i < nbits <= MAX_BITS
    ensures WireOf(Reset(n), n, i, nbits) == Pin(i, false)
    ensures |Wires(Reset(n), nbits)| == nbits && Wires(Reset(n), nbits)[i] == Pin(i, false)
  {
  }

  lemma MaskedIs(mask: nat, i: nat, nbits: nat, from: nat)
    ensures Masked(mask, i, nbits, from) == (i + from >= nbits && Bit(mask, i + from - nbits))
  {
    hide Bit;
  }

  // XOR with a mask, on a bus of another width: the mask moves with the top of the word.
  lemma XorAtWidth(cc: Code, cx: Code, b: Recipe, mask: nat, nbits: nat, v: nat, x: nat, y: nat, s: Inputs)
    requires WellFormed(b) && LinesUsable(b) && 1 <= nbits <= MAX_BITS && mask < Pow2(b.nbits)
    requires CompiledFrom(cc, b, nbits) && CompiledFrom(cx, Xored(b, mask), nbits)
    ensures |cc.busBits| == |cx.busBits| == BUS_COUNT
    ensures And(v, cc.mask, 32) < |cc.lut| && And(v, cx.mask, 32) < |cx.lut|
    ensures nbits >= b.nbits ==>
      Eval(cx, v, x, y, s) == Xor(Eval(cc, v, x, y, s), Shl(mask, nbits - b.nbits), 32)
    ensures nbits < b.nbits ==>
      Eval(cx, v, x, y, s) == Xor(Eval(cc, v, x, y, s), HighPart(mask, b.nbits - nbits), 32)
  {
    hide Bit, Eval, Masked, Pow2, And, CompiledFrom, Xor, HighPart, Shl, RouteUsable;
    XorComposes(cc, cx, b, mask, nbits, v, x, y, s);
    var e, e' := Eval(cc, v, x, y, s), Eval(cx, v, x, y, s);
    EvalFits(cc, b, nbits, v, x, y, s);
    EvalFits(cx, Xored(b, mask), nbits, v, x, y, s);
    if nbits >= b.nbits {
      var d := nbits - b.nbits;
      ShlFits(mask, b.nbits, d);
      forall i: nat | i < nbits ensures Bit(e', i) == (Bit(e, i) != Bit(Shl(mask, d), i)) {
        BitOfMoved(mask, d, i);
        MaskedIs(mask, i, nbits, b.nbits);
      }
      FlippedIsXor(e, e', Shl(mask, d), nbits);
    } else {
      var d := b.nbits - nbits;
      HighPartFits(mask, nbits, d);
      forall i: nat | i < nbits ensures Bit(e', i) == (Bit(e, i) != Bit(HighPart(mask, d), i)) {
        PartsOf(mask, d, i);
        MaskedIs(mask, i, nbits, b.nbits);
      }
      FlippedIsXor(e, e', HighPart(mask, d), nbits);
    }
  }

  // Routes above the bend's width are never read, so bends with the same lines compile to the same.
  lemma SameLinesSameCode(cc: Code, b: Recipe, c: Recipe, nbits: nat)
    requires WellFormed(b) && WellFormed(c) && SameLines(b, c) && 2 <= b.nbits && nbits <= MAX_BITS
    ensures Wires(c, nbits) == Wires(b, nbits) && (CompiledFrom(cc, c, nbits) <==> CompiledFrom(cc, b, nbits))
  {
    forall i | 0 <= i < nbits ensures Wires(c, nbits)[i] == Wires(b, nbits)[i] {
      assert WireOf(c, b.nbits, i, nbits) == WireOf(b, b.nbits, i, nbits);
    }
    assert Wires(c, nbits) == Wires(b, nbits);
    hide Wires, Stands;
  }
}

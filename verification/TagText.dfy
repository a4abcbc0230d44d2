/** The half of the comment that people read (chdk-src/core/bend_tag.c:36-122, with the names of
    chdk-src/core/bend.c:30-42, 592-656 and chdk-src/core/bendx.c:22-50, 413-452). */
module TagText {
  import opened Bend
  import Bits
  import opened ShotRecord
  import opened Words

  const TEXT_MAX: nat := 1024
  const MARK: string := "@rewired_optics"

  // ----- Names -----

  function Digit(v: nat): char
    requires v < 36
  {
    if v < 10 then '0' + v as char else 'a' + (v - 10) as char
  }

  function Digits(v: nat): (s: string)
    ensures s != ""
  {
    if v < 10 then [Digit(v)] else Digits(v / 10) + [Digit(v % 10)]
  }

  function Number(v: int): string { if v < 0 then "-" + Digits(-v) else Digits(v) }

  function BusShort(k: nat): string {
    if k < BUS_COUNT then ["HC", "Hc", "VC", "Vc", "FR", "DG", "OB", "NZ", "SH", "VH", "PY", "TP"][k] else "NZ"
  }

  function SourceName(src: byte): string {
    var c, k := Class(src), Index(src);
    if c == C_DATA then ['d', Digit(k)]
    else if c == C_NDATA then ['~', Digit(k)]
    else if c == C_TIE then (if k % 2 == 1 then "HI" else "LO")
    else if c == C_BUS then BusShort(k)
    else if c == C_NBUS then "~" + BusShort(k)
    else "?"
  }

  function TrashName(k: nat): string
    requires k < TRASH_COUNT
  {
    ["White", "Blocky", "Ramp", "Burst", "Sensor seed"][k]
  }

  function LayoutName(k: nat): string {
    if k == 1 then "Top / bottom" else if k == 2 then "Left / right" else if k == 3 then "Quarters"
    else if k == 4 then "Centre circle" else if k == 5 then "Rings" else if k == 6 then "Diagonal"
    else if k == 7 then "Wedges - X" else if k == 8 then "Bands ---" else if k == 9 then "Bars |||"
    else if k == 10 then "Checkerboard" else if k == 11 then "Warped lines" else if k == 12 then "Zigzag"
    else if k == 13 then "Truchet" else if k == 14 then "Wave lines" else if k == 15 then "Checks"
    else if k == 16 then "Mirror tiles" else "Off"
  }

  function EffectName(k: nat): string {
    if k == 1 then "Byte order" else if k == 2 then "Bit slip" else if k == 3 then "Sync tear"
    else if k == 4 then "Row addr" else if k == 5 then "Col addr" else if k == 6 then "DMA stride"
    else if k == 7 then "Refresh" else if k == 8 then "Bus echo" else if k == 9 then "Line mem"
    else if k == 10 then "Field flip" else if k == 11 then "ROM bus" else if k == 12 then "Clock slip"
    else if k == 13 then "CFA phase" else if k == 14 then "Clamp run" else if k == 15 then "Bloom"
    else if k == 16 then "Pixel sort" else if k == 17 then "Lock loss" else if k == 18 then "JPEG bus" else "Off"
  }

  // The amount of an effect, in its own units.
  function Label(x: Effect): string {
    var k, a, r := x.kind as int, x.amount as int, x.reach as int;
    if k == 0 then ""
    else if k == 1 then ["byte", "word", "grp", "nib", "rev"][if a <= 4 then a else 0]
    else Digits(
      if k == 2 then a + 1 + r * 8
      else if k == 3 then a + 1
      else if k == 4 || k == 5 then Bits.Pow2(a)
      else if k == 6 || k == 8 then a + 1 + r * 64
      else if k == 9 || k == 10 then a + 2
      else a)
  }

  // ----- The prose -----

  // Pins from i - 1 down, as the strip reads them.
  function Pins(route: seq<byte>, i: nat): string
    requires i <= |route|
  {
    if i == 0 then "" else " " + Number(i - 1) + ":" + SourceName(route[i - 1]) + Pins(route, i - 1)
  }

  function BendProse(b: Recipe, bits: nat): string
    requires |b.route| >= bits && b.trashType < TRASH_COUNT
  {
    "bend" + Pins(b.route, bits) + "\ndepth " + Number(b.depth) + "  trash " + TrashName(b.trashType) + "\n"
  }

  function Regions(n: nat): string {
    if n == 0 then "" else Regions(n - 1) + "  " + Number(n) + ":" + "bend" + Number(n)
  }

  function SegProse(s: Segs): string { "seg " + LayoutName(s.layout) + Regions(SegCount(s.layout)) + "\n" }

  function Amount(x: Effect): string { if Label(x) == "" then "" else " " + Label(x) }

  function Effects(c: Chain, n: nat): string
    requires n <= |c.items|
  {
    if n == 0 then ""
    else Effects(c, n - 1) + (if n > 1 then " >" else "") + " " + EffectName(c.items[n - 1].kind) + Amount(c.items[n - 1])
  }

  function ChainProse(c: Chain): string
    requires |c.items| == CHAIN_MAX
  {
    "x" + Effects(c, if c.n < CHAIN_MAX then c.n else CHAIN_MAX) + "\n"
  }

  // What the description looks up is there, and what it shifts stays in a word: the trash name of a bend
  // that is on, and the addresses of the effects of a chain that is on.
  predicate Describable(t: Shot)
    requires |t.chain.items| == CHAIN_MAX
  {
    && (t.bendOn ==> t.bend.trashType < TRASH_COUNT)
    && (t.chainOn ==> forall i | 0 <= i < CHAIN_MAX && i < t.chain.n :: Shiftable(t.chain.items[i]))
  }

  predicate Shiftable(x: Effect) { x.kind == 4 || x.kind == 5 ==> x.amount < 32 }

  function Prose(t: Shot, bits: nat): string
    requires |t.bend.route| >= bits && |t.chain.items| == CHAIN_MAX && Describable(t)
  {
    MARK + "\n" + (if t.bendOn then BendProse(t.bend, bits) else "")
      + (if t.segs.layout != 0 then SegProse(t.segs) else "") + (if t.chainOn then ChainProse(t.chain) else "")
  }

  // ----- Nothing in it ends a string or begins a record -----

  // A byte of plain text.
  predicate Ascii(c: char) { '\0' < c <= '~' }

  // Plain text, with no H before a 1.
  predicate Inner(s: string) {
    forall i | 0 <= i < |s| :: Ascii(s[i]) && (s[i] == 'H' && i + 1 < |s| ==> s[i + 1] != '1')
  }

  // Neither within it nor across to what comes before it.
  predicate Calm(s: string) { Inner(s) && (s != "" ==> s[0] != '1') }

  lemma CalmJoin(a: string, b: string)
    requires Inner(a) && Calm(b)
    ensures Inner(a + b) && (Calm(a) ==> Calm(a + b))
  {
    var s := a + b;
    forall i | 0 <= i < |s| ensures Ascii(s[i]) && (s[i] == 'H' && i + 1 < |s| ==> s[i + 1] != '1') {
      if i < |a| {
        assert s[i] == a[i];
        if i + 1 < |a| { assert s[i + 1] == a[i + 1]; }
      } else {
        assert s[i] == b[i - |a|];
        if i + 1 < |s| { assert s[i + 1] == b[i + 1 - |a|]; }
      }
    }
  }

  // A letter or a sign before something.
  lemma CalmAfter(a: string, s: string)
    requires Calm(a) && a != "" && a[|a| - 1] != 'H' && Inner(s)
    ensures Calm(a + s)
  {
    var r := a + s;
    forall i | 0 <= i < |r| ensures Ascii(r[i]) && (r[i] == 'H' && i + 1 < |r| ==> r[i + 1] != '1') {
      if i < |a| {
        assert r[i] == a[i];
        if i + 1 < |a| { assert r[i + 1] == a[i + 1]; }
      } else {
        assert r[i] == s[i - |a|];
        if i + 1 < |r| { assert r[i + 1] == s[i + 1 - |a|]; }
      }
    }
  }

  lemma {:induction false} DigitsInner(v: nat)
    ensures forall i | 0 <= i < |Digits(v)| :: '0' <= Digits(v)[i] <= '9'
  {
    if v >= 10 { DigitsInner(v / 10); }
  }

  lemma {:induction false} DigitsShort(v: nat, n: nat, bound: nat)
    requires n > 0 && v < bound && bound == Tens(n)
    ensures |Digits(v)| <= n
    decreases n
  {
    assert Tens(1) == 10;
    if v >= 10 { DigitsShort(v / 10, n - 1, Tens(n - 1)); }
  }

  // What a decimal number says.
  function Said(s: string): int {
    if s == "" then 0 else 10 * Said(s[..|s| - 1]) + (s[|s| - 1] as int - '0' as int)
  }

  lemma {:induction false} DigitsSay(v: nat)
    ensures Said(Digits(v)) == v && (Digits(v)[0] == '0' ==> v == 0)
  {
    var s := Digits(v);
    if v >= 10 {
      DigitsSay(v / 10);
      assert s[..|s| - 1] == Digits(v / 10);
    }
  }

  function Tens(n: nat): nat { if n == 0 then 1 else 10 * Tens(n - 1) }

  lemma TenDigits()
    ensures Tens(10) == 10_000_000_000
  {
    assert Tens(5) == 100000;
  }

  lemma NumberIs(v: nat)
    ensures Inner(Number(v))
    ensures v < 100 ==> |Number(v)| <= 2
    ensures v < 10000 ==> |Number(v)| <= 4
    ensures v < 0x1_0000_0000 ==> |Number(v)| <= 10
  {
    DigitsInner(v);
    assert Tens(1) == 10 && Tens(2) == 100 && Tens(3) == 1000 && Tens(4) == 10000;
    TenDigits();
    if v < 100 { DigitsShort(v, 2, 100); }
    if v < 10000 { DigitsShort(v, 4, 10000); }
    if v < 0x1_0000_0000 { DigitsShort(v, 10, 10_000_000_000); }
    hide Digits, Tens;
  }

  // A name of at most n characters, without a 1.
  predicate Short(s: string, n: nat) { |s| <= n && forall i | 0 <= i < |s| :: Ascii(s[i]) && s[i] != '1' }

  lemma ShortIsInner(s: string, n: nat)
    requires Short(s, n)
    ensures Inner(s) && |s| <= n && Calm(s)
  {
  }

  lemma LayoutNames1()
    ensures Short("Top / bottom", 13) && Short("Left / right", 13) && Short("Quarters", 13)
    ensures Short("Centre circle", 13) && Short("Rings", 13) && Short("Diagonal", 13)
  {
  }

  lemma LayoutNames2()
    ensures Short("Wedges - X", 13) && Short("Bands ---", 13) && Short("Bars |||", 13)
    ensures Short("Checkerboard", 13) && Short("Warped lines", 13) && Short("Zigzag", 13)
  {
  }

  lemma LayoutNames3()
    ensures Short("Truchet", 13) && Short("Wave lines", 13) && Short("Checks", 13)
    ensures Short("Mirror tiles", 13) && Short("Off", 13)
  {
  }

  lemma EffectNames1()
    ensures Short("Byte order", 12) && Short("Bit slip", 12) && Short("Sync tear", 12)
    ensures Short("Row addr", 12) && Short("Col addr", 12)
  {
  }

  lemma EffectNames2()
    ensures Short("DMA stride", 12) && Short("Refresh", 12) && Short("Bus echo", 12)
    ensures Short("Line mem", 12) && Short("Field flip", 12)
  {
  }

  lemma EffectNames3()
    ensures Short("ROM bus", 12) && Short("Clock slip", 12) && Short("CFA phase", 12)
    ensures Short("Clamp run", 12) && Short("Bloom", 12)
  {
  }

  lemma EffectNames4()
    ensures Short("Pixel sort", 12) && Short("Lock loss", 12) && Short("JPEG bus", 12)
    ensures Short("Off", 12)
  {
  }

  lemma TrashNames1()
    ensures Short("White", 11) && Short("Blocky", 11) && Short("Ramp", 11)
    ensures Short("Burst", 11) && Short("Sensor seed", 11)
  {
  }

  lemma BusNames1()
    ensures Short("HC", 2) && Short("Hc", 2) && Short("VC", 2)
    ensures Short("Vc", 2) && Short("FR", 2) && Short("DG", 2)
  {
  }

  lemma BusNames2()
    ensures Short("OB", 2) && Short("NZ", 2) && Short("SH", 2)
    ensures Short("VH", 2) && Short("PY", 2) && Short("TP", 2)
  {
  }

  lemma NamesAre(k: nat)
    ensures Short(LayoutName(k), 13) && Short(EffectName(k), 12) && Short(BusShort(k), 2)
    ensures k < TRASH_COUNT ==> Short(TrashName(k), 11)
  {
    hide Short;
    LayoutNames1();
    LayoutNames2();
    LayoutNames3();
    EffectNames1();
    EffectNames2();
    EffectNames3();
    EffectNames4();
    TrashNames1();
    BusNames1();
    BusNames2();
  }

  // Calm, and at most n characters.
  predicate Fine(s: string, n: nat) { Calm(s) && |s| <= n }

  lemma FineJoin(a: string, n: nat, b: string, m: nat)
    requires Fine(a, n) && Fine(b, m)
    ensures Fine(a + b, n + m)
  {
    CalmJoin(a, b);
  }

  // A word of the text that does not end in H, and what it stands before.
  lemma FineAfter(a: string, n: nat, s: string, m: nat)
    requires Fine(a, n) && a != "" && a[|a| - 1] != 'H' && Inner(s) && |s| <= m
    ensures Fine(a + s, n + m)
  {
    CalmAfter(a, s);
  }

  lemma FineNone(n: nat)
    ensures Fine("", n)
  {
  }

  lemma FineMore(s: string, n: nat, m: nat)
    requires Fine(s, n) && n <= m
    ensures Fine(s, m)
  {
  }

  lemma WordsAreFine()
    ensures Fine(MARK, 15) && Fine("\n", 1) && Fine(" ", 1) && Fine(":", 1) && Fine("bend", 4) && Fine(":bend", 5)
    ensures Fine("\ndepth ", 7) && Fine("  trash ", 8) && Fine("seg ", 4) && Fine("  ", 2) && Fine("x", 1) && Fine(" >", 2)
  {
    hide Fine;
    Words1();
    Words2();
    Words3();
  }

  lemma Words1()
    ensures Fine(MARK, 15) && Fine("\n", 1) && Fine(" ", 1) && Fine(":", 1)
  {
  }

  lemma Words2()
    ensures Fine("bend", 4) && Fine(":bend", 5) && Fine("\ndepth ", 7) && Fine("  trash ", 8)
  {
  }

  lemma Words3()
    ensures Fine("seg ", 4) && Fine("  ", 2) && Fine("x", 1) && Fine(" >", 2)
  {
  }

  lemma SourceNameIs(src: byte)
    ensures Inner(SourceName(src)) && |SourceName(src)| <= 3
  {
    var k := Index(src);
    NamesAre(k);
    ShortIsInner(BusShort(k), 2);
    assert Inner("HI") && Inner("LO") && Inner("?") && Inner(['d', Digit(k)]) && Inner(['~', Digit(k)]);
    NotIsInner(BusShort(k));
    hide BusShort, Digit;
  }

  lemma NotIsInner(s: string)
    requires Inner(s)
    ensures Inner("~" + s)
  {
    assert Fine("~", 1);
    FineAfter("~", 1, s, |s|);
  }

  // " pin:name"
  lemma PinIs(i: nat, name: string)
    requires i < 100 && Inner(name) && |name| <= 3
    ensures Fine(" " + Number(i) + ":" + name, 7)
  {
    hide *;
    NumberIs(i);
    WordsAreFine();
    Ends();
    FineAfter(" ", 1, Number(i), 2);
    FineAfter(":", 1, name, 3);
    FineJoin(" " + Number(i), 3, ":" + name, 4);
    assert " " + Number(i) + (":" + name) == " " + Number(i) + ":" + name;
  }

  lemma Ends()
    ensures " "[0] != 'H' && ":"[0] != 'H' && ":bend"[4] != 'H' && "\ndepth "[6] != 'H' && "  trash "[7] != 'H'
    ensures "seg "[3] != 'H' && "  "[1] != 'H'
  {
  }

  lemma {:induction false} PinsAre(route: seq<byte>, i: nat)
    requires i <= |route| && i <= 16
    ensures Fine(Pins(route, i), 7 * i)
  {
    hide Number, SourceName, Fine;
    if i == 0 {
      FineNone(0);
    } else {
      SourceNameIs(route[i - 1]);
      PinIs(i - 1, SourceName(route[i - 1]));
      PinsAre(route, i - 1);
      FineJoin(" " + Number(i - 1) + ":" + SourceName(route[i - 1]), 7, Pins(route, i - 1), 7 * (i - 1));
    }
  }

  lemma BendProseIs(b: Recipe, bits: nat)
    requires |b.route| >= bits && bits <= 16 && b.trashType < TRASH_COUNT
    ensures Fine(BendProse(b, bits), 150)
  {
    hide *;
    BendProseParts(b, bits);
    PinsAre(b.route, bits);
    NumberIs(b.depth);
    NamesAre(b.trashType);
    ShortIsInner(TrashName(b.trashType), 11);
    WordsAreFine();
    Ends();
    FineAfter("\ndepth ", 7, Number(b.depth), 4);
    FineAfter("  trash ", 8, TrashName(b.trashType), 11);
    var p, q := "bend" + Pins(b.route, bits), "\ndepth " + Number(b.depth);
    FineJoin("bend", 4, Pins(b.route, bits), 7 * bits);
    FineJoin(p, 4 + 7 * bits, q, 11);
    FineJoin(p + q, 15 + 7 * bits, "  trash " + TrashName(b.trashType), 19);
    FineJoin(p + q + ("  trash " + TrashName(b.trashType)), 34 + 7 * bits, "\n", 1);
    FineMore(p + q + ("  trash " + TrashName(b.trashType)) + "\n", 35 + 7 * bits, 150);
  }

  lemma BendProseParts(b: Recipe, bits: nat)
    requires |b.route| >= bits && b.trashType < TRASH_COUNT
    ensures BendProse(b, bits) == ("bend" + Pins(b.route, bits)) + ("\ndepth " + Number(b.depth))
                                  + ("  trash " + TrashName(b.trashType)) + "\n"
  {
    hide Pins, Number, TrashName;
  }

  lemma {:induction false} RegionsAre(n: nat)
    requires n <= 4
    ensures Fine(Regions(n), 11 * n)
  {
    hide Number, Fine;
    if n == 0 {
      FineNone(0);
    } else {
      RegionsAre(n - 1);
      NumberIs(n);
      WordsAreFine();
      Ends();
      FineAfter("  ", 2, Number(n), 2);
      FineAfter(":bend", 5, Number(n), 2);
      FineJoin("  " + Number(n), 4, ":bend" + Number(n), 7);
      FineJoin(Regions(n - 1), 11 * (n - 1), "  " + Number(n) + (":bend" + Number(n)), 11);
      assert Regions(n - 1) + ("  " + Number(n) + (":bend" + Number(n)))
          == Regions(n - 1) + "  " + Number(n) + ":" + "bend" + Number(n);
    }
  }

  lemma SegProseIs(s: Segs)
    ensures Fine(SegProse(s), 62)
  {
    hide Regions, LayoutName, Fine;
    var n, name := SegCount(s.layout), LayoutName(s.layout);
    RegionsAre(n);
    FineMore(Regions(n), 11 * n, 44);
    NamesAre(s.layout);
    ShortIsInner(name, 13);
    WordsAreFine();
    Ends();
    FineAfter("seg ", 4, name, 13);
    FineJoin("seg " + name, 17, Regions(n), 44);
    FineJoin("seg " + name + Regions(n), 61, "\n", 1);
  }

  lemma LabelIs(x: Effect)
    requires Shiftable(x)
    ensures Inner(Label(x)) && |Label(x)| <= 10
  {
    var k, a, r := x.kind as int, x.amount as int, x.reach as int;
    if a < 32 { AddressFits(a); }
    var v := if k == 2 then a + 1 + r * 8
             else if k == 3 then a + 1
             else if k == 4 || k == 5 then Bits.Pow2(a)
             else if k == 6 || k == 8 then a + 1 + r * 64
             else if k == 9 || k == 10 then a + 2
             else a;
    assert v < 0x1_0000_0000;
    NumberIs(v);
    assert Inner("") && Inner("byte") && Inner("word") && Inner("grp") && Inner("nib") && Inner("rev");
    hide Digits, Inner;
  }

  lemma AddressFits(a: nat)
    requires a < 32
    ensures Bits.Pow2(a) < 0x1_0000_0000
  {
    assert Bits.Pow2(8) == 0x100 && Bits.Pow2(16) == 0x1_0000 && Bits.Pow2(24) == 0x100_0000 && Bits.Pow2(31) == 0x8000_0000;
    Bits.Pow2Monotone(a, 31);
  }

  // " > name amount"
  lemma EffectIs(x: Effect, first: bool)
    requires Shiftable(x)
    ensures Fine((if first then "" else " >") + " " + EffectName(x.kind) + Amount(x), 26)
  {
    hide *;
    AmountIs(x);
    NamesAre(x.kind);
    ShortIsInner(EffectName(x.kind), 12);
    WordsAreFine();
    Ends();
    FineNone(2);
    FineAfter(" ", 1, EffectName(x.kind), 12);
    var sep := if first then "" else " >";
    FineJoin(sep, 2, " " + EffectName(x.kind), 13);
    FineJoin(sep + (" " + EffectName(x.kind)), 15, Amount(x), 11);
    assert sep + (" " + EffectName(x.kind)) + Amount(x) == sep + " " + EffectName(x.kind) + Amount(x);
  }

  lemma AmountIs(x: Effect)
    requires Shiftable(x)
    ensures Fine(Amount(x), 11)
  {
    LabelIs(x);
    hide Label, Fine, Inner;
    WordsAreFine();
    Ends();
    FineNone(11);
    FineAfter(" ", 1, Label(x), 10);
  }

  lemma {:induction false} EffectsAre(c: Chain, n: nat)
    requires |c.items| == CHAIN_MAX && n <= CHAIN_MAX && forall i | 0 <= i < n :: Shiftable(c.items[i])
    ensures Fine(Effects(c, n), 26 * n)
  {
    hide Fine, EffectName, Amount;
    if n == 0 {
      FineNone(0);
    } else {
      EffectsAre(c, n - 1);
      var x, sep := c.items[n - 1], if n > 1 then " >" else "";
      EffectIs(x, n == 1);
      FineJoin(Effects(c, n - 1), 26 * (n - 1), sep + " " + EffectName(x.kind) + Amount(x), 26);
      assert Effects(c, n) == Effects(c, n - 1) + (sep + " " + EffectName(x.kind) + Amount(x));
    }
  }

  lemma ChainProseIs(c: Chain)
    requires |c.items| == CHAIN_MAX && forall i | 0 <= i < CHAIN_MAX && i < c.n :: Shiftable(c.items[i])
    ensures Fine(ChainProse(c), 106)
  {
    hide Fine, Effects;
    var n := if c.n < CHAIN_MAX then c.n else CHAIN_MAX;
    EffectsAre(c, n);
    FineMore(Effects(c, n), 26 * n, 104);
    WordsAreFine();
    FineJoin("x", 1, Effects(c, n), 104);
    FineJoin("x" + Effects(c, n), 105, "\n", 1);
  }

  // Whatever is said of a state, it is short, plain text, and cannot be taken for a record.
  lemma ProseIsFine(t: Shot, bits: nat)
    requires ShotFormed(t) && Describable(t) && bits <= 16
    ensures Fine(Prose(t, bits), 334) && MARK <= Prose(t, bits)
  {
    hide *;
    ProseParts(t, bits);
    SegProseIs(t.segs);
    WordsAreFine();
    FineNone(150);
    FineNone(62);
    FineNone(106);
    if t.bendOn { BendProseIs(t.bend, bits); }
    if t.chainOn { ChainProseIs(t.chain); }
    var a, b := if t.bendOn then BendProse(t.bend, bits) else "", if t.segs.layout != 0 then SegProse(t.segs) else "";
    var c := if t.chainOn then ChainProse(t.chain) else "";
    FineJoin(MARK, 15, "\n", 1);
    FineJoin(MARK + "\n", 16, a, 150);
    FineJoin(MARK + "\n" + a, 166, b, 62);
    FineJoin(MARK + "\n" + a + b, 228, c, 106);
  }

  lemma ProseParts(t: Shot, bits: nat)
    requires ShotFormed(t) && Describable(t) && bits <= 16
    ensures |t.bend.route| >= bits && |t.chain.items| == CHAIN_MAX
    ensures t.bendOn ==> t.bend.trashType < TRASH_COUNT
    ensures t.chainOn ==> forall i | 0 <= i < CHAIN_MAX && i < t.chain.n :: Shiftable(t.chain.items[i])
    ensures Prose(t, bits) == MARK + "\n" + (if t.bendOn then BendProse(t.bend, bits) else "")
      + (if t.segs.layout != 0 then SegProse(t.segs) else "") + (if t.chainOn then ChainProse(t.chain) else "")
    ensures MARK <= Prose(t, bits)
  {
    hide BendProse, SegProse, ChainProse;
  }

  // A state that has passed the gates can always be described.
  lemma GatedDescribable(t: Shot, nbits: byte)
    requires ShotFormed(t) && 2 <= nbits <= MAX_BITS
    ensures ShotFormed(Gated(t, nbits)) && Describable(Gated(t, nbits))
  {
    GatedFormed(t, nbits);
    GatedIs(t, nbits);
    ChainKept(t.chain);
    hide CleanChain, CleanSegs, Gated;
  }
}

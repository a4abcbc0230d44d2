/** Frame layouts: which region of the picture a pixel is in (chdk-src/core/bend.c:687-783, 1105-1316,
    chdk-src/include/bend.h:118-182).  The region map is defined per pixel; the program writes it as
    run-length spans, one row at a time. */
module Regions {
  import opened Arith
  import opened Layouts
  import SquareRoot

  const SEG_SPANS := 192
  const SEG_MINCELL := 18

  // C division, which truncates towards zero.
  function CDiv(a: int, b: int): int
    requires b > 0
  {
    if a >= 0 then a / b else -((-a) / b)
  }

  function Min(a: int, b: int): int { if a < b then a else b }

  function Max(a: int, b: int): int { if a < b then b else a }

  function Clamp(size: int): int { Max(1, Min(size, 100)) }

  // Half the short side.
  function RadiusMax(w: int, h: int): int { CDiv(Min(w, h), 2) }

  function Radius(size: int, w: int, h: int): int { CDiv(RadiusMax(w, h) * Clamp(size), 100) }

  // Where the main diagonal crosses row y.
  function Crossing(y: int, w: int, h: int): int { CDiv(w * y, if h > 0 then h else 1) }

  function Band(size: int, h: int): int { Max(1, CDiv(CDiv(h * Clamp(size), 100), SEG_MAX)) }

  function Bar(size: int, w: int): int
  {
    Max(1, Max(CDiv(w, SEG_MINCELL), CDiv(CDiv(w * Clamp(size), 100), SEG_MAX)))
  }

  function Cell(size: int, w: int, h: int): int
  {
    Max(1, Max(CDiv(w, SEG_MINCELL), CDiv(CDiv(RadiusMax(w, h) * 2 * Clamp(size), 100), SEG_MAX)))
  }

  // Distance between the samples a pattern layout takes along a row.
  function Step(layout: Layout, size: int, w: int): int {
    var feats := if layout == Warp then (8 + Clamp(size) * 56 / 100) * 4 else (2 + Clamp(size) * 10 / 100) * 16;
    Max(1, CDiv(w, feats))
  }

  // Pixel x of the row dy below the centre has both its edges on the disc of radius r around cx.
  ghost predicate InDisc(r: int, cx: int, x: int, dy: int) {
    r > 0 && SquareRoot.Inside(r, x - cx, dy) && SquareRoot.Inside(r, x + 1 - cx, dy)
  }

  // The region of pixel (x, y).  A pattern layout asks `figure` at the sample at or before x.
  ghost function RegionAt(layout: Layout, size: int, x: int, y: int, w: int, h: int, figure: int -> bool): nat
    requires 0 <= x < w
  {
    var cx, cy := w / 2, CDiv(h, 2);
    var y0 := Max(0, y);
    match layout
    case Off => 0
    case HalfH => if y < cy then 0 else 1
    case HalfV => if x < cx then 0 else 1
    case Quad => (if y < cy then 0 else 2) + (if x < cx then 0 else 1)
    case Circle => if InDisc(Radius(size, w, h), cx, x, y - cy) then 0 else 1
    case Rings =>
      var r := Radius(size, w, h);
      if InDisc(CDiv(r, 2), cx, x, y - cy) then 0 else if InDisc(r, cx, x, y - cy) then 1 else 2
    case Diag => if x < Crossing(y, w, h) then 1 else 0
    case Wedge =>
      var d := Crossing(y, w, h);
      if x < Min(d, w - d) then 3 else if x < Max(d, w - d) then (if y < cy then 0 else 2) else 1
    case Bands => (y0 / Band(size, h)) % SEG_MAX
    case Bars => (x / Bar(size, w)) % SEG_MAX
    case Checker => (x / Cell(size, w, h) + y0 / Cell(size, w, h)) % SEG_MAX
    case _ =>
      var step := Step(layout, size, w);
      if figure(x / step * step) then 1 else 0
  }

  // ----- Rows of spans -----

  // Span i of a row covers the pixels from the end of span i - 1 to its own end.
  datatype Span = Span(region: nat, end: nat)

  function End(row: seq<Span>): nat { if row == [] then 0 else row[|row| - 1].end }

  // The spans follow one another without gaps or overlap, and none is empty.
  ghost predicate Tiles(row: seq<Span>) {
    && (row != [] ==> row[0].end > 0)
    && forall i, j | 0 <= i < j < |row| :: row[i].end < row[j].end
  }

  // Span i is the one that covers pixel x.
  ghost predicate Covers(row: seq<Span>, i: nat, x: int) {
    i < |row| && (if i == 0 then 0 else row[i - 1].end) <= x < row[i].end
  }

  // The region of the last span that begins at or before x.
  ghost function At(row: seq<Span>, x: int): nat
    requires row != []
  {
    if |row| == 1 || x >= row[|row| - 2].end then row[|row| - 1].region else At(row[..|row| - 1], x)
  }

  // The spans give every pixel up to their end the region f gives it.
  ghost predicate Shows(row: seq<Span>, f: int -> nat) {
    forall x | 0 <= x < End(row) :: At(row, x) == f(x)
  }

  lemma {:induction false} AtCovering(row: seq<Span>, i: nat, x: int)
    requires Tiles(row) && Covers(row, i, x)
    ensures At(row, x) == row[i].region
  {
    if i < |row| - 1 {
      AtCovering(row[..|row| - 1], i, x);
    }
  }

  // Every pixel of a tiled row is covered by exactly one span.
  lemma {:induction false} OneSpanCovers(row: seq<Span>, x: int) returns (i: nat)
    requires Tiles(row) && 0 <= x < End(row)
    ensures Covers(row, i, x) && forall j: nat :: Covers(row, j, x) ==> j == i
  {
    if |row| == 1 || x >= row[|row| - 2].end {
      i := |row| - 1;
    } else {
      i := OneSpanCovers(row[..|row| - 1], x);
    }
    forall j: nat | Covers(row, j, x) ensures j == i {
      if j < i { EndsInOrder(row, j, i); } else if i < j { EndsInOrder(row, i, j); }
    }
  }

  lemma EndsInOrder(row: seq<Span>, i: nat, j: nat)
    requires Tiles(row) && i < j < |row|
    ensures row[i].end <= row[j - 1].end
  {
  }

  // What appending a span of region s up to x makes of a row.
  function Emitted(row: seq<Span>, s: nat, x: int, w: nat): seq<Span> {
    var x' := Min(x, w);
    if x' <= End(row) then row
    else if row != [] && row[|row| - 1].region == s then row[|row| - 1 := Span(s, x')]
    else if |row| >= SEG_SPANS then row[|row| - 1 := row[|row| - 1].(end := x')]
    else row + [Span(s, x')]
  }

  ghost predicate Named(row: seq<Span>, count: nat) {
    forall i | 0 <= i < |row| :: row[i].region < count
  }

  // A row under construction.  Until the array is full it is exact; after that only its last span
  // can be wrong, because it has been stretched over what followed.
  ghost predicate Painted(row: seq<Span>, f: int -> nat, count: nat, w: nat) {
    && Tiles(row) && End(row) <= w && |row| <= SEG_SPANS && Named(row, count)
    && (|row| < SEG_SPANS ==> Shows(row, f))
    && (row != [] ==> Shows(row[..|row| - 1], f))
  }

  lemma EmitPaints(row: seq<Span>, s: nat, x: int, w: nat, f: int -> nat, count: nat)
    requires Painted(row, f, count, w) && s < count
    requires forall u | End(row) <= u < Min(x, w) :: f(u) == s
    ensures var r := Emitted(row, s, x, w);
      && Painted(r, f, count, w)
      && End(r) == Max(End(row), Min(x, w))
      && |row| <= |r| <= |row| + 1
  {
    EmitTiles(row, s, x, w, count);
    var r, n := Emitted(row, s, x, w), |row|;
    if |r| > n {
      assert r[..n] == row;
    } else if r != row {
      assert r[..n - 1] == row[..n - 1];
    }
    if |r| < SEG_SPANS {
      EmitShows(row, s, x, w, f);
    }
  }

  lemma EmitTiles(row: seq<Span>, s: nat, x: int, w: nat, count: nat)
    requires Tiles(row) && |row| <= SEG_SPANS && End(row) <= w && Named(row, count) && s < count
    ensures var r := Emitted(row, s, x, w);
      && Tiles(r) && |row| <= |r| <= |row| + 1 && |r| <= SEG_SPANS
      && End(r) == Max(End(row), Min(x, w)) <= w
      && Named(r, count)
  {
  }

  lemma EmitShows(row: seq<Span>, s: nat, x: int, w: nat, f: int -> nat)
    requires Tiles(row) && Shows(row, f) && End(row) <= w && |row| < SEG_SPANS
    requires forall u | End(row) <= u < Min(x, w) :: f(u) == s
    ensures Shows(Emitted(row, s, x, w), f)
  {
    var r, n := Emitted(row, s, x, w), |row|;
    forall u | 0 <= u < End(r) ensures At(r, u) == f(u) {
      if |r| > n {
        assert r[..n] == row;
      } else if r != row {
        assert r[..n - 1] == row[..n - 1];
      }
    }
  }

  // The region map of one row.
  ghost function RowMap(layout: Layout, size: int, y: int, w: int, h: int, figure: int -> bool): int -> nat {
    x => if 0 <= x < w then RegionAt(layout, size, x, y, w, h, figure) else 0
  }

  // ----- Discs and blocks -----

  lemma RadiusFits(size: int, w: int, h: int)
    requires w > 0
    ensures Radius(size, w, h) <= w / 2 && CDiv(Radius(size, w, h), 2) <= w / 2
    ensures CDiv(Radius(size, w, h), 2) <= Max(0, Radius(size, w, h))
  {
    PercentOf(RadiusMax(w, h), Clamp(size));
  }

  lemma PercentOf(m: int, k: int)
    requires 1 <= k <= 100
    ensures CDiv(m * k, 100) <= Max(0, m)
  {
    if m >= 0 {
      MulMonotone(k, 100, m);
      MulMonotone(0, m, k);
    } else {
      MulMonotone(m, 0, k);
    }
  }

  // What the chord of the row says about the disc.
  ghost predicate IsChord(c: int, r: int, dy: int) {
    && c >= 0
    && (r <= 0 || dy >= r || -dy >= r ==> c == 0)
    && (0 < r && -r < dy < r ==> forall dx :: -c <= dx <= c <==> SquareRoot.Inside(r, dx, dy))
  }

  lemma ChordCutsDisc(c: int, r: int, cx: int, x: int, dy: int)
    requires IsChord(c, r, dy)
    ensures InDisc(r, cx, x, dy) <==> cx - c <= x < cx + c
  {
    if 0 < r && (dy >= r || -dy >= r) {
      var a := if dy < 0 then -dy else dy;
      SquareRoot.SquareMonotone(r, a);
      assert a * a == dy * dy;
      Apart(x - cx);
    }
  }

  lemma Apart(d: int)
    ensures d * d > 0 || (d + 1) * (d + 1) > 0
  {
  }

  lemma DiscsNest(ri: int, ro: int, cx: int, x: int, dy: int)
    requires ri <= Max(0, ro) && InDisc(ri, cx, x, dy)
    ensures InDisc(ro, cx, x, dy)
  {
    SquareRoot.SquareMonotone(ri, ro);
  }

  lemma CircleMap(size: int, y: int, w: nat, h: int, figure: int -> bool, c: int, x: int)
    requires 0 <= x < w && IsChord(c, Radius(size, w, h), y - CDiv(h, 2))
    ensures RowMap(Circle, size, y, w, h, figure)(x) == (if w / 2 - c <= x < w / 2 + c then 0 else 1)
  {
    ChordCutsDisc(c, Radius(size, w, h), w / 2, x, y - CDiv(h, 2));
  }

  // The circle's region is the disc without the rightmost pixel of its chord.  A row that only touches
  // the circle loses the one pixel it has there.
  lemma DiscWithoutRightEdge(size: int, x: int, y: int, w: nat, h: int, figure: int -> bool, c: int)
    requires 0 <= x < w && IsChord(c, Radius(size, w, h), y - CDiv(h, 2))
    ensures RegionAt(Circle, size, x, y, w, h, figure) == 0 <==>
            Radius(size, w, h) > 0 && SquareRoot.Inside(Radius(size, w, h), x - w / 2, y - CDiv(h, 2)) && x != w / 2 + c
  {
    EdgeOfChord(Radius(size, w, h), w / 2, x, y - CDiv(h, 2), c);
    hide IsChord, Radius, CDiv, SquareRoot.Inside;
  }

  lemma EdgeOfChord(r: int, cx: int, x: int, dy: int, c: int)
    requires IsChord(c, r, dy)
    ensures InDisc(r, cx, x, dy) <==> r > 0 && SquareRoot.Inside(r, x - cx, dy) && x != cx + c
  {
    ChordCutsDisc(c, r, cx, x, dy);
    hide InDisc;
    if 0 < r && (dy >= r || -dy >= r) {
      var a := if dy < 0 then -dy else dy;
      SquareRoot.SquareMonotone(r, a);
      if a > r { SquareRoot.SquareMonotone(r + 1, a); }
      assert a * a == dy * dy;
      NoSquare(x - cx);
    }
  }

  lemma NoSquare(d: int)
    ensures d * d >= 0 && (d != 0 ==> d * d > 0)
  {
  }

  // In a frame of ten by ten the circle of full size has its centre at (5, 5) and reaches from x = 1 to
  // x = 9 in row 2; the point (9, 2) lies on it and is not in its region, (1, 2) is.
  lemma CircleExample(figure: int -> bool)
    ensures Radius(100, 10, 10) == 5 && SquareRoot.Inside(5, 9 - 5, 2 - 5) && SquareRoot.Inside(5, 1 - 5, 2 - 5)
    ensures RegionAt(Circle, 100, 9, 2, 10, 10, figure) == 1 && RegionAt(Circle, 100, 1, 2, 10, 10, figure) == 0
  {
  }

  lemma RingsMap(size: int, y: int, w: nat, h: int, figure: int -> bool, ci: int, co: int, x: int)
    requires 0 <= x < w
    requires IsChord(co, Radius(size, w, h), y - CDiv(h, 2)) && IsChord(ci, CDiv(Radius(size, w, h), 2), y - CDiv(h, 2))
    ensures RowMap(Rings, size, y, w, h, figure)(x)
         == (if w / 2 - ci <= x < w / 2 + ci then 0 else if w / 2 - co <= x < w / 2 + co then 1 else 2)
    ensures w / 2 - ci <= x < w / 2 + ci ==> w / 2 - co <= x < w / 2 + co
  {
    var ro, dy := Radius(size, w, h), y - CDiv(h, 2);
    RadiusFits(size, w, h);
    ChordCutsDisc(co, ro, w / 2, x, dy);
    ChordCutsDisc(ci, CDiv(ro, 2), w / 2, x, dy);
    if InDisc(CDiv(ro, 2), w / 2, x, dy) { DiscsNest(CDiv(ro, 2), ro, w / 2, x, dy); }
  }

  lemma BlockOf(k: int, step: int, u: int)
    requires step > 0 && k * step <= u < k * step + step
    ensures u / step == k
  {
    QuotientIs(u, step, k, u - k * step);
  }

  lemma CheckerMap(size: int, y: int, w: nat, h: int, figure: int -> bool, k: int, u: int)
    requires 0 <= u < w && k * Cell(size, w, h) <= u < k * Cell(size, w, h) + Cell(size, w, h)
    ensures RowMap(Checker, size, y, w, h, figure)(u) == (k + Max(0, y) / Cell(size, w, h)) % SEG_MAX
  {
    BlockOf(k, Cell(size, w, h), u);
  }

  predicate IsPattern(layout: Layout) { layout in {Warp, Zigzag, Truchet, LineWave, Checks, Mirror} }

  lemma PatternMap(layout: Layout, size: int, y: int, w: nat, h: int, figure: int -> bool, k: int, u: int)
    requires IsPattern(layout) && 0 <= u < w
    requires k * Step(layout, size, w) <= u < k * Step(layout, size, w) + Step(layout, size, w)
    ensures RowMap(layout, size, y, w, h, figure)(u) == (if figure(k * Step(layout, size, w)) then 1 else 0)
  {
    BlockOf(k, Step(layout, size, w), u);
  }

  // How many runs the first n samples of a figure make.
  ghost function SampleRuns(figure: int -> bool, step: int, n: nat): nat {
    if n == 0 then 0
    else if n == 1 then 1
    else SampleRuns(figure, step, n - 1) + if figure((n - 1) * step) != figure((n - 2) * step) then 1 else 0
  }

  // How many runs the samples along a row of a pattern layout make: those at 0, step, 2*step, ... below w.
  ghost function FigureRuns(layout: Layout, size: int, w: nat, figure: int -> bool): nat
  {
    var step := Step(layout, size, w);
    SampleRuns(figure, step, (w + step - 1) / step)
  }

  lemma SampleCount(w: nat, step: int, n: nat)
    requires step >= 1 && n >= 1 && (n - 1) * step < w <= n * step
    ensures (w + step - 1) / step == n
  {
    BlockOf(n, step, w + step - 1);
  }

  // A pattern row after some runs, the next of which is of region cur: exact while the array has room for
  // the runs, and wrong from the first one on that it has not.
  ghost predicate Counted(row: seq<Span>, f: int -> nat, runs: nat, cur: nat) {
    if runs <= SEG_SPANS then
      |row| == runs && Shows(row, f) && (row != [] ==> row[|row| - 1].region != cur)
    else
      |row| == SEG_SPANS && exists u :: row[SEG_SPANS - 2].end <= u < End(row) && f(u) != row[SEG_SPANS - 1].region
  }

  lemma EmitCounts(row: seq<Span>, cur: nat, x: int, w: nat, f: int -> nat, runs: nat)
    requires Painted(row, f, 2, w) && Counted(row, f, runs, cur) && cur < 2 && End(row) < x <= w
    requires forall u | End(row) <= u < x :: f(u) == cur
    ensures Counted(Emitted(row, cur, x, w), f, runs + 1, 1 - cur)
  {
    var r := Emitted(row, cur, x, w);
    if runs < SEG_SPANS {
      EmitShows(row, cur, x, w, f);
    } else if runs == SEG_SPANS {
      assert f(End(row)) == cur;
    } else {
      var u :| row[SEG_SPANS - 2].end <= u < End(row) && f(u) != row[SEG_SPANS - 1].region;
      assert r[SEG_SPANS - 2].end <= u < End(r) && f(u) != r[SEG_SPANS - 1].region;
    }
  }

  lemma CountedShows(row: seq<Span>, f: int -> nat, runs: nat, cur: nat)
    requires Counted(row, f, runs, cur)
    ensures |row| == Min(runs, SEG_SPANS) && (Shows(row, f) <==> runs <= SEG_SPANS)
  {
    if runs > SEG_SPANS {
      var u :| row[SEG_SPANS - 2].end <= u < End(row) && f(u) != row[SEG_SPANS - 1].region;
      if u >= 0 { assert At(row, u) == row[SEG_SPANS - 1].region; }
    }
  }

  // A repeating layout has at most 36 cells in a row.
  lemma FewCells(k: int, cell: int, w: int)
    requires 0 <= k && 1 <= cell && w / SEG_MINCELL <= cell && k * cell < w
    ensures k < 36
  {
    if k >= 36 {
      MulMonotone(36, k, cell);
    }
  }

  // ----- What the measures are, without dividing -----

  lemma CDivIs(a: int, b: int)
    requires b > 0
    ensures var q := CDiv(a, b);
      if a >= 0 then q >= 0 && q * b <= a < q * b + b else q <= 0 && q * b - b < a <= q * b
  {
    if a >= 0 { RemainderBound(a, b); DivMod(a, b); } else { RemainderBound(-a, b); DivMod(-a, b); }
  }

  // Left of the falling diagonal, and left of the rising one.
  lemma LeftOfFalling(x: int, y: int, w: int, h: int)
    requires x >= 0 && h > 0
    ensures x < Crossing(y, w, h) <==> (x + 1) * h <= w * y
  {
    var q := Crossing(y, w, h);
    CDivIs(w * y, h);
    NextMultiple(q, h);
    if x < q { MulMonotone(x + 1, q, h); } else { MulMonotone(q + 1, x + 1, h); }
    MulMonotone(1, x + 1, h);
    hide CDiv;
  }

  lemma LeftOfRising(x: int, y: int, w: int, h: int)
    requires x < w && h > 0
    ensures x < w - Crossing(y, w, h) <==> w * y < (w - x) * h
  {
    var q, d := Crossing(y, w, h), w - x;
    CDivIs(w * y, h);
    NextMultiple(q, h);
    if q < d { MulMonotone(q + 1, d, h); } else { MulMonotone(d, q, h); }
    MulMonotone(1, d, h);
    hide CDiv;
  }

  // One side of the diagonal, by comparing the two fractions of the frame.
  lemma DiagCompares(size: int, x: int, y: int, w: int, h: int, figure: int -> bool)
    requires 0 <= x < w && h > 0
    ensures RegionAt(Diag, size, x, y, w, h, figure) == if (x + 1) * h <= w * y then 1 else 0
  {
    LeftOfFalling(x, y, w, h);
    hide Crossing, CDiv, Radius, Band, Bar, Cell, Step;
  }

  // Four triangles: left, top, bottom and right.
  lemma WedgeCompares(size: int, x: int, y: int, w: int, h: int, figure: int -> bool)
    requires 0 <= x < w && h > 0
    ensures var falling, rising := (x + 1) * h <= w * y, w * y < (w - x) * h;
      RegionAt(Wedge, size, x, y, w, h, figure)
      == if falling && rising then 3 else if !falling && !rising then 1 else if y < h / 2 then 0 else 2
  {
    LeftOfFalling(x, y, w, h);
    LeftOfRising(x, y, w, h);
    hide Crossing, Radius, Band, Bar, Cell, Step;
  }

  // The size is a percentage, held between 1 and 100.
  lemma ClampIs(size: int)
    ensures 1 <= size <= 100 ==> Clamp(size) == size
    ensures size < 1 ==> Clamp(size) == 1
    ensures size > 100 ==> Clamp(size) == 100
  {
  }

  // The radius is that percentage of half the short side.
  lemma RadiusIs(size: int, w: nat, h: nat)
    ensures var m := (if w < h then w else h) / 2;
      100 * Radius(size, w, h) <= m * Clamp(size) < 100 * Radius(size, w, h) + 100
  {
    var m := RadiusMax(w, h);
    MulMonotone(0, m, Clamp(size));
    CDivIs(m * Clamp(size), 100);
    hide Clamp;
  }

  // A quarter of a percentage of n.
  lemma QuarterOf(n: int, p: int)
    requires 1 <= p <= 100
    ensures var b := CDiv(CDiv(n * p, 100), SEG_MAX);
      n * p < 400 * Max(1, b) + 400 && (b < 1 || 400 * b <= n * p)
  {
    CDivIs(n * p, 100);
    CDivIs(CDiv(n * p, 100), SEG_MAX);
    hide CDiv;
  }

  // Bands, bars and cells are a quarter of that percentage of the frame, but at least one pixel; bars and cells are at
  // least an eighteenth of the row.
  lemma BandIs(size: int, h: int)
    ensures var b, p := Band(size, h), h * Clamp(size);
      b >= 1 && p < 400 * b + 400 && (b == 1 || 400 * b <= p)
  {
    QuarterOf(h, Clamp(size));
    hide CDiv;
  }

  lemma BarIs(size: int, w: nat)
    ensures var b, p := Bar(size, w), w * Clamp(size);
      b >= 1 && p < 400 * b + 400 && w < 18 * b + 18 && (b == 1 || 400 * b <= p || 18 * b <= w)
  {
    QuarterOf(w, Clamp(size));
    CDivIs(w, SEG_MINCELL);
    hide CDiv, Clamp;
  }

  lemma CellIs(size: int, w: nat, h: nat)
    ensures var b, p := Cell(size, w, h), (if w < h then w else h) / 2 * 2 * Clamp(size);
      b >= 1 && p < 400 * b + 400 && w < 18 * b + 18 && (b == 1 || 400 * b <= p || 18 * b <= w)
  {
    QuarterOf(RadiusMax(w, h) * 2, Clamp(size));
    CDivIs(w, SEG_MINCELL);
    assert RadiusMax(w, h) == (if w < h then w else h) / 2;
    hide CDiv, Clamp;
  }

  // A pattern is sampled four or sixteen times for each of its finest features.
  lemma StepIs(layout: Layout, size: int, w: nat)
    ensures var n := if layout == Warp then 32 + Clamp(size) * 56 / 100 * 4 else 32 + Clamp(size) * 10 / 100 * 16;
      var s := Step(layout, size, w);
      s >= 1 && w < n * s + n && (s == 1 || n * s <= w)
  {
    AtLeastOne(w, if layout == Warp then 32 + Clamp(size) * 56 / 100 * 4 else 32 + Clamp(size) * 10 / 100 * 16);
    hide CDiv, Clamp;
  }

  lemma AtLeastOne(w: nat, n: int)
    requires n > 0
    ensures var s := Max(1, CDiv(w, n)); s >= 1 && w < n * s + n && (s == 1 || n * s <= w)
  {
    CDivIs(w, n);
    var q := CDiv(w, n);
    MulMonotone(q, Max(1, q), n);
    hide CDiv;
  }

  // In a frame of twenty by twenty.
  lemma SmallFrame()
    ensures Radius(100, 20, 20) == 10 && Band(100, 20) == Bar(100, 20) == Cell(100, 20, 20) == 5
  {
  }

  lemma RegionsOfDiscs(layout: Layout, region: nat, figure: int -> bool) returns (x: int, y: int)
    requires (layout == Circle || layout == Rings) && region < Count(layout)
    ensures 0 <= x < 20 && 0 <= y < 20 && RegionAt(layout, 100, x, y, 20, 20, figure) == region
  {
    SmallFrame();
    hide Radius, Band, Bar, Cell, Step, Crossing;
    x := if layout == Circle then 10 - 10 * region else 10 - 7 * (region % 2);
    y := if region + 1 == Count(layout) then 0 else 10;
  }

  // Every region that a layout counts is met somewhere.
  lemma RegionsMet(layout: Layout, region: nat) returns (x: int, y: int, figure: int -> bool)
    requires region < Count(layout)
    ensures 0 <= x < 20 && 0 <= y < 20 && RegionAt(layout, 100, x, y, 20, 20, figure) == region
  {
    figure := _ => region == 1;
    if layout == Circle || layout == Rings {
      x, y := RegionsOfDiscs(layout, region, figure);
    } else {
      x, y := RegionsOfCells(layout, region, figure);
    }
    hide RegionAt;
  }

  lemma RegionsOfCells(layout: Layout, region: nat, figure: int -> bool) returns (x: int, y: int)
    requires layout != Circle && layout != Rings && region < Count(layout) && forall u :: figure(u) == (region == 1)
    ensures 0 <= x < 20 && 0 <= y < 20 && RegionAt(layout, 100, x, y, 20, 20, figure) == region
  {
    SmallFrame();
    hide Radius, Band, Bar, Cell, Step, InDisc;
    match layout
    case Off | HalfH => x, y := 0, 10 * region;
    case HalfV => x, y := 10 * region, 0;
    case Quad => x, y := 10 * (region % 2), 10 * (region / 2);
    case Diag => x, y := 5, 19 * region;
    case Wedge =>
      x := if region == 3 then 0 else if region == 1 then 19 else 10;
      y := if region == 0 then 2 else if region == 2 then 18 else 10;
    case Bands => x, y := 0, 5 * region;
    case Bars | Checker => x, y := 5 * region, 0;
    case _ => x, y := 0, 0;
  }
}

/** bseg_emit, bend_seg_spans and bend_seg_at over the caller's two span arrays
    (chdk-src/core/bend.c:1105-1316). */
module Spans {
  import opened Arith
  import opened Layouts
  import opened Regions
  import SquareRoot

  // The first n entries of the arrays, as a row of spans.
  function Row(seg: seq<nat>, xend: seq<nat>, n: nat): (row: seq<Span>)
    requires n <= |seg| && n <= |xend|
    ensures |row| == n
  {
    seq(n, i requires 0 <= i < n => Span(seg[i], xend[i]))
  }

  // Values are cut to an unsigned char and an unsigned short.
  method Emit(seg: array<nat>, xend: array<nat>, n: nat, s: nat, x: int, w: nat) returns (m: nat)
    requires seg != xend && seg.Length == xend.Length == SEG_SPANS && n <= SEG_SPANS
    requires s < 0x100 && w < 0x1_0000
    modifies seg, xend
    ensures m <= SEG_SPANS && Row(seg[..], xend[..], m) == Emitted(old(Row(seg[..], xend[..], n)), s, x, w)
  {
    var last := if n > 0 then xend[n - 1] else 0;
    var x' := x;
    if x' > w { x' := w; }
    if x' <= last { return n; }
    if n > 0 && seg[n - 1] == s {
      xend[n - 1] := x' % 0x1_0000;
      return n;
    }
    if n >= SEG_SPANS {
      xend[n - 1] := x' % 0x1_0000;
      return n;
    }
    seg[n] := s % 0x100;
    xend[n] := x' % 0x1_0000;
    return n + 1;
  }

  // The first n spans of the arrays are right so far, and reach up to pixel e.
  ghost predicate Cut(seg: seq<nat>, xend: seq<nat>, n: nat, w: nat, e: nat, f: int -> nat, count: nat) {
    && |seg| == |xend| == SEG_SPANS && n <= SEG_SPANS
    && Painted(Row(seg, xend, n), f, count, w) && End(Row(seg, xend, n)) == e
  }

  method Put(seg: array<nat>, xend: array<nat>, n: nat, s: nat, x: int, w: nat, ghost e: nat,
             ghost f: int -> nat, ghost count: nat) returns (m: nat, ghost d: nat)
    requires seg != xend && w < 0x1_0000 && s < count <= SEG_MAX
    requires Cut(seg[..], xend[..], n, w, e, f, count)
    requires forall u | e <= u < Min(x, w) :: f(u) == s
    modifies seg, xend
    ensures n <= m <= n + 1 && d == Max(e, Min(x, w)) && Cut(seg[..], xend[..], m, w, d, f, count)
  {
    EmitPaints(Row(seg[..], xend[..], n), s, x, w, f, count);
    d := Max(e, Min(x, w));
    m := Emit(seg, xend, n, s, x, w);
  }

  method CutCircle(seg: array<nat>, xend: array<nat>, size: int, y: int, w: nat, h: int, ghost figure: int -> bool)
    returns (n: nat)
    requires seg != xend && seg.Length == xend.Length == SEG_SPANS && 0 < w < 0x1_0000
    modifies seg, xend
    ensures n <= 3 && Cut(seg[..], xend[..], n, w, w, RowMap(Circle, size, y, w, h, figure), 2)
  {
    ghost var f := RowMap(Circle, size, y, w, h, figure);
    var cx, dy := w / 2, y - CDiv(h, 2);
    var r := Radius(size, w, h);
    RadiusFits(size, w, h);
    var c := SquareRoot.Chord(r, dy);
    forall x | 0 <= x < w ensures f(x) == (if cx - c <= x < cx + c then 0 else 1) {
      CircleMap(size, y, w, h, figure, c, x);
    }
    hide Cut, RowMap;
    Blank(seg[..], xend[..], w, f, 2);
    ghost var e;
    n, e := Put(seg, xend, 0, 1, cx - c, w, 0, f, 2);
    n, e := Put(seg, xend, n, 0, cx + c, w, e, f, 2);
    n, e := Put(seg, xend, n, 1, w, w, e, f, 2);
  }

  lemma Blank(seg: seq<nat>, xend: seq<nat>, w: nat, f: int -> nat, count: nat)
    requires |seg| == |xend| == SEG_SPANS
    ensures Cut(seg, xend, 0, w, 0, f, count)
  {
  }

  method ChordOf(r: int, dy: int) returns (c: int)
    requires r < 0x1_0000
    ensures IsChord(c, r, dy)
  {
    hide SquareRoot.Inside;
    c := SquareRoot.Chord(r, dy);
  }

  // A row across two discs with the same centre.
  ghost predicate AcrossRings(f: int -> nat, w: nat, cx: int, ci: int, co: int) {
    && ci >= 0 && co >= 0 && forall x | 0 <= x < w ::
      && f(x) == (if cx - ci <= x < cx + ci then 0 else if cx - co <= x < cx + co then 1 else 2)
      && (cx - ci <= x < cx + ci ==> cx - co <= x < cx + co)
  }

  lemma RingsAcross(size: int, y: int, w: nat, h: int, figure: int -> bool, ci: int, co: int)
    requires 0 < w < 0x1_0000
    requires IsChord(co, Radius(size, w, h), y - CDiv(h, 2)) && IsChord(ci, CDiv(Radius(size, w, h), 2), y - CDiv(h, 2))
    ensures AcrossRings(RowMap(Rings, size, y, w, h, figure), w, w / 2, ci, co)
  {
    assert ci >= 0 && co >= 0;
    hide RowMap, IsChord, Radius, CDiv;
    var f := RowMap(Rings, size, y, w, h, figure);
    var cx := w / 2;
    forall x | 0 <= x < w
      ensures f(x) == (if cx - ci <= x < cx + ci then 0 else if cx - co <= x < cx + co then 1 else 2)
      ensures cx - ci <= x < cx + ci ==> cx - co <= x < cx + co
    {
      RingsMap(size, y, w, h, figure, ci, co, x);
    }
  }

  method CutRings(seg: array<nat>, xend: array<nat>, size: int, y: int, w: nat, h: int, ghost figure: int -> bool)
    returns (n: nat)
    requires seg != xend && seg.Length == xend.Length == SEG_SPANS && 0 < w < 0x1_0000
    modifies seg, xend
    ensures n <= 5 && Cut(seg[..], xend[..], n, w, w, RowMap(Rings, size, y, w, h, figure), 3)
  {
    var cx, dy := w / 2, y - CDiv(h, 2);
    var ro := Radius(size, w, h);
    var ri := CDiv(ro, 2);
    RadiusFits(size, w, h);
    assert ri < 0x1_0000;
    hide RowMap, Cut, AcrossRings, Radius, IsChord, CDiv;
    var co := ChordOf(ro, dy);
    var ci := ChordOf(ri, dy);
    RingsAcross(size, y, w, h, figure, ci, co);
    n := PutRings(seg, xend, w, RowMap(Rings, size, y, w, h, figure), cx, ci, co);
  }

  method PutRings(seg: array<nat>, xend: array<nat>, w: nat, ghost f: int -> nat, cx: int, ci: int, co: int) returns (n: nat)
    requires seg != xend && seg.Length == xend.Length == SEG_SPANS && 0 < w < 0x1_0000 && AcrossRings(f, w, cx, ci, co)
    modifies seg, xend
    ensures n <= 5 && Cut(seg[..], xend[..], n, w, w, f, 3)
  {
    hide Cut;
    Blank(seg[..], xend[..], w, f, 3);
    ghost var e;
    n, e := Put(seg, xend, 0, 2, cx - co, w, 0, f, 3);
    n, e := Put(seg, xend, n, 1, cx - ci, w, e, f, 3);
    n, e := Put(seg, xend, n, 0, cx + ci, w, e, f, 3);
    n, e := Put(seg, xend, n, 1, cx + co, w, e, f, 3);
    n, e := Put(seg, xend, n, 2, w, w, e, f, 3);
  }

  method CutBars(seg: array<nat>, xend: array<nat>, size: int, y: int, w: nat, h: int, ghost figure: int -> bool)
    returns (n: nat)
    requires seg != xend && seg.Length == xend.Length == SEG_SPANS && 0 < w < 0x1_0000
    modifies seg, xend
    ensures n <= 36 && Cut(seg[..], xend[..], n, w, w, RowMap(Bars, size, y, w, h, figure), SEG_MAX)
  {
    ghost var f := RowMap(Bars, size, y, w, h, figure);
    var bar := CDiv(CDiv(w * Clamp(size), 100), SEG_MAX);
    if bar < w / SEG_MINCELL { bar := w / SEG_MINCELL; }
    if bar < 1 { bar := 1; }
    assert bar == Bar(size, w);
    n := 0;
    hide Cut, Bar;
    Blank(seg[..], xend[..], w, f, SEG_MAX);
    var x := 0;
    ghost var k, e: nat := 0, 0;
    while x < w
      invariant x == k * bar && 0 <= k && n <= k && n <= 36
      invariant e == Min(x, w) && Cut(seg[..], xend[..], n, w, e, f, SEG_MAX)
    {
      FewCells(k, bar, w);
      NextMultiple(k, bar);
      forall u | x <= u < x + bar ensures u / bar == k {
        BlockOf(k, bar, u);
      }
      n, e := Put(seg, xend, n, (x / bar) % SEG_MAX, x + bar, w, e, f, SEG_MAX);
      x := x + bar;
      k := k + 1;
    }
  }

  method CutChecker(seg: array<nat>, xend: array<nat>, size: int, y: int, w: nat, h: int, ghost figure: int -> bool)
    returns (n: nat)
    requires seg != xend && seg.Length == xend.Length == SEG_SPANS && 0 < w < 0x1_0000
    modifies seg, xend
    ensures n <= 36 && Cut(seg[..], xend[..], n, w, w, RowMap(Checker, size, y, w, h, figure), SEG_MAX)
  {
    ghost var f := RowMap(Checker, size, y, w, h, figure);
    var cell := CheckerCell(size, w, h);
    var row := (if y < 0 then 0 else y) / cell;
    hide Cut, Cell, RowMap;
    n := 0;
    Blank(seg[..], xend[..], w, f, SEG_MAX);
    var x := 0;
    ghost var k, e: nat := 0, 0;
    while x < w
      invariant x == k * cell && 0 <= k && n <= k && n <= 36
      invariant e == Min(x, w) && Cut(seg[..], xend[..], n, w, e, f, SEG_MAX)
    {
      FewCells(k, cell, w);
      NextMultiple(k, cell);
      BlockOf(k, cell, x);
      CheckerSquare(size, y, w, h, figure, k, x);
      n, e := Put(seg, xend, n, (x / cell + row) % SEG_MAX, x + cell, w, e, f, SEG_MAX);
      x := x + cell;
      k := k + 1;
    }
  }

  method CheckerCell(size: int, w: nat, h: int) returns (cell: int)
    ensures cell == Cell(size, w, h) && cell >= 1 && w / SEG_MINCELL <= cell
  {
    cell := CDiv(CDiv(RadiusMax(w, h) * 2 * Clamp(size), 100), SEG_MAX);
    if cell < w / SEG_MINCELL { cell := w / SEG_MINCELL; }
    if cell < 1 { cell := 1; }
  }

  // The k-th square of the row has one region all along.
  lemma CheckerSquare(size: int, y: int, w: nat, h: int, figure: int -> bool, k: int, x: int)
    requires 0 < w < 0x1_0000 && 0 <= k && Cell(size, w, h) >= 1 && x == k * Cell(size, w, h) < w
    ensures forall u | x <= u < Min(x + Cell(size, w, h), w) ::
              RowMap(Checker, size, y, w, h, figure)(u) == (k + (if y < 0 then 0 else y) / Cell(size, w, h)) % SEG_MAX
  {
    hide Cell, RowMap;
    var f, row := RowMap(Checker, size, y, w, h, figure), (if y < 0 then 0 else y) / Cell(size, w, h);
    forall u | x <= u < Min(x + Cell(size, w, h), w) ensures f(u) == (k + row) % SEG_MAX {
      CheckerMap(size, y, w, h, figure, k, u);
    }
  }

  // Appends a run of a pattern layout.
  method PutRun(seg: array<nat>, xend: array<nat>, n: nat, cur: nat, x: int, w: nat, ghost e: nat,
                ghost f: int -> nat, ghost runs: nat) returns (m: nat)
    requires seg != xend && w < 0x1_0000 && cur < 2 && e < x <= w
    requires Cut(seg[..], xend[..], n, w, e, f, 2) && Counted(Row(seg[..], xend[..], n), f, runs, cur)
    requires forall u | e <= u < x :: f(u) == cur
    modifies seg, xend
    ensures Cut(seg[..], xend[..], m, w, x, f, 2) && Counted(Row(seg[..], xend[..], m), f, runs + 1, 1 - cur)
  {
    EmitPaints(Row(seg[..], xend[..], n), cur, x, w, f, 2);
    EmitCounts(Row(seg[..], xend[..], n), cur, x, w, f, runs);
    hide Counted;
    m := Emit(seg, xend, n, cur, x, w);
  }

  function Sample(figure: int -> bool, x: int): nat { if figure(x) then 1 else 0 }

  // The first k samples of the row have been taken; the run that began at e, of region cur, is not written yet.
  ghost predicate Sampled(row: seq<Span>, w: nat, step: int, k: nat, cur: nat, e: nat, f: int -> nat, figure: int -> bool,
                          runs: nat) {
    && Counted(row, f, runs, cur) && 1 <= k && (k - 1) * step < w && cur == Sample(figure, (k - 1) * step)
    && runs + 1 == SampleRuns(figure, step, k)
    && e < w && e < k * step && forall u | e <= u < Min(k * step, w) :: f(u) == cur
  }

  // Takes the next sample, at x.
  method NextSample(seg: array<nat>, xend: array<nat>, n: nat, x: int, w: nat, step: int, cur: nat, figure: int -> bool,
                    ghost k: nat, ghost e: nat, ghost f: int -> nat, ghost runs: nat)
    returns (m: nat, s: nat, ghost e': nat, ghost runs': nat)
    requires seg != xend && w < 0x1_0000 && step >= 1 && x == k * step < w
    requires Cut(seg[..], xend[..], n, w, e, f, 2) && Sampled(Row(seg[..], xend[..], n), w, step, k, cur, e, f, figure, runs)
    requires forall u | x <= u < Min(x + step, w) :: f(u) == Sample(figure, x)
    modifies seg, xend
    ensures Cut(seg[..], xend[..], m, w, e', f, 2)
    ensures Sampled(Row(seg[..], xend[..], m), w, step, k + 1, s, e', f, figure, runs')
  {
    hide Cut, Counted, Shows;
    NextMultiple(k, step);
    NextRuns(figure, step, k);
    m, e', runs' := n, e, runs;
    s := Sample(figure, x);
    if s != cur {
      m := PutRun(seg, xend, n, cur, x, w, e, f, runs);
      e', runs' := x, runs + 1;
    }
  }

  lemma NextRuns(figure: int -> bool, step: int, k: nat)
    requires k >= 1
    ensures SampleRuns(figure, step, k + 1)
         == SampleRuns(figure, step, k) + if Sample(figure, k * step) != Sample(figure, (k - 1) * step) then 1 else 0
    ensures SampleRuns(figure, step, 1) == 1
  {
  }

  // One encoder for the six pattern layouts: the runs between changes of the sampled figure.  The row shows
  // the figure exactly when the array has room for its runs.
  method CutPattern(seg: array<nat>, xend: array<nat>, layout: Layout, size: int, y: int, w: nat, h: int,
                    figure: int -> bool) returns (n: nat)
    requires seg != xend && seg.Length == xend.Length == SEG_SPANS && 0 < w < 0x1_0000
    requires IsPattern(layout)
    modifies seg, xend
    ensures Cut(seg[..], xend[..], n, w, w, RowMap(layout, size, y, w, h, figure), 2)
    ensures n == Min(FigureRuns(layout, size, w, figure), SEG_SPANS)
    ensures Shows(Row(seg[..], xend[..], n), RowMap(layout, size, y, w, h, figure))
            <==> FigureRuns(layout, size, w, figure) <= SEG_SPANS
  {
    ghost var f := RowMap(layout, size, y, w, h, figure);
    var step := Step(layout, size, w);
    hide Cut, Step, RowMap, Sampled, Shows, SampleRuns, Counted;
    n := 0;
    var cur, x := Sample(figure, 0), step;
    ghost var e: nat, runs: nat, k: nat := 0, 0, 1;
    Blank(seg[..], xend[..], w, f, 2);
    FirstSample(layout, size, y, w, h, figure);
    assert Row(seg[..], xend[..], 0) == [];
    while x < w
      invariant x == k * step && Cut(seg[..], xend[..], n, w, e, f, 2) && n <= SEG_SPANS
      invariant Sampled(Row(seg[..], xend[..], n), w, step, k, cur, e, f, figure, runs)
    {
      NextMultiple(k, step);
      forall u | x <= u < Min(x + step, w) ensures f(u) == Sample(figure, x) {
        PatternMap(layout, size, y, w, h, figure, k, u);
      }
      n, cur, e, runs := NextSample(seg, xend, n, x, w, step, cur, figure, k, e, f, runs);
      CutFits(seg[..], xend[..], n, w, e, f, 2);
      x := x + step;
      k := k + 1;
    }
    AllSampled(Row(seg[..], xend[..], n), w, step, k, cur, e, f, figure, runs);
    n := PutRun(seg, xend, n, cur, w, w, e, f, runs);
    CutFits(seg[..], xend[..], n, w, w, f, 2);
    CountedShows(Row(seg[..], xend[..], n), f, runs + 1, 1 - cur);
  }

  lemma FirstSample(layout: Layout, size: int, y: int, w: nat, h: int, figure: int -> bool)
    requires IsPattern(layout) && w > 0
    ensures var step := Step(layout, size, w);
      step >= 1
      && Sampled([], w, step, 1, Sample(figure, 0), 0, RowMap(layout, size, y, w, h, figure), figure, 0)
  {
    var step, f := Step(layout, size, w), RowMap(layout, size, y, w, h, figure);
    NoRunsYet(f, Sample(figure, 0));
    NextRuns(figure, step, 1);
    forall u | 0 <= u < Min(step, w) ensures f(u) == Sample(figure, 0) {
      PatternMap(layout, size, y, w, h, figure, 0, u);
    }
    hide Step, RowMap, Counted, SampleRuns;
  }

  lemma AllSampled(row: seq<Span>, w: nat, step: int, k: nat, cur: nat, e: nat, f: int -> nat, figure: int -> bool, runs: nat)
    requires Sampled(row, w, step, k, cur, e, f, figure, runs) && step >= 1 && k * step >= w
    ensures Counted(row, f, runs, cur) && cur < 2 && e < w && forall u | e <= u < w :: f(u) == cur
    ensures runs + 1 == SampleRuns(figure, step, (w + step - 1) / step)
  {
    SampleCount(w, step, k);
    hide Counted, SampleRuns;
  }

  lemma NoRunsYet(f: int -> nat, cur: nat)
    ensures Counted([], f, 0, cur)
  {
  }

  lemma CutFits(seg: seq<nat>, xend: seq<nat>, n: nat, w: nat, e: nat, f: int -> nat, count: nat)
    requires Cut(seg, xend, n, w, e, f, count)
    ensures n <= SEG_SPANS && |seg| == |xend| == SEG_SPANS
  {
  }

  // Both diagonals: four triangles about the centre.
  method CutWedge(seg: array<nat>, xend: array<nat>, y: int, w: nat, h: int, ghost size: int, ghost figure: int -> bool)
    returns (n: nat)
    requires seg != xend && seg.Length == xend.Length == SEG_SPANS && 0 < w < 0x1_0000
    modifies seg, xend
    ensures n <= 3 && Cut(seg[..], xend[..], n, w, w, RowMap(Wedge, size, y, w, h, figure), 4)
  {
    ghost var f := RowMap(Wedge, size, y, w, h, figure);
    var d1 := Crossing(y, w, h);
    var d2 := w - d1;
    hide Cut;
    Blank(seg[..], xend[..], w, f, 4);
    ghost var e;
    n, e := Put(seg, xend, 0, 3, if d1 < d2 then d1 else d2, w, 0, f, 4);
    n, e := Put(seg, xend, n, if y < CDiv(h, 2) then 0 else 2, if d1 < d2 then d2 else d1, w, e, f, 4);
    n, e := Put(seg, xend, n, 1, w, w, e, f, 4);
  }

  // The layouts that need at most two spans.
  method CutStraight(seg: array<nat>, xend: array<nat>, layout: Layout, size: int, y: int, w: nat, h: int,
                     ghost figure: int -> bool) returns (n: nat)
    requires seg != xend && seg.Length == xend.Length == SEG_SPANS && 0 < w < 0x1_0000
    requires layout in {Off, HalfH, HalfV, Quad, Diag, Bands}
    modifies seg, xend
    ensures n <= 2 && Cut(seg[..], xend[..], n, w, w, RowMap(layout, size, y, w, h, figure), Count(layout))
  {
    ghost var f, count := RowMap(layout, size, y, w, h, figure), Count(layout);
    var cx, cy := w / 2, CDiv(h, 2);
    hide Cut;
    Blank(seg[..], xend[..], w, f, count);
    ghost var e;
    if layout == HalfH {
      n, e := Put(seg, xend, 0, if y < cy then 0 else 1, w, w, 0, f, count);
    } else if layout == HalfV {
      n, e := Put(seg, xend, 0, 0, cx, w, 0, f, count);
      n, e := Put(seg, xend, n, 1, w, w, e, f, count);
    } else if layout == Quad {
      var top := if y < cy then 0 else 2;
      n, e := Put(seg, xend, 0, top, cx, w, 0, f, count);
      n, e := Put(seg, xend, n, top + 1, w, w, e, f, count);
    } else if layout == Diag {
      n, e := Put(seg, xend, 0, 1, Crossing(y, w, h), w, 0, f, count);
      n, e := Put(seg, xend, n, 0, w, w, e, f, count);
    } else if layout == Bands {
      n, e := Put(seg, xend, 0, (Max(0, y) / Band(size, h)) % SEG_MAX, w, w, 0, f, count);
    } else {
      n, e := Put(seg, xend, 0, 0, w, w, 0, f, count);
    }
  }

  // Whether the span array has room for the row: always, but for a pattern layout whose figure changes
  // too often along the row.
  ghost predicate HasRoom(layout: Layout, size: int, w: nat, figure: int -> bool) {
    IsPattern(layout) ==> FigureRuns(layout, size, w, figure) <= 192
  }

  // The spans of a row tile it, name existing regions of the layout, and say of every pixel which
  // region it is in, exactly when the array has room for them; otherwise only the last span is wrong: it
  // reaches to the end of the row.
  ghost predicate CutRow(row: seq<Span>, layout: Layout, size: int, y: int, w: int, h: int, figure: int -> bool)
    requires w > 0
  {
    var f := RowMap(layout, size, y, w, h, figure);
    && 1 <= |row| <= SEG_SPANS && Tiles(row) && End(row) == w && Named(row, Count(layout))
    && (Shows(row, f) <==> HasRoom(layout, size, w, figure))
    && Shows(row[..|row| - 1], f)
  }

  method SpansOf(code: int, size: int, y: int, w: int, h: int, figure: int -> bool, seg: array<nat>, xend: array<nat>)
    returns (n: nat)
    requires seg != xend && seg.Length == xend.Length == SEG_SPANS && w < 0x1_0000
    modifies seg, xend
    ensures n <= SEG_SPANS
    ensures if w <= 0 then Row(seg[..], xend[..], n) == [Span(0, 0)]
            else CutRow(Row(seg[..], xend[..], n), FromCode(code), size, y, w, h, figure)
  {
    if w <= 0 {
      seg[0], xend[0] := 0, 0;
      return 1;
    }
    n := CutLayout(FromCode(code), size, y, w, h, figure, seg, xend);
    hide Cut, CutRow, RowMap, Shows, HasRoom;
    CutIsRow(seg[..], xend[..], n, FromCode(code), size, y, w, h, figure);
  }

  // The switch over the layouts.
  method CutLayout(layout: Layout, size: int, y: int, w: nat, h: int, figure: int -> bool, seg: array<nat>, xend: array<nat>)
    returns (n: nat)
    requires seg != xend && seg.Length == xend.Length == SEG_SPANS && 0 < w < 0x1_0000
    modifies seg, xend
    ensures n <= SEG_SPANS && Cut(seg[..], xend[..], n, w, w, RowMap(layout, size, y, w, h, figure), Count(layout))
    ensures if IsPattern(layout)
      then Shows(Row(seg[..], xend[..], n), RowMap(layout, size, y, w, h, figure)) <==> HasRoom(layout, size, w, figure)
      else n < SEG_SPANS
  {
    hide Cut, RowMap, Shows, FigureRuns;
    if layout == Circle {
      n := CutCircle(seg, xend, size, y, w, h, figure);
    } else if layout == Rings {
      n := CutRings(seg, xend, size, y, w, h, figure);
    } else if layout == Wedge {
      n := CutWedge(seg, xend, y, w, h, size, figure);
    } else if layout == Bars {
      n := CutBars(seg, xend, size, y, w, h, figure);
    } else if layout == Checker {
      n := CutChecker(seg, xend, size, y, w, h, figure);
    } else if IsPattern(layout) {
      n := CutPattern(seg, xend, layout, size, y, w, h, figure);
    } else {
      n := CutStraight(seg, xend, layout, size, y, w, h, figure);
    }
  }

  lemma CutIsRow(seg: seq<nat>, xend: seq<nat>, n: nat, layout: Layout, size: int, y: int, w: nat, h: int, figure: int -> bool)
    requires 0 < w && Cut(seg, xend, n, w, w, RowMap(layout, size, y, w, h, figure), Count(layout))
    requires if IsPattern(layout)
      then Shows(Row(seg, xend, n), RowMap(layout, size, y, w, h, figure)) <==> HasRoom(layout, size, w, figure)
      else n < SEG_SPANS
    ensures CutRow(Row(seg, xend, n), layout, size, y, w, h, figure)
  {
  }

  // The region of one pixel, found through the spans of its row.  A pixel beside the row has the
  // region of the row's nearest pixel.
  method SegAt(code: int, size: int, x: int, y: int, w: int, h: int, figure: int -> bool) returns (s: nat)
    requires w < 0x1_0000
    ensures s < Count(FromCode(code))
    ensures w > 0 && HasRoom(FromCode(code), size, w, figure) ==>
              s == RegionAt(FromCode(code), size, Max(0, Min(x, w - 1)), y, w, h, figure)
  {
    var seg, xend := new nat[SEG_SPANS], new nat[SEG_SPANS];
    var n := SpansOf(code, size, y, w, h, figure, seg, xend);
    ghost var row, x' := Row(seg[..], xend[..], n), Max(0, Min(x, w - 1));
    for i := 0 to n
      invariant forall j | 0 <= j < i :: row[j].end <= x
    {
      if x < xend[i] {
        if w > 0 {
          assert Covers(row, i, x');
          AtCovering(row, i, x');
        }
        return seg[i];
      }
    }
    if w > 0 {
      assert Covers(row, n - 1, x');
      AtCovering(row, n - 1, x');
    }
    s := seg[n - 1];
  }
}

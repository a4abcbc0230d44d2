/** The line rasteriser (chdk-src/core/gui_draw_shapes.c:9-39).  The pixels it hands to draw_pixel
    are collected in order.  Coordinates are unbounded: the widths of `coord` are not modelled. */
module DrawLine {

  datatype Pixel = Pixel(x: int, y: int)

  function Abs(a: int): nat { if a < 0 then -a else a }

  function Max(a: nat, b: nat): nat { if a < b then b else a }

  // How many steps the longer axis takes.
  function Length(a: Pixel, b: Pixel): nat { Max(Abs(b.x - a.x), Abs(b.y - a.y)) }

  // Zero on the true line through a and b.  Divided by Length(a, b), it is the distance of p from
  // that line along the minor axis.
  function Offset(a: Pixel, b: Pixel, p: Pixel): int {
    (p.y - a.y) * (b.x - a.x) - (p.x - a.x) * (b.y - a.y)
  }

  // Pixel p with its coordinates exchanged when the line is steep.
  function Turn(steep: bool, p: Pixel): Pixel { if steep then Pixel(p.y, p.x) else p }

  // What the plotted pixels are for, between endpoints a and b.
  ghost predicate Draws(plotted: seq<Pixel>, a: Pixel, b: Pixel) {
    && |plotted| == Length(a, b) + 1
       // from one endpoint to the other
    && ((plotted[0] == a && plotted[|plotted| - 1] == b) || (plotted[0] == b && plotted[|plotted| - 1] == a))
       // one step at a time along the longer axis, never more than one along the other
    && (forall i | 0 < i < |plotted| ::
          Length(plotted[i - 1], plotted[i]) == 1 && Length(plotted[0], plotted[i]) == i)
       // within half a pixel of the true line
    && (forall i | 0 <= i < |plotted| :: 2 * Abs(Offset(a, b, plotted[i])) <= Length(a, b))
  }

  // How far i steps along and q up are below the line that rises dy over dx, times dx.
  ghost function Lag(i: int, q: int, dx: int, dy: int): int { i * dy - q * dx }

  // The minor-axis position at each step of a line that runs dx along and dy up, 0 <= dy <= dx.
  ghost predicate Climbs(q: seq<int>, dx: int, dy: int) {
    && (|q| > 0 ==> q[0] == 0)
    && (forall i | 0 < i < |q| :: q[i - 1] <= q[i] <= q[i - 1] + 1)
    && (forall i | 0 <= i < |q| :: 0 <= q[i] <= i && -dx <= 2 * Lag(i, q[i], dx, dy) <= dx)
  }

  ghost predicate PlotsClimb(plotted: seq<Pixel>, q: seq<int>, steep: bool, from: Pixel, ystep: int) {
    && |plotted| == |q|
    && forall i | 0 <= i < |q| :: plotted[i] == Turn(steep, Pixel(from.x + i, from.y + q[i] * ystep))
  }

  lemma OffsetOnClimb(from: Pixel, to: Pixel, i: int, q: int, ystep: int)
    requires ystep == 1 || ystep == -1
    requires to.y - from.y == Abs(to.y - from.y) * ystep
    ensures Offset(from, to, Pixel(from.x + i, from.y + q * ystep))
         == -ystep * Lag(i, q, to.x - from.x, Abs(to.y - from.y))
  {
  }

  lemma OffsetTurned(a: Pixel, b: Pixel, p: Pixel)
    ensures Offset(Turn(true, a), Turn(true, b), Turn(true, p)) == -Offset(a, b, p)
    ensures Offset(b, a, p) == -Offset(a, b, p)
  {
    var dx, dy := b.x - a.x, b.y - a.y;
    assert (p.y - a.y - dy) * (-dx) - (p.x - a.x - dx) * (-dy) == -((p.y - a.y) * dx - (p.x - a.x) * dy);
  }

  lemma EndOfClimb(q: int, dx: int, dy: int)
    requires 0 <= q <= dx && -dx <= 2 * Lag(dx, q, dx, dy) <= dx && 0 <= dy <= dx
    ensures q == dy
  {
    assert Lag(dx, q, dx, dy) == dx * (dy - q);
    if q < dy {
      TimesAtLeast(dx, dy - q);
    } else if q > dy {
      assert dx * (dy - q) == -(dx * (q - dy));
      TimesAtLeast(dx, q - dy);
    }
  }

  lemma TimesAtLeast(d: int, k: int)
    requires d >= 0 && k >= 1
    ensures d * k >= d
  {
  }

  lemma NoClimbYet(dx: int, dy: int, steep: bool, from: Pixel, ystep: int)
    ensures Climbs([], dx, dy) && PlotsClimb([], [], steep, from, ystep)
  {
  }

  lemma ClimbGrows(q: seq<int>, up: int, dx: int, dy: int)
    requires Climbs(q, dx, dy)
    requires if q == [] then up == 0 else q[|q| - 1] <= up <= q[|q| - 1] + 1
    requires -dx <= 2 * Lag(|q|, up, dx, dy) <= dx
    ensures Climbs(q + [up], dx, dy)
  {
    hide Lag;
    var q' := q + [up];
    assert forall i | 0 <= i < |q| :: q'[i] == q[i];
  }

  lemma LagSteps(i: int, q: int, dx: int, dy: int)
    ensures Lag(i + 1, q, dx, dy) == Lag(i, q, dx, dy) + dy
    ensures Lag(i + 1, q + 1, dx, dy) == Lag(i, q, dx, dy) + dy - dx
    ensures Lag(0, 0, dx, dy) == 0
  {
  }

  ghost predicate Flat(from: Pixel, to: Pixel, ystep: int) {
    && from.x <= to.x && Abs(to.y - from.y) <= to.x - from.x
    && ystep == (if from.y < to.y then 1 else -1)
  }

  lemma PlottedPixel(plotted: seq<Pixel>, q: seq<int>, steep: bool, from: Pixel, to: Pixel, ystep: int, i: nat)
    requires Flat(from, to, ystep) && i < |q| == to.x - from.x + 1
    requires Climbs(q, to.x - from.x, Abs(to.y - from.y)) && PlotsClimb(plotted, q, steep, from, ystep)
    ensures i > 0 ==> Length(plotted[i - 1], plotted[i]) == 1 && Length(plotted[0], plotted[i]) == i
    ensures 2 * Abs(Offset(Turn(steep, from), Turn(steep, to), plotted[i])) <= to.x - from.x
  {
    var dx, dy := to.x - from.x, Abs(to.y - from.y);
    var p := Pixel(from.x + i, from.y + q[i] * ystep);
    assert plotted[i] == Turn(steep, p);
    OffsetOnClimb(from, to, i, q[i], ystep);
    OffsetTurned(from, to, p);
    hide Offset, Lag;
    if i > 0 {
      assert plotted[i - 1] == Turn(steep, Pixel(from.x + (i - 1), from.y + q[i - 1] * ystep));
    }
  }

  // A climb plotted from `from` draws the line to `to`, steep or not.
  lemma ClimbDraws(plotted: seq<Pixel>, q: seq<int>, steep: bool, from: Pixel, to: Pixel, ystep: int)
    requires Flat(from, to, ystep) && |q| == to.x - from.x + 1
    requires Climbs(q, to.x - from.x, Abs(to.y - from.y)) && PlotsClimb(plotted, q, steep, from, ystep)
    ensures Draws(plotted, Turn(steep, from), Turn(steep, to))
  {
    hide Offset;
    var dx, dy := to.x - from.x, Abs(to.y - from.y);
    EndOfClimb(q[dx], dx, dy);
    assert plotted[0] == Turn(steep, from) && plotted[dx] == Turn(steep, to);
    forall i: nat | i < |plotted|
      ensures i > 0 ==> Length(plotted[i - 1], plotted[i]) == 1 && Length(plotted[0], plotted[i]) == i
      ensures 2 * Abs(Offset(Turn(steep, from), Turn(steep, to), plotted[i])) <= dx
    {
      PlottedPixel(plotted, q, steep, from, to, ystep, i);
    }
  }

  lemma PlotsOn(plotted: seq<Pixel>, q: seq<int>, steep: bool, from: Pixel, ystep: int, up: int)
    requires PlotsClimb(plotted, q, steep, from, ystep)
    ensures PlotsClimb(plotted + [Turn(steep, Pixel(from.x + |q|, from.y + up * ystep))], q + [up], steep, from, ystep)
  {
  }

  lemma DrawsEitherWay(plotted: seq<Pixel>, a: Pixel, b: Pixel)
    requires Draws(plotted, a, b)
    ensures Draws(plotted, b, a)
  {
    forall i | 0 <= i < |plotted|
      ensures 2 * Abs(Offset(b, a, plotted[i])) <= Length(b, a)
    {
      OffsetTurned(a, b, plotted[i]);
    }
  }

  method Draw(x1: int, y1: int, x2: int, y2: int) returns (plotted: seq<Pixel>)
    ensures Draws(plotted, Pixel(x1, y1), Pixel(x2, y2))
  {
    var u1, v1, u2, v2 := x1, y1, x2, y2;
    var steep := Abs(y2 - y1) > Abs(x2 - x1);
    if steep {
      u1, v1 := v1, u1;
      u2, v2 := v2, u2;
    }
    if u1 > u2 {
      u1, u2 := u2, u1;
      v1, v2 := v2, v1;
    }
    var deltax := u2 - u1;
    var deltay := Abs(v2 - v1);
    var error := 0;
    var y := v1;
    var ystep := if v1 < v2 then 1 else -1;
    plotted := [];
    ghost var from, to, up, q := Pixel(u1, v1), Pixel(u2, v2), 0, [];
    hide Climbs, PlotsClimb, Lag, Draws, Offset;
    LagSteps(0, 0, deltax, deltay);
    NoClimbYet(deltax, deltay, steep, from, ystep);
    for x := u1 to u2 + 1
      invariant |q| == x - u1
      invariant y == v1 + up * ystep && error == Lag(|q|, up, deltax, deltay)
      invariant Climbs(q, deltax, deltay) && PlotsClimb(plotted, q, steep, from, ystep)
      invariant -deltax <= 2 * error <= deltax
      invariant if q == [] then up == 0 else q[|q| - 1] <= up <= q[|q| - 1] + 1
    {
      ClimbGrows(q, up, deltax, deltay);
      PlotsOn(plotted, q, steep, from, ystep, up);
      LagSteps(|q|, up, deltax, deltay);
      plotted := plotted + [if steep then Pixel(y, x) else Pixel(x, y)];
      q := q + [up];
      error := error + deltay;
      if error * 2 >= deltax {
        y := y + ystep;
        error := error - deltax;
        up := up + 1;
      }
    }
    ClimbDraws(plotted, q, steep, from, to, ystep);
    DrawsEitherWay(plotted, Turn(steep, from), Turn(steep, to));
  }
}

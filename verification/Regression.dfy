/** Least squares as mathematics: the running sums of a window of points, the determinant of the
    normal equations, and the sum of squared errors of a line. */
module LeastSquares {

  // Products and quotients have names so that a proof about the buffer can leave them alone.
  function Mul(a: real, b: real): real { a * b }

  function Div(a: real, b: real): real
    requires b != 0.0
  {
    a / b
  }

  datatype Point = Point(x: real, y: real)

  datatype Sums = Sums(n: int, x: real, y: real, xx: real, xy: real) {
    function Plus(p: Point): Sums {
      Sums(n + 1, x + p.x, y + p.y, xx + Mul(p.x, p.x), xy + Mul(p.x, p.y))
    }

    function Minus(p: Point): Sums {
      Sums(n - 1, x - p.x, y - p.y, xx - Mul(p.x, p.x), xy - Mul(p.x, p.y))
    }

    function Det(): real { Mul(n as real, xx) - Mul(x, x) }
  }

  const ZERO: Sums := Sums(0, 0.0, 0.0, 0.0, 0.0)

  function SumsOf(w: seq<Point>): (c: Sums)
    ensures c.n == |w|
  {
    if w == [] then ZERO else SumsOf(w[..|w| - 1]).Plus(w[|w| - 1])
  }

  function Square(a: real): (r: real)
    ensures r >= 0.0 && (a != 0.0 ==> r > 0.0) && (a == 0.0 ==> r == 0.0)
  {
    PositiveSquare(a);
    Mul(a, a)
  }

  lemma PositiveSquare(a: real)
    ensures a != 0.0 ==> Mul(a, a) > 0.0
    ensures a == 0.0 ==> Mul(a, a) == 0.0
  {
    if a < 0.0 {
      ProductSign(-a, -a);
    } else if a > 0.0 {
      ProductSign(a, a);
    }
  }

  lemma ProductSign(a: real, b: real)
    requires a > 0.0 && b > 0.0
    ensures Mul(a, b) > 0.0 && Mul(-a, -b) > 0.0
  {
  }

  // How far above the line y = s*x + t the point lies.
  function Err(p: Point, s: real, t: real): real { p.y - s * p.x - t }

  // How far the line y = a*x + b rises above zero at the point.
  function Rise(p: Point, a: real, b: real): real { a * p.x + b }

  // The sum of squared errors of the line y = s*x + t.
  function SquaredErrors(w: seq<Point>, s: real, t: real): real {
    if w == [] then 0.0
    else SquaredErrors(w[..|w| - 1], s, t) + Square(Err(w[|w| - 1], s, t))
  }

  ghost predicate AllSameX(w: seq<Point>) {
    forall i, j | 0 <= i < j < |w| :: w[i].x == w[j].x
  }

  // ----- The window -----

  // The last `size` points of the history.
  function Suffix(h: seq<Point>, size: nat): seq<Point> {
    if |h| <= size then h else h[|h| - size..]
  }

  function Slide(w: seq<Point>, p: Point, size: nat): seq<Point>
    requires size > 0
  {
    if |w| < size then w + [p] else w[1..] + [p]
  }

  // The ring buffer's points, oldest first, when the next one goes to `index`.
  function Unrolled(ring: seq<Point>, index: nat, n: nat): (w: seq<Point>)
    requires index < |ring| && n <= |ring|
    ensures |w| == n
  {
    if n < |ring| then ring[..n] else ring[index..] + ring[..index]
  }

  lemma Wrap(i: nat, size: nat)
    requires i < size
    ensures (i + 1) % size == if i + 1 == size then 0 else i + 1
  {
  }

  lemma RingSlides(ring: seq<Point>, index: nat, n: nat, p: Point)
    requires index < |ring| && n <= |ring| && (n < |ring| ==> index == n)
    ensures var next := (index + 1) % |ring|; var n' := if n < |ring| then n + 1 else n;
            && next == (if index + 1 == |ring| then 0 else index + 1)
            && Unrolled(ring[index := p], next, n') == Slide(Unrolled(ring, index, n), p, |ring|)
  {
    Wrap(index, |ring|);
    var next := (index + 1) % |ring|;
    if n == |ring| {
      var w := Unrolled(ring, index, n);
      assert w[1..] == ring[index + 1..] + ring[..index];
    }
  }

  // The window after the points of h have been added one by one.
  function Fed(h: seq<Point>, size: nat): seq<Point>
    requires size > 0
  {
    if h == [] then [] else Slide(Fed(h[..|h| - 1], size), h[|h| - 1], size)
  }

  // Any run of additions leaves exactly the last min(count, size) points.
  lemma {:induction false} RunLeavesSuffix(h: seq<Point>, size: nat)
    requires size > 0
    ensures Fed(h, size) == Suffix(h, size)
  {
    if h != [] {
      var g := h[..|h| - 1];
      RunLeavesSuffix(g, size);
      assert h == g + [h[|h| - 1]];
      SuffixSlides(g, h[|h| - 1], size);
    }
  }

  lemma SuffixSlides(g: seq<Point>, p: Point, size: nat)
    requires size > 0
    ensures Suffix(g + [p], size) == Slide(Suffix(g, size), p, size)
  {
  }

  lemma PlusMinus(c: Sums, p: Point, q: Point)
    ensures c.Plus(p).Minus(q) == c.Minus(q).Plus(p)
    ensures c.Plus(p).Minus(p) == c
  {
  }

  lemma {:induction false} DropFirst(w: seq<Point>)
    requires w != []
    ensures SumsOf(w[1..]) == SumsOf(w).Minus(w[0])
  {
    var u, p := w[..|w| - 1], w[|w| - 1];
    if |w| == 1 {
      PlusMinus(ZERO, p, p);
    } else {
      assert w[1..][..|w| - 2] == u[1..];
      DropFirst(u);
      PlusMinus(SumsOf(u), p, w[0]);
    }
  }

  lemma AddLast(w: seq<Point>, p: Point)
    ensures SumsOf(w + [p]) == SumsOf(w).Plus(p)
  {
    assert (w + [p])[..|w|] == w;
  }

  lemma SumsSlide(w: seq<Point>, p: Point, size: nat)
    requires 0 < size && |w| <= size
    ensures SumsOf(Slide(w, p, size)) == (if |w| < size then SumsOf(w) else SumsOf(w).Minus(w[0])).Plus(p)
    ensures Slide(w, p, size) != [] && Slide(w, p, size)[|Slide(w, p, size)| - 1] == p
  {
    if |w| < size {
      AddLast(w, p);
    } else {
      DropFirst(w);
      AddLast(w[1..], p);
    }
  }

  lemma OldestAt(ring: seq<Point>, index: nat)
    requires index < |ring|
    ensures Unrolled(ring, index, |ring|)[0] == ring[index]
  {
  }

  // ----- The determinant vanishes exactly when all x agree -----

  // The sum of (x - a)^2 over the window, as the sums give it.
  function Spread(c: Sums, a: real): real { c.xx - 2.0 * a * c.x + c.n as real * a * a }

  lemma {:induction false} SpreadOf(w: seq<Point>, a: real)
    ensures Spread(SumsOf(w), a) >= 0.0
    ensures Spread(SumsOf(w), a) == 0.0 <==> forall i | 0 <= i < |w| :: w[i].x == a
  {
    if w == [] {
    } else {
      hide Spread, Square, Sums.Plus;
      var u, p := w[..|w| - 1], w[|w| - 1];
      SpreadOf(u, a);
      SpreadStep(SumsOf(u), p, a);
      assert forall i | 0 <= i < |u| :: w[i] == u[i];
    }
  }

  lemma SpreadStep(c: Sums, p: Point, a: real)
    ensures Spread(c.Plus(p), a) == Spread(c, a) + Square(p.x - a)
  {
  }

  lemma {:induction false} DetZeroIffSameX(w: seq<Point>)
    ensures SumsOf(w).Det() >= 0.0
    ensures SumsOf(w).Det() == 0.0 <==> AllSameX(w)
  {
    if w != [] {
      var u, p := w[..|w| - 1], w[|w| - 1];
      hide Spread, Sums.Det, Sums.Plus;
      DetZeroIffSameX(u);
      SpreadOf(u, p.x);
      var c := SumsOf(u);
      DetStep(c, p);
      assert forall i | 0 <= i < |u| :: w[i] == u[i];
    }
  }

  lemma DetStep(c: Sums, p: Point)
    ensures c.Plus(p).Det() == c.Det() + Spread(c, p.x)
  {
    var a := p.x;
    calc {
      c.Plus(p).Det();
      (c.n as real + 1.0) * (c.xx + a * a) - (c.x + a) * (c.x + a);
      c.n as real * c.xx + c.n as real * (a * a) + c.xx + a * a - (c.x * c.x + 2.0 * a * c.x + a * a);
      c.Det() + Spread(c, a);
    }
  }

  // ----- The normal equations, and what they give -----

  // Half the (negated) slope of the squared error, along s and along t.
  function ResidualX(c: Sums, s: real, t: real): real { c.xy - s * c.xx - t * c.x }

  function Residual(c: Sums, s: real, t: real): real { c.y - s * c.x - t * c.n as real }

  function Slope(c: Sums): real
    requires c.Det() != 0.0
  {
    Div(Mul(c.n as real, c.xy) - Mul(c.x, c.y), c.Det())
  }

  function Intercept(c: Sums): real
    requires c.Det() != 0.0
  {
    Div(Mul(c.xx, c.y) - Mul(c.x, c.xy), c.Det())
  }

  lemma Divided(a: real, d: real)
    requires d != 0.0
    ensures Mul(Div(a, d), d) == a
  {
  }

  lemma ZeroFactor(a: real, d: real)
    requires d != 0.0 && a * d == 0.0
    ensures a == 0.0
  {
  }

  lemma NormalEquations(c: Sums)
    requires c.Det() != 0.0
    ensures ResidualX(c, Slope(c), Intercept(c)) == 0.0
    ensures Residual(c, Slope(c), Intercept(c)) == 0.0
  {
    hide ResidualX, Residual, Sums.Det;
    var d := c.Det();
    var s, t := Slope(c), Intercept(c);
    var p, q := c.n as real * c.xy - c.x * c.y, c.xx * c.y - c.x * c.xy;
    Divided(p, d);
    Divided(q, d);
    ScaledX(c, s, t);
    Scaled(c, s, t);
    Eliminated(c);
    ZeroFactor(ResidualX(c, s, t), d);
    ZeroFactor(Residual(c, s, t), d);
  }

  lemma ScaledX(c: Sums, s: real, t: real)
    ensures ResidualX(c, s, t) * c.Det() == c.xy * c.Det() - Mul(s, c.Det()) * c.xx - Mul(t, c.Det()) * c.x
  {
    hide Sums.Det;
  }

  lemma Scaled(c: Sums, s: real, t: real)
    ensures Residual(c, s, t) * c.Det() == c.y * c.Det() - Mul(s, c.Det()) * c.x - Mul(t, c.Det()) * c.n as real
  {
    hide Sums.Det;
  }

  // What is left of the two equations when the determinant is put in.
  lemma Eliminated(c: Sums)
    ensures var p, q := c.n as real * c.xy - c.x * c.y, c.xx * c.y - c.x * c.xy;
      && c.xy * c.Det() - p * c.xx - q * c.x == 0.0
      && c.y * c.Det() - p * c.x - q * c.n as real == 0.0
  {
  }

  // The sum of (a*x + b)^2 over the window.
  function Tilt(w: seq<Point>, a: real, b: real): real {
    if w == [] then 0.0 else Tilt(w[..|w| - 1], a, b) + Square(Rise(w[|w| - 1], a, b))
  }

  lemma {:induction false} TiltZero(w: seq<Point>, a: real, b: real)
    ensures Tilt(w, a, b) >= 0.0
    ensures Tilt(w, a, b) == 0.0 ==> forall i | 0 <= i < |w| :: Rise(w[i], a, b) == 0.0
  {
    if w != [] {
      var u := w[..|w| - 1];
      TiltZero(u, a, b);
      assert forall i | 0 <= i < |u| :: w[i] == u[i];
    }
  }

  // The change a move by (a, b) makes to the squared error, to first order and up to the factor -2.
  function FirstOrder(c: Sums, s: real, t: real, a: real, b: real): real {
    a * ResidualX(c, s, t) + b * Residual(c, s, t)
  }

  lemma ErrMoved(p: Point, s: real, t: real, a: real, b: real)
    ensures Square(Err(p, s + a, t + b))
         == Square(Err(p, s, t)) + Square(Rise(p, a, b)) - 2.0 * (Rise(p, a, b) * Err(p, s, t))
  {
    hide *;
    ErrMinusRise(p, s, t, a, b);
    SquareOfDifference(Err(p, s, t), Rise(p, a, b));
  }

  lemma ErrMinusRise(p: Point, s: real, t: real, a: real, b: real)
    ensures Err(p, s + a, t + b) == Err(p, s, t) - Rise(p, a, b)
  {
  }

  lemma SquareOfDifference(r: real, d: real)
    ensures Square(r - d) == Square(r) + Square(d) - 2.0 * (d * r)
  {
  }

  lemma FirstOrderStep(c: Sums, p: Point, s: real, t: real, a: real, b: real)
    ensures FirstOrder(c.Plus(p), s, t, a, b) == FirstOrder(c, s, t, a, b) + Rise(p, a, b) * Err(p, s, t)
  {
    hide ResidualX, Residual, Err, Sums.Plus;
    ResidualStep(c, p, s, t);
    Distribute(a, b, ResidualX(c, s, t), Residual(c, s, t), p.x, Err(p, s, t));
  }

  lemma ResidualStep(c: Sums, p: Point, s: real, t: real)
    ensures ResidualX(c.Plus(p), s, t) == ResidualX(c, s, t) + p.x * Err(p, s, t)
    ensures Residual(c.Plus(p), s, t) == Residual(c, s, t) + Err(p, s, t)
  {
  }

  lemma Distribute(a: real, b: real, u: real, v: real, x: real, r: real)
    ensures a * (u + x * r) + b * (v + r) == a * u + b * v + (a * x + b) * r
  {
  }

  // Moving the line by (a, b) changes the squared error by the tilt, less twice the first-order term.
  lemma {:induction false} MoveLine(w: seq<Point>, s: real, t: real, a: real, b: real)
    ensures SquaredErrors(w, s + a, t + b)
         == SquaredErrors(w, s, t) + Tilt(w, a, b) - 2.0 * FirstOrder(SumsOf(w), s, t, a, b)
  {
    hide FirstOrder, Square, Err, Rise;
    if w == [] {
      NothingToMove(s, t, a, b);
    } else {
      var u, p := w[..|w| - 1], w[|w| - 1];
      MoveLine(u, s, t, a, b);
      ErrMoved(p, s, t, a, b);
      FirstOrderStep(SumsOf(u), p, s, t, a, b);
    }
  }

  lemma NothingToMove(s: real, t: real, a: real, b: real)
    ensures FirstOrder(ZERO, s, t, a, b) == 0.0
  {
  }

  // The line the sums give has a smaller squared error than every other line.
  lemma LeastSquaresLine(w: seq<Point>, s: real, t: real)
    requires !AllSameX(w)
    ensures SumsOf(w).Det() != 0.0
    ensures var c := SumsOf(w); s != Slope(c) || t != Intercept(c) ==>
              SquaredErrors(w, Slope(c), Intercept(c)) < SquaredErrors(w, s, t)
  {
    DetZeroIffSameX(w);
    var c := SumsOf(w);
    BestLine(w, c, Slope(c), Intercept(c), s, t);
  }

  lemma BestLine(w: seq<Point>, c: Sums, s0: real, t0: real, s: real, t: real)
    requires c == SumsOf(w) && c.Det() != 0.0 && !AllSameX(w)
    requires s0 == Slope(c) && t0 == Intercept(c)
    ensures s != s0 || t != t0 ==> SquaredErrors(w, s0, t0) < SquaredErrors(w, s, t)
  {
    hide SumsOf, Tilt, SquaredErrors, FirstOrder, Slope, Intercept, Sums.Det;
    var a, b := s - s0, t - t0;
    StationaryLine(c, a, b);
    MoveLine(w, s0, t0, a, b);
    assert s0 + a == s && t0 + b == t;
    TiltZero(w, a, b);
    if Tilt(w, a, b) == 0.0 {
      var i, j :| 0 <= i < j < |w| && w[i].x != w[j].x;
      assert Rise(w[i], a, b) == 0.0 && Rise(w[j], a, b) == 0.0;
      LevelLine(w[i], w[j], a, b);
    }
  }

  lemma StationaryLine(c: Sums, a: real, b: real)
    requires c.Det() != 0.0
    ensures FirstOrder(c, Slope(c), Intercept(c), a, b) == 0.0
  {
    NormalEquations(c);
    hide ResidualX, Residual;
  }

  lemma LevelLine(p: Point, q: Point, a: real, b: real)
    requires Rise(p, a, b) == Rise(q, a, b) == 0.0 && p.x != q.x
    ensures a == b == 0.0
  {
    assert a * (p.x - q.x) == 0.0;
    ZeroFactor(a, p.x - q.x);
  }
}

/** The regression control block over a caller's ring buffer (chdk-src/core/gps_math.c:269-395),
    with doubles as reals. */
module Regression {
  import opened LeastSquares

  class ControlBlock {
    var size: nat
    var values: array<Point>
    var index: nat
    var sums: Sums
    var lastX: real
    var valid: int
    var s: real
    var t: real

    // The points the sums stand for, oldest first.
    ghost function Window(): seq<Point>
      reads this, values
      requires index < size == values.Length && 0 <= sums.n <= size
    {
      Unrolled(values[..], index, sums.n)
    }

    ghost predicate Valid()
      reads this, values
    {
      && index < size == values.Length && 0 <= sums.n <= size
      && (sums.n < size ==> index == sums.n)
      && sums == SumsOf(Window())
      && lastX == (if sums.n == 0 then 0.0 else Window()[sums.n - 1].x)
      && (valid == 0 || valid == (if AllSameX(Window()) then -1 else 1))
      && if valid == 1 then sums.Det() != 0.0 && s == Slope(sums) && t == Intercept(sums)
         else s == 0.0 && t == 0.0
    }

    constructor (size: nat, buffer: array<Point>)
      requires 0 < size == buffer.Length
      modifies buffer
      ensures Valid() && this.size == size && values == buffer && Window() == []
    {
      this.size, values := size, buffer;
      sums, lastX, valid, s, t, index := ZERO, 0.0, 0, 0.0, 0.0, 0;
      new;
      Reset();
    }

    method Reset()
      requires 0 < size == values.Length
      modifies this, values
      ensures Valid() && size == old(size) && values == old(values) && Window() == []
    {
      sums, lastX, valid, s, t, index := ZERO, 0.0, 0, 0.0, 0.0, 0;
      for i := 0 to size
        invariant sums == ZERO && lastX == 0.0 && valid == 0 && s == t == 0.0 && index == 0
        invariant size == old(size) && values == old(values)
      {
        values[i] := Point(0.0, 0.0);
      }
    }

    // Once the buffer is full, the newest point takes the place of the oldest.
    method Add(x: real, y: real)
      requires Valid()
      modifies this, values
      ensures Valid() && size == old(size) && values == old(values)
      ensures Window() == Slide(old(Window()), Point(x, y), size)
    {
      hide SumsOf, Slope, Intercept, Sums.Det, Sums.Plus, Sums.Minus, AllSameX, Unrolled, Slide;
      ghost var ring := values[..];
      Added(ring, index, sums, Point(x, y));
      if sums.n >= size {
        var oldest := values[index];
        values[index] := Point(0.0, 0.0);
        sums := sums.Minus(oldest);
        valid, s, t := 0, 0.0, 0.0;
      }
      if sums.n < size {
        sums := sums.Plus(Point(x, y));
        valid, s, t := 0, 0.0, 0.0;
        lastX := x;
        values[index] := Point(x, y);
        index := (index + 1) % size;
      }
      assert values[..] == ring[old(index) := Point(x, y)];
    }

    // What an addition makes of the ring and the sums.
    static lemma Added(ring: seq<Point>, index: nat, c: Sums, p: Point)
      requires index < |ring| && 0 <= c.n <= |ring| && (c.n < |ring| ==> index == c.n)
      requires c == SumsOf(Unrolled(ring, index, c.n))
      ensures var d := if c.n >= |ring| then c.Minus(ring[index]) else c; var e := d.Plus(p);
        var next := (index + 1) % |ring|;
        && d.n < |ring| && 0 < e.n <= |ring| && 0 <= next < |ring| && (e.n < |ring| ==> next == e.n)
        && var w := Unrolled(ring[index := p], next, e.n);
           w == Slide(Unrolled(ring, index, c.n), p, |ring|) && e == SumsOf(w) && w[e.n - 1].x == p.x
    {
      RingSlides(ring, index, c.n, p);
      SumsSlide(Unrolled(ring, index, c.n), p, |ring|);
      if c.n == |ring| { OldestAt(ring, index); }
      hide SumsOf, Unrolled, Slide;
    }

    method Compute()
      requires Valid()
      modifies this`valid, this`s, this`t
      ensures Valid() && valid == (if AllSameX(Window()) then -1 else 1)
    {
      hide SumsOf, AllSameX, Mul, Div;
      if valid != 0 { return; }
      valid := -1;
      var det := sums.Det();
      DetZeroIffSameX(Window());
      if det == 0.0 { return; }
      s := Div(Mul(sums.n as real, sums.xy) - Mul(sums.x, sums.y), det);
      t := Div(Mul(sums.xx, sums.y) - Mul(sums.x, sums.xy), det);
      valid := 1;
    }

    // The line the queries answer with: the least-squares line, or zero when there is none.
    ghost predicate Fitted(a: real, b: real)
      reads this, values
      requires Valid()
    {
      if AllSameX(Window()) then a == b == 0.0
      else forall a', b' | a' != a || b' != b :: SquaredErrors(Window(), a, b) < SquaredErrors(Window(), a', b')
    }

    lemma FittedLine()
      requires Valid() && valid != 0
      ensures Fitted(s, t)
    {
      if !AllSameX(Window()) {
        forall a', b' | a' != s || b' != t ensures SquaredErrors(Window(), s, t) < SquaredErrors(Window(), a', b') {
          LeastSquaresLine(Window(), a', b');
        }
      }
    }

    // The line's value at x.
    ghost function At(x: real): real
      reads this
    {
      Mul(x, s) + t
    }

    // The fitted y at the newest x.
    method Actual() returns (r: real)
      requires Valid()
      modifies this`valid, this`s, this`t
      ensures Valid() && Fitted(s, t) && r == (if |Window()| == 0 then 0.0 else At(Window()[|Window()| - 1].x))
    {
      Compute();
      hide AllSameX, SumsOf, Mul, Div;
      FittedLine();
      r := Mul(lastX, s) + t;
    }

    method Forecast(x: real) returns (r: real)
      requires Valid()
      modifies this`valid, this`s, this`t
      ensures Valid() && Fitted(s, t) && r == At(x)
    {
      Compute();
      hide AllSameX, SumsOf, Mul, Div;
      FittedLine();
      r := Mul(x, s) + t;
    }

    // The x at which the fitted line has the value y.
    method Reverse(y: real) returns (r: real)
      requires Valid()
      modifies this`valid, this`s, this`t
      ensures Valid() && Fitted(s, t) && (if s != 0.0 then At(r) == y else r == 1000000000.0)
    {
      Compute();
      FittedLine();
      r := if s != 0.0 then Div(y - t, s) else 1000000000.0;
    }

    method Change() returns (r: real)
      requires Valid()
      modifies this`valid, this`s, this`t
      ensures Valid() && Fitted(s, t) && r == s
    {
      Compute();
      hide AllSameX, SumsOf, Mul, Div;
      FittedLine();
      r := s;
    }
  }
}

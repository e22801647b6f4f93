/** Drawing a line with an integer error term. */
module Line {

  datatype Point = Point(x: int, y: int)

  function Abs(x: int): nat { if x < 0 then -x else x }

  function Max(a: int, b: int): int { if a >= b then a else b }

  // ----- the ideal line -----

  // The integer nearest to k * n / d; a half is rounded up.
  function Nearest(n: nat, d: nat, k: nat): int {
    if d == 0 then 0 else (2 * n * k + d) / (2 * d)
  }

  function Toward(from: int, to: int): int { if from < to then 1 else -1 }

  // The k-th point of the line: one step along the longer axis each, and on the other axis
  // the integer nearest to the ideal line.
  function LinePoint(p: Point, q: Point, k: nat): Point {
    var a, b := Abs(q.x - p.x), Abs(q.y - p.y);
    if a >= b then Point(p.x + Toward(p.x, q.x) * k, p.y + Toward(p.y, q.y) * Nearest(b, a, k))
    else Point(p.x + Toward(p.x, q.x) * Nearest(a, b, k), p.y + Toward(p.y, q.y) * k)
  }

  function Length(p: Point, q: Point): nat {
    Max(Abs(q.x - p.x), Abs(q.y - p.y))
  }

  function LinePoints(p: Point, q: Point): (ps: seq<Point>)
    ensures |ps| == Length(p, q) + 1
  {
    seq(Length(p, q) + 1, k requires 0 <= k => LinePoint(p, q, k))
  }

  // Exactly one integer is that near.
  lemma NearestIs(n: nat, d: nat, k: nat, j: int)
    requires d > 0 && -(d as int) < 2 * (d * j - n * k) <= d
    ensures j == Nearest(n, d, k)
  {
    var x := 2 * n * k + d;
    assert 2 * d * j <= x < 2 * d * j + 2 * d;
    QuotientIs(x, 2 * d, j);
  }

  lemma QuotientIs(x: int, m: int, q: int)
    requires m > 0 && q * m <= x < q * m + m
    ensures x / m == q
  {
    var r := x / m;
    assert r * m <= x < r * m + m;
    assert (r - q) * m < m && (q - r) * m < m;
    MultipleSmall(r - q, m);
  }

  lemma MultipleSmall(k: int, m: int)
    requires m > 0
    ensures (k >= 1 ==> k * m >= m) && (k <= -1 ==> (-k) * m >= m)
  {
  }

  lemma NearestBound(n: nat, d: nat, k: nat)
    requires d > 0
    ensures var j := Nearest(n, d, k); -(d as int) < 2 * (d * j - n * k) <= d
  {
    var x := 2 * n * k + d;
    var j := x / (2 * d);
    assert j * (2 * d) <= x < j * (2 * d) + 2 * d;
    assert d * j * 2 == j * (2 * d);
  }

  // The line starts and ends at the given points, and stays in the box between them.
  lemma LineIsInBox(p: Point, q: Point, k: nat)
    requires k <= Length(p, q)
    ensures LinePoint(p, q, 0) == p && LinePoint(p, q, Length(p, q)) == q
    ensures var r := LinePoint(p, q, k); Between(p.x, r.x, q.x) && Between(p.y, r.y, q.y)
  {
    hide Nearest, Toward;
    var a, b := Abs(q.x - p.x), Abs(q.y - p.y);
    Reaches(p.x, q.x);
    Reaches(p.y, q.y);
    var n, d := if a >= b then b else a, if a >= b then a else b;
    NearestInRange(n, d, k);
    NearestInRange(n, d, 0);
    NearestInRange(n, d, d);
  }

  // A walk of `i` steps stays between the ends, and the whole walk ends at the other one.
  lemma Reaches(from: int, to: int)
    ensures Toward(from, to) * 0 == 0 && from + Toward(from, to) * Abs(to - from) == to
    ensures forall i :: 0 <= i <= Abs(to - from) ==> Between(from, from + Toward(from, to) * i, to)
  {
  }

  predicate Between(a: int, x: int, b: int) {
    a <= x <= b || b <= x <= a
  }

  lemma NearestInRange(n: nat, d: nat, k: nat)
    requires n <= d && k <= d
    ensures 0 <= Nearest(n, d, k) <= n && (k == 0 ==> Nearest(n, d, k) == 0) && (k == d ==> Nearest(n, d, k) == n)
  {
    if d > 0 {
      if k == 0 {
        assert n * k == 0;
        NearestIs(n, d, 0, 0);
      } else if k == d {
        NearestIs(n, d, d, n);
      } else {
        NearestBound(n, d, k);
        var j := Nearest(n, d, k);
        assert 0 <= n * k <= n * d by { ProductOrder(n, k, d); }
        Squeeze(j, n, d, n * k);
      }
    }
  }

  lemma ProductOrder(n: nat, k: nat, d: nat)
    requires k <= d
    ensures 0 <= n * k <= n * d
  {
  }

  lemma Squeeze(j: int, n: nat, d: nat, x: int)
    requires d > 0 && 0 <= x <= n * d && -(d as int) < 2 * (d * j - x) <= d
    ensures 0 <= j <= n
  {
    MultipleSmall(j, d);
    MultipleSmall(j - n, d);
    assert d * j == j * d && (j - n) * d == j * d - n * d;
  }

  // No plotted point is more than half a pixel off the ideal line, along the shorter axis.
  lemma HalfPixel(p: Point, q: Point, k: nat)
    requires k <= Length(p, q)
    ensures var a, b, r := Abs(q.x - p.x), Abs(q.y - p.y), LinePoint(p, q, k);
      2 * Abs(a * Abs(r.y - p.y) - b * Abs(r.x - p.x)) <= Max(a, b)
  {
    var a, b := Abs(q.x - p.x), Abs(q.y - p.y);
    if a >= b {
      if a > 0 {
        NearestBound(b, a, k);
        NearestInRange(b, a, k);
      }
    } else {
      NearestBound(a, b, k);
      NearestInRange(a, b, k);
    }
  }

  // The line has no gap and never turns back: from point to point it goes one pixel along the
  // longer axis, and one or none along the other.
  lemma Connected(p: Point, q: Point, k: nat)
    requires k < Length(p, q)
    ensures var r, s := LinePoint(p, q, k), LinePoint(p, q, k + 1);
      var dx, dy := Abs(s.x - r.x), Abs(s.y - r.y);
      && dx <= 1 && dy <= 1 && (if Abs(q.x - p.x) >= Abs(q.y - p.y) then dx == 1 else dy == 1)
      && Between(p.x, r.x, s.x) && Between(p.y, r.y, s.y)
  {
    var a, b := Abs(q.x - p.x), Abs(q.y - p.y);
    hide Nearest;
    var n, d := if a >= b then b else a, if a >= b then a else b;
    NearestGrows(n, d, k);
    NearestInRange(n, d, k);
    NearestInRange(n, d, k + 1);
  }

  lemma NearestGrows(n: nat, d: nat, k: nat)
    requires d > 0 && n <= d
    ensures Nearest(n, d, k) <= Nearest(n, d, k + 1) <= Nearest(n, d, k) + 1
  {
    NearestBound(n, d, k);
    NearestBound(n, d, k + 1);
    var i, j, x := Nearest(n, d, k), Nearest(n, d, k + 1), n * k;
    assert n * (k + 1) == x + n;
    hide Nearest;
    assert 2 * (d * j - d * i) > -2 * d && 2 * (d * j - d * i) < 4 * d;
    MultipleSmall(i - j, d);
    MultipleSmall(j - i - 1, d);
    assert d * j - d * i == (j - i) * d && (i - j) * d == -((j - i) * d) && (j - i - 1) * d == (j - i) * d - d;
  }

  // ----- the drawing loop -----

  class Window {
    const innerWidth: nat
    const innerHeight: nat
    var plotted: seq<Point>

    constructor (width: nat, height: nat)
      ensures innerWidth == width && innerHeight == height && plotted == []
    {
      innerWidth, innerHeight, plotted := width, height, [];
    }

    method PutPixel(x: int, y: int)
      modifies this
      ensures plotted == old(plotted) + [Point(x, y)]
    {
      plotted := plotted + [Point(x, y)];
    }

    method DrawLine(fromX: int, fromY: int, toX: int, toY: int)
      modifies this
      ensures plotted == old(plotted)
        + if fromX < 0 || fromY < 0 || toX < 0 || toY < 0
             || fromX > innerWidth || fromY > innerHeight || toX > innerWidth || toY > innerHeight
          then [] else LinePoints(Point(fromX, fromY), Point(toX, toY))
    {
      hide StepsAre, LinePoint, LinePoints, Near, Nearest, Toward;
      if fromX < 0 || fromY < 0 || toX < 0 || toY < 0 { return; }
      if fromX > innerWidth || fromY > innerHeight || toX > innerWidth || toY > innerHeight { return; }
      ghost var p, q := Point(fromX, fromY), Point(toX, toY);
      ghost var k: nat, i: nat, j: nat := 0, 0, 0;
      var x, y := fromX, fromY;
      var dx: int, dy: int := Abs(toX - fromX), -(Abs(toY - fromY) as int);
      var sx, sy := Toward(fromX, toX), Toward(fromY, toY);
      var error := dx + dy;
      StepsStart(p, q);
      PointsGrow(p, q, 0);
      while true
        invariant k <= Length(p, q) && StepsAre(p, q, k, x, y, error, i, j)
        invariant plotted == old(plotted) + LinePoints(p, q)[..k]
        decreases Length(p, q) - k
      {
        StepsPoint(p, q, k, x, y, error, i, j);
        PointsGrow(p, q, k);
        PutPixel(x, y);
        if x == toX && y == toY { break; }
        StepsGoOn(p, q, k, x, y, error, i, j);
        var e2 := 2 * error;
        if e2 >= dy {
          if x == toX { break; }
          error := error + dy;
          x := x + sx;
          i := i + 1;
        }
        if e2 <= dx {
          if y == toY { break; }
          error := error + dx;
          y := y + sy;
          j := j + 1;
        }
        k := k + 1;
      }
    }
  }

  function Walk(from: int, to: int, i: int): int { from + Toward(from, to) * i }

  function Drift(a: int, b: int, i: int, j: int): int { a * j - b * i + a - b }

  // After `k` turns, `i` steps in x and `j` in y: the error term is the distance from the
  // ideal line, which is at most half a pixel.
  ghost predicate StepsAre(p: Point, q: Point, k: nat, x: int, y: int, error: int, i: nat, j: nat) {
    var a, b := Abs(q.x - p.x), Abs(q.y - p.y);
    && x == Walk(p.x, q.x, i) && y == Walk(p.y, q.y, j) && i <= a && j <= b
    && error == Drift(a, b, i, j) && Near(a, b, i, j)
    && k == if a >= b then i else j
  }

  // The distance along the shorter axis, doubled and scaled by the longer one.
  predicate Near(a: nat, b: nat, i: nat, j: nat) {
    if a >= b then a == 0 || -(a as int) < 2 * (a * j - b * i) <= a else -(b as int) < 2 * (b * i - a * j) <= b
  }

  lemma StepsPoint(p: Point, q: Point, k: nat, x: int, y: int, error: int, i: nat, j: nat)
    requires StepsAre(p, q, k, x, y, error, i, j)
    ensures k <= Length(p, q) && Point(x, y) == LinePoint(p, q, k)
    ensures x == q.x && y == q.y <==> k == Length(p, q)
  {
    var a, b := Abs(q.x - p.x), Abs(q.y - p.y);
    if a >= b {
      if a > 0 {
        NearestIs(b, a, i, j);
        NearestInRange(b, a, i);
      }
    } else {
      NearestIs(a, b, j, i);
      NearestInRange(a, b, j);
    }
  }

  lemma StepsStart(p: Point, q: Point)
    ensures StepsAre(p, q, 0, p.x, p.y, Abs(q.x - p.x) - Abs(q.y - p.y), 0, 0)
  {
  }

  lemma PointsGrow(p: Point, q: Point, k: nat)
    requires k <= Length(p, q)
    ensures LinePoints(p, q)[..0] == [] && LinePoints(p, q)[..k + 1] == LinePoints(p, q)[..k] + [LinePoint(p, q, k)]
    ensures k == Length(p, q) ==> LinePoints(p, q)[..k + 1] == LinePoints(p, q)
  {
    hide LinePoint;
  }

  // One turn: the coordinate of the longer axis always moves, the other one when it should,
  // and neither passes its end.
  lemma StepsGoOn(p: Point, q: Point, k: nat, x: int, y: int, error: int, i: nat, j: nat)
    requires StepsAre(p, q, k, x, y, error, i, j) && k < Length(p, q)
    ensures var a, b := Abs(q.x - p.x), Abs(q.y - p.y);
      var alongX, alongY := 2 * error >= -(b as int), 2 * error <= a;
      && (alongX ==> x != q.x) && (alongY ==> y != q.y)
      && StepsAre(p, q, k + 1, if alongX then x + Toward(p.x, q.x) else x, if alongY then y + Toward(p.y, q.y) else y,
                  error - (if alongX then b else 0) + (if alongY then a else 0),
                  if alongX then i + 1 else i, if alongY then j + 1 else j)
  {
    hide Near, Toward, Walk, Drift;
    var a, b := Abs(q.x - p.x), Abs(q.y - p.y);
    NearGoesOn(a, b, i, j);
    Moves(p.x, q.x, i);
    Moves(p.y, q.y, j);
    Drifts(a, b, i, j);
  }

  lemma Drifts(a: int, b: int, i: int, j: int)
    ensures Drift(a, b, i + 1, j) == Drift(a, b, i, j) - b
    ensures Drift(a, b, i, j + 1) == Drift(a, b, i, j) + a
    ensures Drift(a, b, i + 1, j + 1) == Drift(a, b, i, j) - b + a
  {
  }

  // A step leads one pixel on, and the end is reached only after all steps.
  lemma Moves(from: int, to: int, i: nat)
    ensures Walk(from, to, i + 1) == Walk(from, to, i) + Toward(from, to)
    ensures i < Abs(to - from) ==> Walk(from, to, i) != to
  {
  }

  lemma NearGoesOn(a: nat, b: nat, i: nat, j: nat)
    requires Near(a, b, i, j) && i <= a && j <= b && (if a >= b then i < a else j < b)
    ensures var e := Drift(a, b, i, j);
      var i', j' := if 2 * e >= -(b as int) then i + 1 else i, if 2 * e <= a then j + 1 else j;
      && (if a >= b then i' == i + 1 else j' == j + 1)
      && Near(a, b, i', j') && i' <= a && j' <= b
  {
    var e := a * j - b * i + a - b;
    var i', j' := if 2 * e >= -(b as int) then i + 1 else i, if 2 * e <= a then j + 1 else j;
    assert b * (i + 1) == b * i + b && a * (j + 1) == a * j + a;
    if a >= b {
      NearestIs(b, a, i + 1, j');
      NearestInRange(b, a, i + 1);
    } else {
      NearestIs(a, b, j + 1, i');
      NearestInRange(a, b, j + 1);
    }
  }
}

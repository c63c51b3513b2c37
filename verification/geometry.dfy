/**
 * Exact plane geometry of the tracer (src/types/Point.ts). Coordinates are Dafny reals,
 * i.e. exact rationals: none of the operations modelled here takes a square root.
 */
module Geometry {

  datatype Point = Point(x: real, y: real)

  function Sub(p: Point, q: Point): Point
  {
    Point(p.x - q.x, p.y - q.y)
  }

  function Abs(r: real): real
  {
    if r < 0.0 then -r else r
  }

  /** `Math.sign` on a finite number. */
  function Sign(r: real): (s: int)
    ensures s == -1 || s == 0 || s == 1
    ensures s == 0 <==> r == 0.0
    ensures s as real * r == Abs(r)
  {
    if r > 0.0 then 1 else if r < 0.0 then -1 else 0
  }

  /** `crossProduct(u, v)` = u x v. */
  function CrossProduct(u: Point, v: Point): real
  {
    u.x * v.y - u.y * v.x
  }

  lemma CrossProductAntisymmetric(u: Point, v: Point)
    ensures CrossProduct(u, v) == -CrossProduct(v, u)
    ensures CrossProduct(u, u) == 0.0
  {
  }

  /** `interval(lambda, u, v)` = u + lambda (v - u). */
  function Interval(lambda: real, u: Point, v: Point): Point
  {
    Point(u.x + lambda * (v.x - u.x), u.y + lambda * (v.y - u.y))
  }

  function Midpoint(u: Point, v: Point): Point
  {
    Point((u.x + v.x) / 2.0, (u.y + v.y) / 2.0)
  }

  /** The interpolation hits both ends and, at one half, the midpoint (in either order). */
  lemma IntervalEnds(u: Point, v: Point)
    ensures Interval(0.0, u, v) == u
    ensures Interval(1.0, u, v) == v
    ensures Interval(0.5, u, v) == Midpoint(u, v) == Midpoint(v, u)
  {
  }

  /** `dorthInfty(u, v)`: the direction 90 degrees counter-clockwise from v - u, rounded
      to one of the eight compass directions. */
  function DorthInfty(u: Point, v: Point): Point
  {
    Point(-(Sign(v.y - u.y) as real), Sign(v.x - u.x) as real)
  }

  /** `ddenom(u, v)`. */
  function DDenom(u: Point, v: Point): (r: real)
    ensures r == Abs(v.x - u.x) + Abs(v.y - u.y)
    ensures r >= 0.0
    ensures r == 0.0 <==> u == v
  {
    var d := DorthInfty(u, v);
    d.y * (v.x - u.x) - d.x * (v.y - u.y)
  }

  /** `dpara(p0, p1, p2)`: the signed area of the parallelogram on p1 - p0 and p2 - p0. */
  function DPara(p0: Point, p1: Point, p2: Point): (r: real)
    ensures r == CrossProduct(Sub(p1, p0), Sub(p2, p0))
  {
    var ux, uy, vx, vy := p1.x - p0.x, p1.y - p0.y, p2.x - p0.x, p2.y - p0.y;
    ux * vy - vx * uy
  }

  /** Swapping the outer points negates the area; it vanishes when two points coincide. */
  lemma DParaSymmetries(p0: Point, p1: Point, p2: Point)
    ensures DPara(p0, p2, p1) == -DPara(p0, p1, p2)
    ensures DPara(p0, p0, p2) == 0.0 && DPara(p0, p1, p0) == 0.0 && DPara(p0, p1, p1) == 0.0
  {
  }

  /** q lies on the line through p0 and p2. */
  predicate OnLine(p0: Point, p2: Point, q: Point)
  {
    CrossProduct(Sub(p2, p0), Sub(q, p0)) == 0.0
  }

  /** q lies in the closed axis-aligned square of half-side 1 centred at c. */
  predicate InUnitSquare(c: Point, q: Point)
  {
    -1.0 <= q.x - c.x <= 1.0 && -1.0 <= q.y - c.y <= 1.0
  }

  lemma AbsProductBound(a: real, b: real)
    requires -1.0 <= b <= 1.0
    ensures Abs(a * b) <= Abs(a)
  {
    if a >= 0.0 {
      if b >= 0.0 { assert a * b <= a * 1.0; } else { assert a * (-b) <= a * 1.0; }
    } else {
      if b >= 0.0 { assert (-a) * b <= (-a) * 1.0; } else { assert (-a) * (-b) <= (-a) * 1.0; }
    }
  }

  /** A point of the square on the line bounds the parallelogram area by ddenom. */
  lemma LineInSquareBoundsDPara(p0: Point, p1: Point, p2: Point, q: Point)
    requires InUnitSquare(p1, q) && OnLine(p0, p2, q)
    ensures Abs(DPara(p0, p1, p2)) <= DDenom(p0, p2)
  {
    var dx, dy := p2.x - p0.x, p2.y - p0.y;
    var ex, ey := q.x - p1.x, q.y - p1.y;
    assert CrossProduct(Sub(p2, p0), Sub(q, p0))
      == dx * (p1.y - p0.y) - dy * (p1.x - p0.x) + (dx * ey - dy * ex);
    assert DPara(p0, p1, p2) == dx * ey - dy * ex;
    AbsProductBound(dx, ey);
    AbsProductBound(dy, ex);
  }

  /** The point of the square that the bound promises: p1 shifted by c/s against the
      signs of the direction. */
  function SquareWitness(p0: Point, p1: Point, p2: Point): Point
    requires p0 != p2
  {
    var c, s := DPara(p0, p1, p2), DDenom(p0, p2);
    Point(p1.x - (c / s) * (Sign(p2.y - p0.y) as real), p1.y + (c / s) * (Sign(p2.x - p0.x) as real))
  }

  lemma WitnessOnLine(p0: Point, p1: Point, p2: Point)
    requires p0 != p2
    ensures OnLine(p0, p2, SquareWitness(p0, p1, p2))
  {
    var dx, dy := p2.x - p0.x, p2.y - p0.y;
    var c, s := DPara(p0, p1, p2), DDenom(p0, p2);
    var k := c / s;
    var q := SquareWitness(p0, p1, p2);
    var ex, ey := q.x - p1.x, q.y - p1.y;
    assert ey == k * (Sign(dx) as real) && ex == -(k * (Sign(dy) as real));
    assert dx * ey == k * ((Sign(dx) as real) * dx);
    assert dy * ex == -(k * ((Sign(dy) as real) * dy));
    assert dx * ey - dy * ex == k * (Abs(dx) + Abs(dy));
    assert k * s == c;
    assert CrossProduct(Sub(p2, p0), Sub(q, p0))
      == dx * (p1.y - p0.y) - dy * (p1.x - p0.x) + (dx * ey - dy * ex);
  }

  lemma WitnessInSquare(p0: Point, p1: Point, p2: Point)
    requires p0 != p2 && Abs(DPara(p0, p1, p2)) <= DDenom(p0, p2)
    ensures InUnitSquare(p1, SquareWitness(p0, p1, p2))
  {
    var c, s := DPara(p0, p1, p2), DDenom(p0, p2);
    assert s > 0.0;
    var k := c / s;
    QuotientBound(c, s);
    assert -1.0 <= k <= 1.0;
    AbsProductBound(k, Sign(p2.x - p0.x) as real);
    AbsProductBound(k, Sign(p2.y - p0.y) as real);
  }

  lemma QuotientBound(c: real, s: real)
    requires s > 0.0 && Abs(c) <= s
    ensures -1.0 <= c / s <= 1.0
  {
    assert s / s == 1.0;
    if c >= 0.0 {
      assert c <= s;
      assert c / s <= s / s;
      assert c / s >= 0.0;
    } else {
      assert -c <= s;
      assert (-c) / s <= s / s;
      assert (-c) / s == -(c / s);
      assert c / s < 0.0;
    }
  }

  /** The property the source documents for `ddenom`/`dpara`: for p0 != p2, the square of
      radius 1 around p1 meets the line p0p2 iff |dpara(p0, p1, p2)| <= ddenom(p0, p2). */
  lemma SquareMeetsLine(p0: Point, p1: Point, p2: Point)
    requires p0 != p2
    ensures (exists q :: InUnitSquare(p1, q) && OnLine(p0, p2, q))
            <==> Abs(DPara(p0, p1, p2)) <= DDenom(p0, p2)
  {
    if q :| InUnitSquare(p1, q) && OnLine(p0, p2, q) {
      LineInSquareBoundsDPara(p0, p1, p2, q);
    }
    if Abs(DPara(p0, p1, p2)) <= DDenom(p0, p2) {
      WitnessOnLine(p0, p1, p2);
      WitnessInSquare(p0, p1, p2);
    }
  }

  /** `quadraticInnerProduct(p0, p1, p2)` = (p1 - p0) . (p2 - p0). */
  function QuadraticInnerProduct(p0: Point, p1: Point, p2: Point): real
  {
    var ux, uy, vx, vy := p1.x - p0.x, p1.y - p0.y, p2.x - p0.x, p2.y - p0.y;
    ux * vx + uy * vy
  }

  /** `cubicInnerProduct(p0, p1, p2, p3)` = (p1 - p0) . (p3 - p2). */
  function CubicInnerProduct(p0: Point, p1: Point, p2: Point, p3: Point): real
  {
    var ux, uy, vx, vy := p1.x - p0.x, p1.y - p0.y, p3.x - p2.x, p3.y - p2.y;
    ux * vx + uy * vy
  }

  function Dot(u: Point, v: Point): real
  {
    u.x * v.x + u.y * v.y
  }

  /** Both inner products are dot products of difference vectors, and the quadratic one is
      the cubic one with a shared base point. */
  lemma InnerProductsAgree(p0: Point, p1: Point, p2: Point, p3: Point)
    ensures CubicInnerProduct(p0, p1, p2, p3) == Dot(Sub(p1, p0), Sub(p3, p2))
    ensures QuadraticInnerProduct(p0, p1, p2) == CubicInnerProduct(p0, p1, p0, p2)
    ensures QuadraticInnerProduct(p0, p1, p2) == QuadraticInnerProduct(p0, p2, p1)
  {
  }

  /** `cubicCrossProduct` as the source writes it: the second component of p1 - p0 is
      taken from the x coordinates. */
  function CubicCrossProductAsWritten(p0: Point, p1: Point, p2: Point, p3: Point): real
  {
    var ux, uy, vx, vy := p1.x - p0.x, p1.x - p0.x, p3.x - p2.x, p3.y - p2.y;
    ux * vy - vx * uy
  }

  /** `cubicCrossProduct` as its comment states it: (p1 - p0) x (p3 - p2). */
  function CubicCrossProduct(p0: Point, p1: Point, p2: Point, p3: Point): (r: real)
    ensures r == CrossProduct(Sub(p1, p0), Sub(p3, p2))
  {
    var ux, uy, vx, vy := p1.x - p0.x, p1.y - p0.y, p3.x - p2.x, p3.y - p2.y;
    ux * vy - vx * uy
  }

  /** A vertical first vector and a horizontal second one: the written product is 0,
      the stated one is -1. */
  lemma CubicCrossProductDiscrepancy()
    ensures CubicCrossProductAsWritten(Point(0.0, 0.0), Point(0.0, 1.0), Point(0.0, 0.0), Point(1.0, 0.0)) == 0.0
    ensures CubicCrossProduct(Point(0.0, 0.0), Point(0.0, 1.0), Point(0.0, 0.0), Point(1.0, 0.0)) == -1.0
  {
  }
}

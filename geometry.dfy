/**
 * The geometry the tracer hands to the optimiser and the G-code emitter:
 * a mutable point object (`DPoint`) and the immutable curve record built
 * from points (`Curve`).
 */
module Geometry {
  import opened Numbers

  /** The coordinates of a point, as a value. */
  datatype Point = Point(X: Double, Y: Double)

  /** A reference point with public, mutable coordinates. */
  class DPoint {
    var X: Double
    var Y: Double

    /** `DPoint(x, y)`. */
    constructor (x: Double, y: Double)
      ensures X == x && Y == y
    {
      X := x;
      Y := y;
    }

    /** `DPoint()`: both coordinates keep the default value of a double, 0. */
    constructor Default()
      ensures X == Num(0.0) && Y == Num(0.0)
    {
      X := Num(0.0);
      Y := Num(0.0);
    }

    /** `copy()`: a new object holding the same coordinates. */
    method Copy() returns (p: DPoint)
      ensures fresh(p)
      ensures p.X == X && p.Y == Y
    {
      p := new DPoint(X, Y);
    }

    function Value(): Point
      reads this
    {
      Point(X, Y)
    }
  }

  /** Because the copy is a fresh object, moving it leaves the original where it was. */
  method MoveCopy(p: DPoint, x: Double, y: Double) returns (q: DPoint)
    ensures fresh(q) && q.Value() == Point(x, y)
    ensures p.Value() == old(p.Value())
  {
    q := p.Copy();
    q.X := x;
    q.Y := y;
  }

  datatype CurveKind = Line | Bezier

  /** A line from A to B, or a cubic Bezier from A to B with two control points. */
  datatype Curve = Curve(Kind: CurveKind, A: Point, ControlPointA: Point, ControlPointB: Point, B: Point)

  /** The `Curve` constructor: takes the current coordinates of the four
      points it is given and stores them with the kind. */
  function MakeCurve(kind: CurveKind, a: DPoint, controlPointA: DPoint, controlPointB: DPoint, b: DPoint): (c: Curve)
    reads a, controlPointA, controlPointB, b
    ensures c.Kind == kind
    ensures c.A == a.Value() && c.B == b.Value()
    ensures c.ControlPointA == controlPointA.Value() && c.ControlPointB == controlPointB.Value()
  {
    Curve(kind, a.Value(), controlPointA.Value(), controlPointB.Value(), b.Value())
  }

  predicate FinitePoint(p: Point)
  {
    p.X.Num? && p.Y.Num?
  }

  /** The square of `LinearLength`, the straight distance from A to B.
      The square root is monotone and maps NaN to NaN and 0 to 0, so every
      question the pipeline asks of the length (is it NaN, does it exceed a
      bound) is answered by the square. */
  function SquaredLinearLength(c: Curve): (r: Double)
    ensures r.NaN? <==> !(FinitePoint(c.A) && FinitePoint(c.B))
    ensures r.Num? ==> r.v >= 0.0
  {
    var dX := Sub(c.B.X, c.A.X);
    var dY := Sub(c.B.Y, c.A.Y);
    Add(Mul(dX, dX), Mul(dY, dY))
  }

  /** `double.IsNaN(LinearLength)`. */
  predicate LinearLengthIsNaN(c: Curve)
  {
    SquaredLinearLength(c).NaN?
  }

  /** A curve whose end points coincide has length 0. */
  lemma LinearLengthOfClosedCurve(c: Curve)
    requires FinitePoint(c.A) && c.A == c.B
    ensures SquaredLinearLength(c) == Num(0.0)
  {
  }

  /** The length does not depend on direction. */
  lemma LinearLengthSymmetric(c: Curve)
    ensures SquaredLinearLength(c) == SquaredLinearLength(c.(A := c.B, B := c.A))
  {
  }

  /** The length ignores the control points and the kind. */
  lemma LinearLengthIgnoresControlPoints(c: Curve, d: Curve)
    requires c.A == d.A && c.B == d.B
    ensures SquaredLinearLength(c) == SquaredLinearLength(d)
  {
  }

}

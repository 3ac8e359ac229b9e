/**
 * `ProgramRange` of GrblFile.cs: the bounding box of everything a program
 * moves over (`MovingRange`), of everything it burns (`DrawingRange`), and
 * the range of laser power it sets (`SpindleRange`), together with the
 * `Quadrant` classification of the drawing.
 *
 * The values the source keeps are `decimal`; the extent of one range is a
 * `Bounds` value, and the classes below keep their fields equal to these
 * values.
 */
module Ranges {
  import opened Wrappers
  import opened Numbers

  // ---------------------------------------------------------------------
  // One range

  /** The `Min`/`Max` pair of a `Range`. */
  datatype Bounds = Bounds(Min: Decimal, Max: Decimal)

  /** `ResetRange`: `Min = decimal.MaxValue`, `Max = decimal.MinValue`. */
  function Reset(): Bounds
  {
    Bounds(DecimalMax, DecimalMin)
  }

  /** `UpdateRange(val)`: `Math.Min` into `Min`, `Math.Max` into `Max`. */
  function Update(b: Bounds, v: Decimal): Bounds
  {
    Bounds(if v < b.Min then v else b.Min, if v > b.Max then v else b.Max)
  }

  /** `XYRange.Range.ValidRange`: both sentinels have been replaced. */
  predicate Valid(b: Bounds)
  {
    b.Min != DecimalMax && b.Max != DecimalMin
  }

  predicate Contains(b: Bounds, v: real)
  {
    b.Min <= v <= b.Max
  }

  /** The bounds after updating with each value of vs in turn. */
  function UpdateAll(b: Bounds, vs: seq<Decimal>): Bounds
  {
    if vs == [] then b else Update(UpdateAll(b, vs[..|vs| - 1]), vs[|vs| - 1])
  }

  /** An update takes in its value, keeps every value already in range,
      and moves each end only to the new value. */
  lemma UpdateSpec(b: Bounds, v: Decimal)
    ensures Contains(Update(b, v), v)
    ensures forall w :: Contains(b, w) ==> Contains(Update(b, v), w)
    ensures Update(b, v).Min == b.Min || Update(b, v).Min == v
    ensures Update(b, v).Max == b.Max || Update(b, v).Max == v
  {
  }

  /** A reset range holds nothing and is not valid. */
  lemma ResetSpec()
    ensures !Valid(Reset())
    ensures forall v: Decimal :: !Contains(Reset(), v)
  {
  }

  /** From a reset, the range spans exactly the values seen: it holds every
      one, and each end is one of them. */
  lemma {:induction false} UpdateAllSpec(vs: seq<Decimal>)
    ensures var b := UpdateAll(Reset(), vs);
      && (forall i :: 0 <= i < |vs| ==> Contains(b, vs[i]))
      && (vs == [] ==> b == Reset())
      && (vs != [] ==> b.Min in vs && b.Max in vs)
  {
    if vs != [] {
      var pre := vs[..|vs| - 1];
      UpdateAllSpec(pre);
      UpdateSpec(UpdateAll(Reset(), pre), vs[|vs| - 1]);
      assert forall i :: 0 <= i < |vs| - 1 ==> vs[i] == pre[i];
      if pre != [] {
        assert forall w :: w in pre ==> w in vs;
      }
    }
  }

  /** A range is valid exactly when some value other than
      `decimal.MaxValue` and some value other than `decimal.MinValue` have
      been seen: a range fed only the sentinel values stays invalid. */
  lemma {:induction false} ValidAfter(vs: seq<Decimal>)
    ensures Valid(UpdateAll(Reset(), vs))
        <==> (exists i :: 0 <= i < |vs| && vs[i] != DecimalMax) && (exists i :: 0 <= i < |vs| && vs[i] != DecimalMin)
  {
    UpdateAllSpec(vs);
    var b := UpdateAll(Reset(), vs);
    if vs != [] {
      if b.Min != DecimalMax {
        var i :| 0 <= i < |vs| && vs[i] == b.Min;
      }
      if b.Max != DecimalMin {
        var i :| 0 <= i < |vs| && vs[i] == b.Max;
      }
    }
  }

  /** Once a value is seen, `Min` stays at most `Max`. */
  predicate Ordered(b: Bounds)
  {
    b == Reset() || b.Min <= b.Max
  }

  lemma OrderedUpdate(b: Bounds, v: Decimal)
    requires Ordered(b)
    ensures Ordered(Update(b, v)) && Update(b, v).Min <= Update(b, v).Max
  {
  }

  // ---------------------------------------------------------------------
  // The spindle range

  /** `SRange.Range.ValidRange`: also `Min != Max` and `Max > 0`. */
  predicate SValid(b: Bounds)
  {
    b.Min != b.Max && Valid(b) && b.Max > 0.0
  }

  /** The power range is valid exactly when the power seen varies and is
      somewhere positive. */
  lemma {:induction false} SValidAfter(vs: seq<Decimal>)
    ensures SValid(UpdateAll(Reset(), vs))
        <==> (exists i, j :: 0 <= i < |vs| && 0 <= j < |vs| && vs[i] != vs[j]) && (exists i :: 0 <= i < |vs| && vs[i] > 0.0)
  {
    UpdateAllSpec(vs);
    var b := UpdateAll(Reset(), vs);
    if vs != [] {
      var p :| 0 <= p < |vs| && vs[p] == b.Min;
      var q :| 0 <= q < |vs| && vs[q] == b.Max;
      if exists i, j :: 0 <= i < |vs| && 0 <= j < |vs| && vs[i] != vs[j] {
        var i, j :| 0 <= i < |vs| && 0 <= j < |vs| && vs[i] != vs[j];
        assert Contains(b, vs[i]) && Contains(b, vs[j]);
      }
      if exists i :: 0 <= i < |vs| && vs[i] > 0.0 {
        var i :| 0 <= i < |vs| && vs[i] > 0.0;
        assert Contains(b, vs[i]);
      }
      if b.Min != b.Max {
        assert vs[p] != vs[q];
      }
    }
  }

  // ---------------------------------------------------------------------
  // Two axes

  datatype XYBounds = XYBounds(X: Bounds, Y: Bounds)

  function ResetXY(): XYBounds
  {
    XYBounds(Reset(), Reset())
  }

  /** `XYRange.UpdateRange(x, y)`: a missing word leaves its axis alone. */
  function UpdateXY(r: XYBounds, x: Option<Decimal>, y: Option<Decimal>): XYBounds
  {
    XYBounds(if x.Some? then Update(r.X, x.value) else r.X, if y.Some? then Update(r.Y, y.value) else r.Y)
  }

  /** An arc's bounding box, converted to `decimal`: both corners must be
      representable. */
  datatype Rect = Rect(X: real, Y: real, Width: real, Height: real)

  predicate ValidRect(a: Rect)
  {
    && DecimalMin <= a.X <= DecimalMax && DecimalMin <= a.X + a.Width <= DecimalMax
    && DecimalMin <= a.Y <= DecimalMax && DecimalMin <= a.Y + a.Height <= DecimalMax
  }

  /** `XYRange.UpdateRange(rectX, rectY, rectW, rectH)`: both corners. */
  function RectUpdate(r: XYBounds, a: Rect): XYBounds
    requires ValidRect(a)
  {
    XYBounds(Update(Update(r.X, a.X), a.X + a.Width), Update(Update(r.Y, a.Y), a.Y + a.Height))
  }

  predicate XYValid(r: XYBounds)
  {
    Valid(r.X) && Valid(r.Y)
  }

  predicate XYContains(r: XYBounds, x: real, y: real)
  {
    Contains(r.X, x) && Contains(r.Y, y)
  }

  /** `r` lies inside `outer` on both axes (a reset range lies inside
      anything). */
  predicate Inside(r: XYBounds, outer: XYBounds)
  {
    Wider(outer.X, r.X) && Wider(outer.Y, r.Y)
  }

  /** `outer` reaches at least as far as `b` at both ends. */
  predicate Wider(outer: Bounds, b: Bounds)
  {
    outer.Min <= b.Min && b.Max <= outer.Max
  }


  lemma UpdateRectSpec(r: XYBounds, a: Rect)
    requires ValidRect(a)
    ensures XYContains(RectUpdate(r, a), a.X, a.Y) && XYContains(RectUpdate(r, a), a.X + a.Width, a.Y + a.Height)
    ensures forall x, y :: XYContains(r, x, y) ==> XYContains(RectUpdate(r, a), x, y)
  {
  }

  // ---------------------------------------------------------------------
  // The three ranges of a program

  datatype ProgramBounds = ProgramBounds(Drawing: XYBounds, Moving: XYBounds, Spindle: Bounds)

  function ResetProgram(): ProgramBounds
  {
    ProgramBounds(ResetXY(), ResetXY(), Reset())
  }

  /** `UpdateXYRange(X, Y, drawing)`: the moving range always, the drawing
      range only while drawing. */
  function XYRangeUpdate(p: ProgramBounds, x: Option<Decimal>, y: Option<Decimal>, drawing: bool): ProgramBounds
  {
    p.(Drawing := if drawing then UpdateXY(p.Drawing, x, y) else p.Drawing, Moving := UpdateXY(p.Moving, x, y))
  }

  function XYRectUpdate(p: ProgramBounds, a: Rect, drawing: bool): ProgramBounds
    requires ValidRect(a)
  {
    p.(Drawing := if drawing then RectUpdate(p.Drawing, a) else p.Drawing, Moving := RectUpdate(p.Moving, a))
  }

  /** `UpdateSRange(S)`: a missing S word changes nothing. */
  function SRangeUpdate(p: ProgramBounds, s: Option<Decimal>): ProgramBounds
  {
    if s.Some? then p.(Spindle := Update(p.Spindle, s.value)) else p
  }

  /** Every update keeps the drawing range inside the moving range, and a
      reset starts that way. */
  lemma ResetInside()
    ensures Inside(ResetProgram().Drawing, ResetProgram().Moving)
  {
  }

  lemma XYRangeUpdateInside(p: ProgramBounds, x: Option<Decimal>, y: Option<Decimal>, drawing: bool)
    requires Inside(p.Drawing, p.Moving)
    ensures Inside(XYRangeUpdate(p, x, y, drawing).Drawing, XYRangeUpdate(p, x, y, drawing).Moving)
  {
  }

  lemma XYRectUpdateInside(p: ProgramBounds, a: Rect, drawing: bool)
    requires Inside(p.Drawing, p.Moving) && ValidRect(a)
    ensures Inside(XYRectUpdate(p, a, drawing).Drawing, XYRectUpdate(p, a, drawing).Moving)
  {
  }

  // ---------------------------------------------------------------------
  // What `Analyze` feeds the ranges

  /** What the position builder reports after one command: the power, the
      position, the bounding box of an arc if the command was one, and
      whether the laser burns. */
  datatype Step = Step(S: Option<Decimal>, X: Decimal, Y: Decimal, Arc: Option<Rect>, Burning: bool)

  predicate ValidStep(st: Step)
  {
    st.Arc.Some? ==> ValidRect(st.Arc.value)
  }

  function AnalyzeStep(p: ProgramBounds, st: Step): ProgramBounds
    requires ValidStep(st)
  {
    var q := SRangeUpdate(p, st.S);
    if st.Arc.Some? then XYRectUpdate(q, st.Arc.value, st.Burning)
    else XYRangeUpdate(q, Some(st.X), Some(st.Y), st.Burning)
  }

  /** The ranges after `Analyze` has seen the given steps: reset, then the
      origin as a move, then each step in turn. */
  function Analyzed(steps: seq<Step>): ProgramBounds
    requires forall i :: 0 <= i < |steps| ==> ValidStep(steps[i])
  {
    if steps == [] then XYRangeUpdate(ResetProgram(), Some(0.0), Some(0.0), false)
    else AnalyzeStep(Analyzed(steps[..|steps| - 1]), steps[|steps| - 1])
  }

  /** The point a step reaches: the far corner of an arc's box, or the
      position. */
  predicate Reaches(r: XYBounds, st: Step)
  {
    if st.Arc.Some? then
      var a := st.Arc.value;
      XYContains(r, a.X, a.Y) && XYContains(r, a.X + a.Width, a.Y + a.Height)
    else XYContains(r, st.X, st.Y)
  }

  lemma ReachesWider(r0: XYBounds, r: XYBounds, st: Step)
    requires Inside(r0, r) && Reaches(r0, st)
    ensures Reaches(r, st)
  {
  }

  /** One step of `Analyze` only widens the ranges, takes in what the step
      reaches, and keeps the drawing inside the moving range. */
  lemma AnalyzeStepSpec(p0: ProgramBounds, st: Step)
    requires ValidStep(st) && Inside(p0.Drawing, p0.Moving)
    ensures var p := AnalyzeStep(p0, st);
      && Inside(p0.Moving, p.Moving) && Inside(p0.Drawing, p.Drawing) && Wider(p.Spindle, p0.Spindle)
      && Reaches(p.Moving, st)
      && (st.Burning ==> Reaches(p.Drawing, st))
      && (st.S.Some? ==> Contains(p.Spindle, st.S.value))
      && Inside(p.Drawing, p.Moving)
  {
    var q := SRangeUpdate(p0, st.S);
    if st.Arc.Some? {
      XYRectUpdateInside(q, st.Arc.value, st.Burning);
    } else {
      XYRangeUpdateInside(q, Some(st.X), Some(st.Y), st.Burning);
    }
  }

  /** After `Analyze`: the moving range holds the origin and everything
      each step reaches, the drawing range holds what every burning step
      reaches and lies inside the moving range, and the spindle range holds
      every power seen. */
  lemma {:induction false} AnalyzedSpec(steps: seq<Step>)
    requires forall i :: 0 <= i < |steps| ==> ValidStep(steps[i])
    ensures var p := Analyzed(steps);
      && XYContains(p.Moving, 0.0, 0.0)
      && Inside(p.Drawing, p.Moving)
      && (forall i :: 0 <= i < |steps| ==> Reaches(p.Moving, steps[i]))
      && (forall i :: 0 <= i < |steps| && steps[i].Burning ==> Reaches(p.Drawing, steps[i]))
      && (forall i :: 0 <= i < |steps| && steps[i].S.Some? ==> Contains(p.Spindle, steps[i].S.value))
  {
    if steps != [] {
      var n := |steps|;
      var pre := steps[..n - 1];
      AnalyzedSpec(pre);
      var p0 := Analyzed(pre);
      var p := Analyzed(steps);
      AnalyzeStepSpec(p0, steps[n - 1]);
      forall i | 0 <= i < n - 1
        ensures Reaches(p.Moving, steps[i])
        ensures steps[i].Burning ==> Reaches(p.Drawing, steps[i])
        ensures steps[i].S.Some? ==> Contains(p.Spindle, steps[i].S.value)
      {
        assert steps[i] == pre[i];
        ReachesWider(p0.Moving, p.Moving, steps[i]);
        if steps[i].Burning {
          ReachesWider(p0.Drawing, p.Drawing, steps[i]);
        }
      }
    }
  }

  // ---------------------------------------------------------------------
  // Quadrant

  /** `CartesianQuadrant`:  II | I  over  III | IV. */
  datatype CartesianQuadrant = I | II | III | IV | Mix | Unknown

  /** `GrblFile.Quadrant`, applied to the drawing range: where it lies,
      checked in the order I, II, III, IV. */
  function Quadrant(d: XYBounds): CartesianQuadrant
  {
    if !XYValid(d) then Unknown
    else if d.X.Min >= 0.0 && d.Y.Min >= 0.0 then I
    else if d.X.Max <= 0.0 && d.Y.Min >= 0.0 then II
    else if d.X.Max <= 0.0 && d.Y.Max <= 0.0 then III
    else if d.X.Min >= 0.0 && d.Y.Max <= 0.0 then IV
    else Mix
  }

  /** Every point of the drawing lies in the quadrant reported; `Unknown`
      means nothing valid was drawn, and `Mix` means the drawing reaches
      both sides of an axis. */
  lemma QuadrantSpec(d: XYBounds, x: real, y: real)
    ensures Quadrant(d) == Unknown <==> !XYValid(d)
    ensures XYContains(d, x, y) ==>
      && (Quadrant(d) == I ==> x >= 0.0 && y >= 0.0)
      && (Quadrant(d) == II ==> x <= 0.0 && y >= 0.0)
      && (Quadrant(d) == III ==> x <= 0.0 && y <= 0.0)
      && (Quadrant(d) == IV ==> x >= 0.0 && y <= 0.0)
    ensures Quadrant(d) == Mix ==>
      && (d.X.Min < 0.0 || d.Y.Min < 0.0) && (d.X.Max > 0.0 || d.Y.Min < 0.0)
      && (d.X.Max > 0.0 || d.Y.Max > 0.0) && (d.X.Min < 0.0 || d.Y.Max > 0.0)
  {
  }

  // ---------------------------------------------------------------------
  // The classes

  /** `XYRange.Range` and `SRange.Range`: the least and greatest value
      seen since the last reset. */
  class Range {
    var Min: Decimal
    var Max: Decimal

    function Value(): Bounds
      reads this
    {
      Bounds(Min, Max)
    }

    constructor ()
      ensures Value() == Reset()
    {
      Min := DecimalMax;
      Max := DecimalMin;
    }

    method UpdateRange(val: Decimal)
      modifies this
      ensures Value() == Update(old(Value()), val)
      ensures Min <= val <= Max
    {
      Min := if val < Min then val else Min;
      Max := if val > Max then val else Max;
    }

    method ResetRange()
      modifies this
      ensures Value() == Reset()
    {
      Min := DecimalMax;
      Max := DecimalMin;
    }

    /** `XYRange.Range.ValidRange`. */
    function ValidRange(): (r: bool)
      reads this
      ensures r <==> Valid(Value())
    {
      Min != DecimalMax && Max != DecimalMin
    }
  }

  /** `decimal` subtraction: `None` where .NET throws an overflow exception
      because the difference does not fit. */
  function DecimalDifference(a: Decimal, b: Decimal): Option<Decimal>
  {
    var d := a - b;
    if DecimalMin <= d <= DecimalMax then Some(d) else None
  }

  /** `XYRange`: one range per axis. */
  class XYRange {
    const X: Range
    const Y: Range

    ghost predicate Separate()
    {
      X != Y
    }

    function Value(): XYBounds
      reads X, Y
    {
      XYBounds(X.Value(), Y.Value())
    }

    constructor ()
      ensures Separate() && fresh(X) && fresh(Y)
      ensures Value() == ResetXY()
    {
      X := new Range();
      Y := new Range();
    }

    method UpdateRange(x: Option<Decimal>, y: Option<Decimal>)
      requires Separate()
      modifies X, Y
      ensures Value() == UpdateXY(old(Value()), x, y)
    {
      if x.Some? {
        X.UpdateRange(x.value);
      }
      if y.Some? {
        Y.UpdateRange(y.value);
      }
    }

    method UpdateRect(rectX: real, rectY: real, rectW: real, rectH: real)
      requires Separate() && ValidRect(Rect(rectX, rectY, rectW, rectH))
      modifies X, Y
      ensures Value() == RectUpdate(old(Value()), Rect(rectX, rectY, rectW, rectH))
    {
      X.UpdateRange(rectX);
      X.UpdateRange(rectX + rectW);
      Y.UpdateRange(rectY);
      Y.UpdateRange(rectY + rectH);
    }

    method ResetRange()
      requires Separate()
      modifies X, Y
      ensures Value() == ResetXY()
    {
      X.ResetRange();
      Y.ResetRange();
    }

    function ValidRange(): (r: bool)
      reads X, Y
      ensures r <==> XYValid(Value())
    {
      X.ValidRange() && Y.ValidRange()
    }

    /** `Width`: `X.Max - X.Min` in `decimal`, which throws an overflow
        exception when the difference lies outside the `decimal` range
        (a reset range among others); that is `None` here. */
    function Width(): (w: Option<Decimal>)
      reads X, Y
      ensures w.None? <==> !(DecimalMin <= X.Max - X.Min <= DecimalMax)
      ensures Value().X == Reset() ==> w.None?
      ensures w.Some? ==> X.Min + w.value == X.Max
      ensures Ordered(Value().X) && ValidRange() && w.Some? ==> w.value >= 0.0
    {
      DecimalDifference(X.Max, X.Min)
    }

    /** `Height`: `Y.Max - Y.Min`, as `Width` is for X. */
    function Height(): (h: Option<Decimal>)
      reads X, Y
      ensures h.None? <==> !(DecimalMin <= Y.Max - Y.Min <= DecimalMax)
      ensures Value().Y == Reset() ==> h.None?
      ensures h.Some? ==> Y.Min + h.value == Y.Max
      ensures Ordered(Value().Y) && ValidRange() && h.Some? ==> h.value >= 0.0
    {
      DecimalDifference(Y.Max, Y.Min)
    }
  }

  /** `SRange`: the range of S words. */
  class SRange {
    const S: Range

    constructor ()
      ensures fresh(S) && S.Value() == Reset()
    {
      S := new Range();
    }

    method UpdateRange(s: Decimal)
      modifies S
      ensures S.Value() == Update(old(S.Value()), s)
    {
      S.UpdateRange(s);
    }

    method ResetRange()
      modifies S
      ensures S.Value() == Reset()
    {
      S.ResetRange();
    }

    function ValidRange(): (r: bool)
      reads S
      ensures r <==> SValid(S.Value())
    {
      S.Min != S.Max && S.Min != DecimalMax && S.Max != DecimalMin && S.Max > 0.0
    }
  }

  /** `ProgramRange`: the drawing, moving and spindle ranges of a program. */
  class ProgramRange {
    const DrawingRange: XYRange
    const MovingRange: XYRange
    const SpindleRange: SRange

    /** The five `Range` objects are distinct. */
    ghost predicate Separate()
    {
      && DrawingRange.Separate() && MovingRange.Separate()
      && DrawingRange.X != MovingRange.X && DrawingRange.X != MovingRange.Y
      && DrawingRange.Y != MovingRange.X && DrawingRange.Y != MovingRange.Y
      && SpindleRange.S != DrawingRange.X && SpindleRange.S != DrawingRange.Y
      && SpindleRange.S != MovingRange.X && SpindleRange.S != MovingRange.Y
    }

    function Value(): ProgramBounds
      reads DrawingRange.X, DrawingRange.Y, MovingRange.X, MovingRange.Y, SpindleRange.S
    {
      ProgramBounds(DrawingRange.Value(), MovingRange.Value(), SpindleRange.S.Value())
    }

    constructor ()
      ensures Separate() && Value() == ResetProgram()
    {
      DrawingRange := new XYRange();
      MovingRange := new XYRange();
      SpindleRange := new SRange();
    }

    method UpdateXYRange(x: Option<Decimal>, y: Option<Decimal>, drawing: bool)
      requires Separate()
      modifies DrawingRange.X, DrawingRange.Y, MovingRange.X, MovingRange.Y
      ensures Value() == XYRangeUpdate(old(Value()), x, y, drawing)
    {
      if drawing {
        DrawingRange.UpdateRange(x, y);
      }
      MovingRange.UpdateRange(x, y);
    }

    method UpdateXYRect(rectX: real, rectY: real, rectW: real, rectH: real, drawing: bool)
      requires Separate() && ValidRect(Rect(rectX, rectY, rectW, rectH))
      modifies DrawingRange.X, DrawingRange.Y, MovingRange.X, MovingRange.Y
      ensures Value() == XYRectUpdate(old(Value()), Rect(rectX, rectY, rectW, rectH), drawing)
    {
      if drawing {
        DrawingRange.UpdateRect(rectX, rectY, rectW, rectH);
      }
      MovingRange.UpdateRect(rectX, rectY, rectW, rectH);
    }

    method UpdateSRange(s: Option<Decimal>)
      requires Separate()
      modifies SpindleRange.S
      ensures Value() == SRangeUpdate(old(Value()), s)
    {
      if s.Some? {
        SpindleRange.UpdateRange(s.value);
      }
    }

    method ResetRange()
      requires Separate()
      modifies DrawingRange.X, DrawingRange.Y, MovingRange.X, MovingRange.Y, SpindleRange.S
      ensures Value() == ResetProgram()
    {
      DrawingRange.ResetRange();
      MovingRange.ResetRange();
      SpindleRange.ResetRange();
    }

    /** The range updates of `Analyze`, with what the position builder
        reports for each command given as `steps`. */
    method Analyze(steps: seq<Step>)
      requires Separate() && forall i :: 0 <= i < |steps| ==> ValidStep(steps[i])
      modifies DrawingRange.X, DrawingRange.Y, MovingRange.X, MovingRange.Y, SpindleRange.S
      ensures Value() == Analyzed(steps)
    {
      ResetRange();
      UpdateXYRange(Some(0.0), Some(0.0), false);
      for i := 0 to |steps|
        invariant Value() == Analyzed(steps[..i])
      {
        var st := steps[i];
        UpdateSRange(st.S);
        if st.Arc.Some? {
          var a := st.Arc.value;
          UpdateXYRect(a.X, a.Y, a.Width, a.Height, st.Burning);
        } else {
          UpdateXYRange(Some(st.X), Some(st.Y), st.Burning);
        }
        assert steps[..i + 1][..i] == steps[..i];
      }
      assert steps[..|steps|] == steps;
    }

  }
}

/**
 * The G-code writer of the vectoriser (CsPotraceExportGCODE.cs): every traced
 * path becomes one rapid move to its start followed by one cutting move per
 * line, or per arc of the biarc fit of each Bezier. Coordinates are shifted
 * by the offset and divided by the scale; the laser-on code rides on the
 * moves of a path's first curve only.
 *
 * A reader for the words of an emitted command (`Words`, `Coordinate`) is
 * defined here so that what a command says can be checked by reading it back.
 */
module PotraceExport {
  import opened Wrappers
  import opened Numbers
  import opened Format
  import opened Geometry

  /** One arc of a biarc as the arc-fitting library reports it: start,
      end, centre, direction, and its arc and chord lengths. */
  datatype Arc = Arc(P1: Point, P2: Point, C: Point, IsClockwise: bool, Length: Double, LinearLength: Double)

  /** Two arcs joined end to end. */
  datatype BiArc = BiArc(A1: Arc, A2: Arc)

  /** The outcome of `Algorithm.ApproxCubicBezier(cb, 5, 2)`: a list of
      biarcs, `null` (too many points to process), or an exception. */
  datatype Approximation = Fitted(Arcs: seq<BiArc>) | TooComplex | Failed

  // ---------------------------------------------------------------------
  // Reading a command back

  /** The words of a command: the pieces between single spaces. */
  function Words(s: string): (w: seq<string>)
    ensures |w| > 0
    decreases |s|
  {
    var k := IndexOf(s, ' ');
    if k == |s| then [s] else [s[..k]] + Words(s[k + 1..])
  }

  /** The number a word carries after its address letter, when it has that letter. */
  function Coordinate(w: string, letter: char): Option<real>
  {
    if |w| > 0 && w[0] == letter then ParseDecimal(w[1..]) else None
  }

  /** A word followed by a space and more text splits off as the first word. */
  lemma {:induction false} WordsCons(a: string, b: string)
    requires Lacks(a, ' ')
    ensures Words(a + " " + b) == [a] + Words(b)
  {
    var s := a + " " + b;
    assert s == a + (" " + b);
    IndexOfAppend(a, " " + b, ' ');
    assert s[..|a|] == a;
    assert s[|a| + 1..] == b;
  }

  /** Text without a space is a single word. */
  lemma {:induction false} WordsOne(a: string)
    requires Lacks(a, ' ')
    ensures Words(a) == [a]
  {
    IndexOfAppend(a, "", ' ');
    assert a + "" == a;
  }

  lemma {:induction false} NoSpaceAppend(a: string, b: string)
    requires Lacks(a, ' ') && Lacks(b, ' ')
    ensures Lacks(a + b, ' ')
  {
    forall i | 0 <= i < |a + b| ensures (a + b)[i] != ' ' {
      if i >= |a| {
        assert (a + b)[i] == b[i - |a|];
      }
    }
  }

  lemma {:induction false} NoSpaceOfDigits(s: string)
    requires AllDigits(s)
    ensures Lacks(s, ' ')
  {
    forall i | 0 <= i < |s| ensures s[i] != ' ' {
      assert IsDigit(s[i]);
    }
  }

  /** "0" reads back as zero. */
  lemma {:induction false} ParseZero()
    ensures ParseDecimal("0") == Some(0.0)
  {
    assert IndexOf("0", '.') == 1 + IndexOf("", '.');
    assert "0"[..1] == "0";
    assert DigitsValue("0") == DigitsValue("") * 10 + DigitValue('0') by {
      assert "0"[..0] == "";
    }
  }

  lemma {:induction false} MagnitudeNoSpace(m: nat)
    ensures Lacks(RenderMagnitude(m), ' ')
  {
    var frac := FractionDigits(m % 1000);
    var ip := NatToString(m / 1000);
    NoSpaceOfDigits(ip);
    NoSpaceOfDigits(frac);
    var tail := if frac == [] then "" else "." + frac;
    assert Lacks(tail, ' ') by {
      if frac != [] {
        NoSpaceAppend(".", frac);
      }
    }
    NoSpaceAppend(ip, tail);
  }

  /** `FormatNumber` prints a number without spaces. */
  lemma {:induction false} FormatNumberNoSpace(number: Double, scale: real)
    requires scale != 0.0
    ensures Lacks(FormatNumber(number, scale), ' ')
  {
    if number.Num? {
      var q := RoundAway(number.v / scale, 1000);
      MagnitudeNoSpace(Abs(q));
      NoSpaceAppend(if q < 0 then "-" else "", RenderMagnitude(Abs(q)));
    }
  }

  // ---------------------------------------------------------------------
  // The commands

  /** What a `FormatNumber(d, scale)` field reads back as: the quotient
      rounded to thousandths, or 0 for NaN. */
  function Printed(d: Double, scale: real): real
    requires scale != 0.0
  {
    match d
    case NaN => 0.0
    case Num(v) => Thousandths(v / scale)
  }

  /** A word: an address letter followed by `FormatNumber(d, scale)`. */
  function Field(letter: char, d: Double, scale: real): string
    requires scale != 0.0
  {
    [letter] + FormatNumber(d, scale)
  }

  /** A field is one word that reads back as its letter and printed value. */
  lemma {:induction false} FieldReads(letter: char, d: Double, scale: real)
    requires scale != 0.0 && letter != ' '
    ensures Lacks(Field(letter, d, scale), ' ')
    ensures Coordinate(Field(letter, d, scale), letter) == Some(Printed(d, scale))
  {
    FormatNumberNoSpace(d, scale);
    NoSpaceAppend([letter], FormatNumber(d, scale));
    FormatNumberRoundTrip(d, scale);
    assert Field(letter, d, scale)[1..] == FormatNumber(d, scale);
    if d.NaN? {
      ParseZero();
    }
  }

  /** Words joined by single spaces, as the interpolated command strings
      lay them out. */
  function Join(ws: seq<string>): string
    requires |ws| > 0
  {
    if |ws| == 1 then ws[0] else ws[0] + " " + Join(ws[1..])
  }

  predicate AllWords(ws: seq<string>)
  {
    forall i :: 0 <= i < |ws| ==> Lacks(ws[i], ' ')
  }

  /** Words without spaces, joined, read back as themselves. */
  lemma {:induction false} WordsOfJoin(ws: seq<string>)
    requires |ws| > 0 && AllWords(ws)
    ensures Words(Join(ws)) == ws
  {
    if |ws| == 1 {
      WordsOne(ws[0]);
    } else {
      assert AllWords(ws[1..]) by {
        forall i | 0 <= i < |ws| - 1 ensures Lacks(ws[1..][i], ' ') {
          assert ws[1..][i] == ws[i + 1];
        }
      }
      WordsOfJoin(ws[1..]);
      WordsCons(ws[0], Join(ws[1..]));
    }
  }

  /** The first word of a joined command is its first piece. */
  lemma {:induction false} WordsHead(ws: seq<string>)
    requires |ws| > 0 && Lacks(ws[0], ' ')
    ensures Words(Join(ws))[0] == ws[0]
  {
    if |ws| == 1 {
      WordsOne(ws[0]);
    } else {
      WordsCons(ws[0], Join(ws[1..]));
    }
  }

  lemma {:induction false} JoinAppend(ws: seq<string>, vs: seq<string>)
    requires |ws| > 0 && |vs| > 0
    ensures Join(ws + vs) == Join(ws) + " " + Join(vs)
  {
    if |ws| == 1 {
      assert (ws + vs)[1..] == vs;
    } else {
      assert (ws + vs)[1..] == ws[1..] + vs;
      JoinAppend(ws[1..], vs);
    }
  }

  /** The words of `{code} X{..} Y{..}`: a move to `p` shifted by the
      offset, in scaled units. */
  function MoveWords(code: string, p: Point, ox: Double, oy: Double, scale: real): seq<string>
    requires scale != 0.0
  {
    [code, Field('X', Add(p.X, ox), scale), Field('Y', Add(p.Y, oy), scale)]
  }

  /** The coordinates of a move read back as the printed shifted point. */
  lemma {:induction false} MoveReads(code: string, p: Point, ox: Double, oy: Double, scale: real)
    requires scale != 0.0 && Lacks(code, ' ')
    ensures var w := MoveWords(code, p, ox, oy, scale);
      && AllWords(w)
      && Coordinate(w[1], 'X') == Some(Printed(Add(p.X, ox), scale))
      && Coordinate(w[2], 'Y') == Some(Printed(Add(p.Y, oy), scale))
  {
    FieldReads('X', Add(p.X, ox), scale);
    FieldReads('Y', Add(p.Y, oy), scale);
  }

  /** The arc is long enough to be cut as an arc: `LinearLength > 2`
      (a NaN length compares false). */
  predicate LongArc(arc: Arc)
  {
    arc.LinearLength.Num? && arc.LinearLength.v > 2.0
  }

  /** The words of `GetArcGC`: a long arc becomes G2 (counter-clockwise)
      or G3 (clockwise) to its shifted end point followed by the centre
      relative to its start; a short one becomes a G1 to its end. */
  function ArcWords(arc: Arc, ox: Double, oy: Double, scale: real): seq<string>
    requires scale != 0.0
  {
    if LongArc(arc) then
      MoveWords(if !arc.IsClockwise then "G2" else "G3", arc.P2, ox, oy, scale)
        + [Field('I', Sub(arc.C.X, arc.P1.X), scale), Field('J', Sub(arc.C.Y, arc.P1.Y), scale)]
    else
      MoveWords("G1", arc.P2, ox, oy, scale)
  }

  function GetArcGC(arc: Arc, ox: Double, oy: Double, scale: real): string
    requires scale != 0.0
  {
    Join(ArcWords(arc, ox, oy, scale))
  }

  /** The words of an arc command carry its motion code, the shifted end
      point, and for a long arc the centre offset from the start, unshifted. */
  lemma {:induction false} ArcWordsRead(arc: Arc, ox: Double, oy: Double, scale: real)
    requires scale != 0.0
    ensures var w := ArcWords(arc, ox, oy, scale);
      && AllWords(w)
      && |w| == (if LongArc(arc) then 5 else 3)
      && w[0] == (if !LongArc(arc) then "G1" else if arc.IsClockwise then "G3" else "G2")
      && Coordinate(w[1], 'X') == Some(Printed(Add(arc.P2.X, ox), scale))
      && Coordinate(w[2], 'Y') == Some(Printed(Add(arc.P2.Y, oy), scale))
      && (LongArc(arc) ==>
          && Coordinate(w[3], 'I') == Some(Printed(Sub(arc.C.X, arc.P1.X), scale))
          && Coordinate(w[4], 'J') == Some(Printed(Sub(arc.C.Y, arc.P1.Y), scale)))
  {
    if LongArc(arc) {
      var code := if arc.IsClockwise then "G3" else "G2";
      var m := MoveWords(code, arc.P2, ox, oy, scale);
      var fi, fj := Field('I', Sub(arc.C.X, arc.P1.X), scale), Field('J', Sub(arc.C.Y, arc.P1.Y), scale);
      assert ArcWords(arc, ox, oy, scale) == m + [fi, fj];
      MoveReads(code, arc.P2, ox, oy, scale);
      FieldReads('I', Sub(arc.C.X, arc.P1.X), scale);
      FieldReads('J', Sub(arc.C.Y, arc.P1.Y), scale);
      MoveThenFields(m, fi, fj);
    } else {
      MoveReads("G1", arc.P2, ox, oy, scale);
    }
  }

  lemma {:induction false} MoveThenFields(m: seq<string>, fi: string, fj: string)
    requires AllWords(m) && |m| == 3 && Lacks(fi, ' ') && Lacks(fj, ' ')
    ensures var w := m + [fi, fj];
      AllWords(w) && |w| == 5 && w[0] == m[0] && w[1] == m[1] && w[2] == m[2] && w[3] == fi && w[4] == fj
  {
    AllWordsAppend(m, [fi, fj]);
  }

  /** Reading an arc command back gives exactly its words. */
  lemma {:induction false} GetArcGCReads(arc: Arc, ox: Double, oy: Double, scale: real)
    requires scale != 0.0
    ensures Words(GetArcGC(arc, ox, oy, scale)) == ArcWords(arc, ox, oy, scale)
  {
    ArcWordsRead(arc, ox, oy, scale);
    WordsOfJoin(ArcWords(arc, ox, oy, scale));
  }

  lemma {:induction false} AllWordsAppend(ws: seq<string>, vs: seq<string>)
    requires AllWords(ws) && AllWords(vs)
    ensures AllWords(ws + vs)
  {
    forall i | 0 <= i < |ws + vs| ensures Lacks((ws + vs)[i], ' ') {
      if i >= |ws| {
        assert (ws + vs)[i] == vs[i - |ws|];
      }
    }
  }

  // ---------------------------------------------------------------------
  // One curve

  /** `onCode`: the laser-on code, after a space, on the moves of the
      path's first curve; nothing on the others. */
  function OnCode(lOn: string, idx: int): string
  {
    if idx == 0 then " " + lOn else ""
  }

  /** A half of a biarc is written only when both its lengths are numbers. */
  predicate Usable(a: Arc)
  {
    a.Length.Num? && a.LinearLength.Num?
  }

  /** The command list a half adds: its arc command followed by `onCode`,
      when the half is usable. */
  function Half(a: Arc, onCode: string, arcGC: Arc -> string): seq<string>
  {
    if Usable(a) then [arcGC(a) + onCode] else []
  }

  /** The commands the `foreach` over the biarc list adds, in list order,
      `arcGC` giving the command text of one arc. */
  function ArcCommands(bal: seq<BiArc>, onCode: string, arcGC: Arc -> string): seq<string>
  {
    if bal == [] then []
    else
      var ba := bal[|bal| - 1];
      ArcCommands(bal[..|bal| - 1], onCode, arcGC) + Half(ba.A1, onCode, arcGC) + Half(ba.A2, onCode, arcGC)
  }

  /** `GetArcGC` with the offset and scale of the path being written. */
  function ArcGC(ox: Double, oy: Double, scale: real): Arc -> string
    requires scale != 0.0
  {
    a => GetArcGC(a, ox, oy, scale)
  }

  /** The halves of one biarc that get written, first before second. */
  function UsableHalves(ba: BiArc): seq<Arc>
  {
    (if Usable(ba.A1) then [ba.A1] else []) + (if Usable(ba.A2) then [ba.A2] else [])
  }

  /** The usable halves of a biarc list, in list order. */
  function UsableArcs(bal: seq<BiArc>): seq<Arc>
  {
    if bal == [] then [] else UsableHalves(bal[0]) + UsableArcs(bal[1..])
  }

  /** A straight cut to the end of the curve, `G1 X.. Y..{onCode}`. */
  function LineTo(c: Curve, onCode: string, ox: Double, oy: Double, scale: real): string
    requires scale != 0.0
  {
    Join(MoveWords("G1", c.B, ox, oy, scale)) + onCode
  }

  /** The commands `OnPathSegment` adds for the curve at index `idx`:
      nothing when its length is NaN; a G1 to its end for a line, or for a
      Bezier whose fit returned null or threw; otherwise one command per
      usable biarc half. */
  function SegmentCommands(c: Curve, lOn: string, ox: Double, oy: Double, scale: real, idx: int,
                           approx: Curve -> Approximation): seq<string>
    requires scale != 0.0
  {
    var onCode := OnCode(lOn, idx);
    if LinearLengthIsNaN(c) then []
    else if c.Kind == Line then [LineTo(c, onCode, ox, oy, scale)]
    else match approx(c)
      case Fitted(bal) => ArcCommands(bal, onCode, ArcGC(ox, oy, scale))
      case _ => [LineTo(c, onCode, ox, oy, scale)]
  }

  lemma {:induction false} UsableArcsAppend(a: seq<BiArc>, b: seq<BiArc>)
    ensures UsableArcs(a + b) == UsableArcs(a) + UsableArcs(b)
  {
    if a == [] {
      assert a + b == b;
    } else {
      assert UsableArcs(a[1..] + b) == UsableArcs(a[1..]) + UsableArcs(b) by {
        UsableArcsAppend(a[1..], b);
      }
      assert (a + b)[0] == a[0] && (a + b)[1..] == a[1..] + b;
    }
  }

  /** The arc commands are one per usable half, in order, each the arc's
      command followed by `onCode`. */
  lemma {:induction false} ArcCommandsSpec(bal: seq<BiArc>, onCode: string, arcGC: Arc -> string)
    ensures var r := ArcCommands(bal, onCode, arcGC); var arcs := UsableArcs(bal);
      && |r| == |arcs|
      && forall j :: 0 <= j < |r| ==> r[j] == arcGC(arcs[j]) + onCode
  {
    if bal != [] {
      var init, ba := bal[..|bal| - 1], bal[|bal| - 1];
      var r, r0 := ArcCommands(bal, onCode, arcGC), ArcCommands(init, onCode, arcGC);
      var a0, u := UsableArcs(init), UsableHalves(ba);
      assert UsableArcs(bal) == a0 + u by {
        assert bal == init + [ba];
        UsableArcsAppend(init, [ba]);
        assert [ba][1..] == [];
      }
      ArcCommandsSpec(init, onCode, arcGC);
      var h := Half(ba.A1, onCode, arcGC) + Half(ba.A2, onCode, arcGC);
      assert r == r0 + h;
      forall j | 0 <= j < |r| ensures r[j] == arcGC(UsableArcs(bal)[j]) + onCode {
        if j >= |r0| {
          assert r[j] == h[j - |r0|];
          assert UsableArcs(bal)[j] == u[j - |a0|];
        }
      }
    }
  }

  /** The laser-on code is appended to every command of curve 0 and to no
      command of any other curve: the commands differ from those of a
      later curve only by that suffix. */
  lemma {:induction false} OnCodeOnlyFirst(c: Curve, lOn: string, ox: Double, oy: Double, scale: real, idx: int,
                        approx: Curve -> Approximation)
    requires scale != 0.0
    ensures var r := SegmentCommands(c, lOn, ox, oy, scale, idx, approx);
      var plain := SegmentCommands(c, lOn, ox, oy, scale, 1, approx);
      && |r| == |plain|
      && forall j :: 0 <= j < |r| ==> r[j] == plain[j] + OnCode(lOn, idx)
  {
    if !LinearLengthIsNaN(c) && c.Kind == Bezier && approx(c).Fitted? {
      ArcCommandsSpec(approx(c).Arcs, OnCode(lOn, idx), ArcGC(ox, oy, scale));
      ArcCommandsSpec(approx(c).Arcs, "", ArcGC(ox, oy, scale));
      var r := SegmentCommands(c, lOn, ox, oy, scale, idx, approx);
      var plain := SegmentCommands(c, lOn, ox, oy, scale, 1, approx);
      forall j | 0 <= j < |r| ensures r[j] == plain[j] + OnCode(lOn, idx) {
        var a := UsableArcs(approx(c).Arcs)[j];
        assert plain[j] == GetArcGC(a, ox, oy, scale) + "";
        assert GetArcGC(a, ox, oy, scale) + "" == GetArcGC(a, ox, oy, scale);
      }
    }
  }

  /** How many commands a curve adds: none for a NaN length, one for a
      line or a failed fit, and one per usable biarc half otherwise. */
  lemma {:induction false} SegmentCount(c: Curve, lOn: string, ox: Double, oy: Double, scale: real, idx: int,
                     approx: Curve -> Approximation)
    requires scale != 0.0
    ensures |SegmentCommands(c, lOn, ox, oy, scale, idx, approx)| ==
      if LinearLengthIsNaN(c) then 0
      else if c.Kind == Bezier && approx(c).Fitted? then |UsableArcs(approx(c).Arcs)|
      else 1
  {
    if !LinearLengthIsNaN(c) && c.Kind == Bezier && approx(c).Fitted? {
      ArcCommandsSpec(approx(c).Arcs, OnCode(lOn, idx), ArcGC(ox, oy, scale));
    }
  }

  /** The laser-on code after a command is one more word. */
  lemma {:induction false} JoinOnCode(ws: seq<string>, lOn: string)
    requires |ws| > 0
    ensures Join(ws) + OnCode(lOn, 0) == Join(ws + [lOn])
  {
    var j := Join(ws);
    assert Join(ws + [lOn]) == j + " " + lOn by {
      JoinAppend(ws, [lOn]);
      assert Join([lOn]) == lOn;
    }
    assert j + (" " + lOn) == j + " " + lOn;
  }

  /** A command followed by `onCode` reads back as its own words, then
      the laser-on code on the first curve. */
  lemma {:induction false} WithOnCode(ws: seq<string>, lOn: string, idx: int)
    requires |ws| > 0 && AllWords(ws) && Lacks(lOn, ' ')
    ensures Words(Join(ws) + OnCode(lOn, idx)) == ws + (if idx == 0 then [lOn] else [])
  {
    if idx == 0 {
      JoinOnCode(ws, lOn);
      AllWordsAppend(ws, [lOn]);
      WordsOfJoin(ws + [lOn]);
    } else {
      assert Join(ws) + OnCode(lOn, idx) == Join(ws);
      WordsOfJoin(ws);
    }
  }

  /** A line, or a Bezier the fit gave up on, is cut as one straight move
      that reads back as G1 to the curve's shifted end point, followed by
      the laser-on code on the first curve. */
  lemma {:induction false} StraightCutReads(c: Curve, lOn: string, ox: Double, oy: Double, scale: real, idx: int,
                         approx: Curve -> Approximation)
    requires scale != 0.0 && Lacks(lOn, ' ')
    requires !LinearLengthIsNaN(c) && (c.Kind == Line || !approx(c).Fitted?)
    ensures var r := SegmentCommands(c, lOn, ox, oy, scale, idx, approx);
      && |r| == 1
      && var w := Words(r[0]);
      && |w| == (if idx == 0 then 4 else 3)
      && w[0] == "G1"
      && Coordinate(w[1], 'X') == Some(Printed(Add(c.B.X, ox), scale))
      && Coordinate(w[2], 'Y') == Some(Printed(Add(c.B.Y, oy), scale))
      && (idx == 0 ==> w[3] == lOn)
  {
    var ws := MoveWords("G1", c.B, ox, oy, scale);
    MoveReads("G1", c.B, ox, oy, scale);
    WithOnCode(ws, lOn, idx);
  }

  /** Every command a curve adds is a cutting move: its first word is G1, G2 or G3. */
  lemma {:induction false} SegmentMotions(c: Curve, lOn: string, ox: Double, oy: Double, scale: real, idx: int,
                       approx: Curve -> Approximation)
    requires scale != 0.0
    ensures forall cmd :: cmd in SegmentCommands(c, lOn, ox, oy, scale, idx, approx) ==>
      Words(cmd)[0] in {"G1", "G2", "G3"}
  {
    var r := SegmentCommands(c, lOn, ox, oy, scale, idx, approx);
    OnCodeOnlyFirst(c, lOn, ox, oy, scale, idx, approx);
    forall cmd | cmd in r ensures Words(cmd)[0] in {"G1", "G2", "G3"} {
      var j :| 0 <= j < |r| && r[j] == cmd;
      var ws := MotionOf(c, lOn, ox, oy, scale, approx, j);
      if idx == 0 {
        JoinOnCode(ws, lOn);
        WordsHead(ws + [lOn]);
      } else {
        assert cmd == Join(ws) + "";
        WordsHead(ws);
      }
    }
  }

  /** The words of the `j`-th command of a later curve, which start with a motion code. */
  lemma {:induction false} MotionOf(c: Curve, lOn: string, ox: Double, oy: Double, scale: real,
                 approx: Curve -> Approximation, j: int) returns (ws: seq<string>)
    requires scale != 0.0
    requires 0 <= j < |SegmentCommands(c, lOn, ox, oy, scale, 1, approx)|
    ensures |ws| > 0 && ws[0] in {"G1", "G2", "G3"}
    ensures SegmentCommands(c, lOn, ox, oy, scale, 1, approx)[j] == Join(ws)
  {
    var plain := SegmentCommands(c, lOn, ox, oy, scale, 1, approx);
    if c.Kind == Bezier && approx(c).Fitted? {
      ArcCommandsSpec(approx(c).Arcs, "", ArcGC(ox, oy, scale));
      var a := UsableArcs(approx(c).Arcs)[j];
      ws := ArcWords(a, ox, oy, scale);
      assert plain[j] == GetArcGC(a, ox, oy, scale) + "";
    } else {
      ws := MoveWords("G1", c.B, ox, oy, scale);
      assert plain[j] == LineTo(c, "", ox, oy, scale);
    }
  }

  // ---------------------------------------------------------------------
  // One path

  /** The command `OnPathBegin` adds for a non-empty path: a rapid move
      (`skipcmd`) to the start of the first curve, then the laser-off code.
      An empty path gets nothing. */
  function PathBegin(curves: seq<Curve>, lOff: string, ox: Double, oy: Double, scale: real,
                     skipcmd: string): seq<string>
    requires scale != 0.0
  {
    if |curves| > 0 then [Join(MoveWords(skipcmd, curves[0].A, ox, oy, scale) + [lOff])] else []
  }

  /** The commands the loop of `GetPathGC` adds for the first `n` curves. */
  function Segments(curves: seq<Curve>, n: nat, lOn: string, ox: Double, oy: Double, scale: real,
                    approx: Curve -> Approximation): seq<string>
    requires scale != 0.0 && n <= |curves|
  {
    if n == 0 then []
    else
      Segments(curves, n - 1, lOn, ox, oy, scale, approx)
        + SegmentCommands(curves[n - 1], lOn, ox, oy, scale, n - 1, approx)
  }

  /** What `GetPathGC` returns: the start move, then the commands of every
      curve in order; `OnPathEnd` adds nothing. */
  function PathCommands(curves: seq<Curve>, lOn: string, lOff: string, ox: Double, oy: Double, scale: real,
                        skipcmd: string, approx: Curve -> Approximation): seq<string>
    requires scale != 0.0
  {
    PathBegin(curves, lOff, ox, oy, scale, skipcmd) + Segments(curves, |curves|, lOn, ox, oy, scale, approx)
  }

  /** How many commands a curve adds, counted independently of the text. */
  function CurveCount(c: Curve, approx: Curve -> Approximation): nat
  {
    if LinearLengthIsNaN(c) then 0
    else if c.Kind == Bezier && approx(c).Fitted? then |UsableArcs(approx(c).Arcs)|
    else 1
  }

  function CountUpTo(curves: seq<Curve>, n: nat, approx: Curve -> Approximation): nat
    requires n <= |curves|
  {
    if n == 0 then 0 else CountUpTo(curves, n - 1, approx) + CurveCount(curves[n - 1], approx)
  }

  /** The curves add one command per count. */
  lemma {:induction false} SegmentsCount(curves: seq<Curve>, n: nat, lOn: string, ox: Double, oy: Double,
                                         scale: real, approx: Curve -> Approximation)
    requires scale != 0.0 && n <= |curves|
    ensures |Segments(curves, n, lOn, ox, oy, scale, approx)| == CountUpTo(curves, n, approx)
  {
    if n > 0 {
      SegmentsCount(curves, n - 1, lOn, ox, oy, scale, approx);
      SegmentCount(curves[n - 1], lOn, ox, oy, scale, n - 1, approx);
    }
  }

  lemma {:induction false} MotionsAppend(r0: seq<string>, s: seq<string>, r: seq<string>)
    requires r == r0 + s
    requires forall cmd :: cmd in r0 ==> Words(cmd)[0] in {"G1", "G2", "G3"}
    requires forall cmd :: cmd in s ==> Words(cmd)[0] in {"G1", "G2", "G3"}
    ensures forall cmd :: cmd in r ==> Words(cmd)[0] in {"G1", "G2", "G3"}
  {
  }

  /** Every command the curves add is a cutting move. */
  lemma {:induction false} SegmentsMotions(curves: seq<Curve>, n: nat, lOn: string, ox: Double, oy: Double,
                                           scale: real, approx: Curve -> Approximation)
    requires scale != 0.0 && n <= |curves|
    ensures forall cmd :: cmd in Segments(curves, n, lOn, ox, oy, scale, approx) ==>
      Words(cmd)[0] in {"G1", "G2", "G3"}
  {
    if n > 0 {
      SegmentsMotions(curves, n - 1, lOn, ox, oy, scale, approx);
      SegmentMotions(curves[n - 1], lOn, ox, oy, scale, n - 1, approx);
      MotionsAppend(Segments(curves, n - 1, lOn, ox, oy, scale, approx),
                    SegmentCommands(curves[n - 1], lOn, ox, oy, scale, n - 1, approx),
                    Segments(curves, n, lOn, ox, oy, scale, approx));
    }
  }

  lemma {:induction false} IndexAfter(before: seq<string>, middle: seq<string>, after: seq<string>)
    requires |middle| > 0
    ensures |before| < |before + middle + after|
    ensures (before + middle + after)[|before|] == middle[0]
  {
  }

  /** A non-empty path's first command is its start command. */
  lemma {:induction false} PathFirst(curves: seq<Curve>, lOn: string, lOff: string, ox: Double, oy: Double,
                                     scale: real, skipcmd: string, approx: Curve -> Approximation)
    requires scale != 0.0 && |curves| > 0
    ensures |PathCommands(curves, lOn, lOff, ox, oy, scale, skipcmd, approx)| > 0
    ensures PathCommands(curves, lOn, lOff, ox, oy, scale, skipcmd, approx)[0]
      == PathBegin(curves, lOff, ox, oy, scale, skipcmd)[0]
  {
    IndexAfter([], PathBegin(curves, lOff, ox, oy, scale, skipcmd), Segments(curves, |curves|, lOn, ox, oy, scale, approx));
  }

  /** A start command: read back, the words are `skipcmd`, an X word with
      value `x`, a Y word with value `y` and the laser-off code. */
  predicate StartReads(cmd: string, skipcmd: string, lOff: string, x: real, y: real)
  {
    var w := Words(cmd);
    && |w| == 4 && w[0] == skipcmd && w[3] == lOff
    && Coordinate(w[1], 'X') == Some(x) && Coordinate(w[2], 'Y') == Some(y)
  }

  /** The start command of a non-empty path reads back as `skipcmd` at the
      shifted start of the first curve, then the laser-off code. */
  lemma {:induction false} PathBeginReads(curves: seq<Curve>, lOff: string, ox: Double, oy: Double,
                                          scale: real, skipcmd: string)
    requires scale != 0.0 && Lacks(skipcmd, ' ') && Lacks(lOff, ' ') && |curves| > 0
    ensures StartReads(PathBegin(curves, lOff, ox, oy, scale, skipcmd)[0], skipcmd, lOff,
                       Printed(Add(curves[0].A.X, ox), scale), Printed(Add(curves[0].A.Y, oy), scale))
  {
    var m := MoveWords(skipcmd, curves[0].A, ox, oy, scale);
    MoveReads(skipcmd, curves[0].A, ox, oy, scale);
    AllWordsAppend(m, [lOff]);
    WordsOfJoin(m + [lOff]);
  }

  lemma {:induction false} PathRest(begin: seq<string>, segs: seq<string>, r: seq<string>, skipcmd: string)
    requires |begin| == 1 && r == begin + segs
    requires forall cmd :: cmd in segs ==> Words(cmd)[0] in {"G1", "G2", "G3"}
    ensures forall k :: 1 <= k < |r| ==> Words(r[k])[0] in {"G1", "G2", "G3"}
    ensures skipcmd !in {"G1", "G2", "G3"} && Words(r[0])[0] == skipcmd ==>
      forall k :: 0 <= k < |r| && Words(r[k])[0] == skipcmd ==> k == 0
  {
    forall k | 1 <= k < |r| ensures Words(r[k])[0] in {"G1", "G2", "G3"} {
      assert r[k] == segs[k - 1] && segs[k - 1] in segs;
    }
  }

  /** A path's commands: none for an empty path; otherwise the rapid move
      to the start of its first curve, reading back as `skipcmd` at the
      shifted start point and the laser-off code, followed only by cutting
      moves, as many as the curves count. When `skipcmd` is not itself a
      cutting code, the rapid move is the only one in the path. */
  lemma {:induction false} PathShape(curves: seq<Curve>, lOn: string, lOff: string, ox: Double, oy: Double,
                                     scale: real, skipcmd: string, approx: Curve -> Approximation)
    requires scale != 0.0 && Lacks(skipcmd, ' ') && Lacks(lOff, ' ')
    ensures var r := PathCommands(curves, lOn, lOff, ox, oy, scale, skipcmd, approx);
      && (|curves| == 0 ==> r == [])
      && (|curves| > 0 ==>
          && |r| == 1 + CountUpTo(curves, |curves|, approx)
          && StartReads(r[0], skipcmd, lOff,
                        Printed(Add(curves[0].A.X, ox), scale), Printed(Add(curves[0].A.Y, oy), scale))
          && (forall k :: 1 <= k < |r| ==> Words(r[k])[0] in {"G1", "G2", "G3"})
          && (skipcmd !in {"G1", "G2", "G3"} ==>
                forall k :: 0 <= k < |r| && Words(r[k])[0] == skipcmd ==> k == 0))
  {
    var begin := PathBegin(curves, lOff, ox, oy, scale, skipcmd);
    var segs := Segments(curves, |curves|, lOn, ox, oy, scale, approx);
    var r := PathCommands(curves, lOn, lOff, ox, oy, scale, skipcmd, approx);
    assert r == begin + segs;
    SegmentsCount(curves, |curves|, lOn, ox, oy, scale, approx);
    if |curves| > 0 {
      PathBeginReads(curves, lOff, ox, oy, scale, skipcmd);
      PathFirst(curves, lOn, lOff, ox, oy, scale, skipcmd, approx);
      SegmentsMotions(curves, |curves|, lOn, ox, oy, scale, approx);
      PathRest(begin, segs, r, skipcmd);
    }
  }

  // ---------------------------------------------------------------------
  // The whole drawing

  /** `Export2GCode`: the commands of every path, in list order, written
      with the offset multiplied by the scale. */
  function Export2GCode(list: seq<seq<Curve>>, lOn: string, lOff: string, oX: real, oY: real, scale: real,
                        skipcmd: string, approx: Curve -> Approximation): seq<string>
    requires scale != 0.0
  {
    if list == [] then []
    else
      PathCommands(list[0], lOn, lOff, Num(oX * scale), Num(oY * scale), scale, skipcmd, approx)
        + Export2GCode(list[1..], lOn, lOff, oX, oY, scale, skipcmd, approx)
  }

  /** Exporting two lists of paths one after the other gives the same commands as exporting both. */
  lemma {:induction false} ExportAppend(a: seq<seq<Curve>>, b: seq<seq<Curve>>, lOn: string, lOff: string,
                                        oX: real, oY: real, scale: real, skipcmd: string,
                                        approx: Curve -> Approximation)
    requires scale != 0.0
    ensures Export2GCode(a + b, lOn, lOff, oX, oY, scale, skipcmd, approx)
      == Export2GCode(a, lOn, lOff, oX, oY, scale, skipcmd, approx)
        + Export2GCode(b, lOn, lOff, oX, oY, scale, skipcmd, approx)
  {
    if a == [] {
      assert a + b == b;
    } else {
      assert (a + b)[0] == a[0] && (a + b)[1..] == a[1..] + b;
      ExportAppend(a[1..], b, lOn, lOff, oX, oY, scale, skipcmd, approx);
    }
  }

  /** The commands of path `k` sit between those of the paths before it
      and those after it, written with the premultiplied offset. */
  lemma {:induction false} ExportSplit(list: seq<seq<Curve>>, k: nat, lOn: string, lOff: string,
                                       oX: real, oY: real, scale: real, skipcmd: string,
                                       approx: Curve -> Approximation)
    requires scale != 0.0 && k < |list|
    ensures Export2GCode(list, lOn, lOff, oX, oY, scale, skipcmd, approx)
      == Export2GCode(list[..k], lOn, lOff, oX, oY, scale, skipcmd, approx)
        + PathCommands(list[k], lOn, lOff, Num(oX * scale), Num(oY * scale), scale, skipcmd, approx)
        + Export2GCode(list[k + 1..], lOn, lOff, oX, oY, scale, skipcmd, approx)
  {
    assert list == list[..k] + list[k..];
    ExportAppend(list[..k], list[k..], lOn, lOff, oX, oY, scale, skipcmd, approx);
    assert list[k..][0] == list[k] && list[k..][1..] == list[k + 1..];
  }

  /** Because the offset is multiplied by the scale before the sum is
      divided by it, a printed coordinate is the point in output units plus
      the offset itself. */
  lemma {:induction false} OffsetPremultiplied(d: Double, o: real, scale: real)
    requires scale != 0.0 && d.Num?
    ensures Printed(Add(d, Num(o * scale)), scale) == Thousandths(d.v / scale + o)
  {
    assert (d.v + o * scale) / scale == d.v / scale + o;
  }

  lemma {:induction false} StartReadsAt(r: seq<string>, at: int, cmd: string, skipcmd: string, lOff: string,
                                        x: real, y: real)
    requires 0 <= at < |r| && r[at] == cmd && StartReads(cmd, skipcmd, lOff, x, y)
    ensures StartReads(r[at], skipcmd, lOff, x, y)
  {
  }

  /** Right after the commands of the paths before it, the drawing holds
      the start command of a non-empty path `k`. */
  lemma {:induction false} ExportAt(list: seq<seq<Curve>>, k: nat, lOn: string, lOff: string,
                                    oX: real, oY: real, scale: real, skipcmd: string,
                                    approx: Curve -> Approximation)
    requires scale != 0.0 && k < |list| && |list[k]| > 0
    ensures var r := Export2GCode(list, lOn, lOff, oX, oY, scale, skipcmd, approx);
      var at := |Export2GCode(list[..k], lOn, lOff, oX, oY, scale, skipcmd, approx)|;
      && at < |r|
      && r[at] == PathBegin(list[k], lOff, Num(oX * scale), Num(oY * scale), scale, skipcmd)[0]
  {
    var ox, oy := Num(oX * scale), Num(oY * scale);
    ExportSplit(list, k, lOn, lOff, oX, oY, scale, skipcmd, approx);
    PathFirst(list[k], lOn, lOff, ox, oy, scale, skipcmd, approx);
    IndexAfter(Export2GCode(list[..k], lOn, lOff, oX, oY, scale, skipcmd, approx),
               PathCommands(list[k], lOn, lOff, ox, oy, scale, skipcmd, approx),
               Export2GCode(list[k + 1..], lOn, lOff, oX, oY, scale, skipcmd, approx));
  }

  /** Path `k` of the drawing starts where the commands of the paths before
      it end, with its rapid move to its first curve's start shifted by the
      premultiplied offset (`OffsetPremultiplied` reads such a coordinate
      back in output units), then the laser-off code. */
  lemma {:induction false} ExportPathStart(list: seq<seq<Curve>>, k: nat, lOn: string, lOff: string,
                                           oX: real, oY: real, scale: real, skipcmd: string,
                                           approx: Curve -> Approximation)
    requires scale != 0.0 && Lacks(skipcmd, ' ') && Lacks(lOff, ' ') && k < |list| && |list[k]| > 0
    ensures var r := Export2GCode(list, lOn, lOff, oX, oY, scale, skipcmd, approx);
      var at := |Export2GCode(list[..k], lOn, lOff, oX, oY, scale, skipcmd, approx)|;
      && at < |r|
      && StartReads(r[at], skipcmd, lOff, Printed(Add(list[k][0].A.X, Num(oX * scale)), scale),
                    Printed(Add(list[k][0].A.Y, Num(oY * scale)), scale))
  {
    ExportAt(list, k, lOn, lOff, oX, oY, scale, skipcmd, approx);
    PathBeginReads(list[k], lOff, Num(oX * scale), Num(oY * scale), scale, skipcmd);
    StartReadsAt(Export2GCode(list, lOn, lOff, oX, oY, scale, skipcmd, approx),
                 |Export2GCode(list[..k], lOn, lOff, oX, oY, scale, skipcmd, approx)|,
                 PathBegin(list[k], lOff, Num(oX * scale), Num(oY * scale), scale, skipcmd)[0], skipcmd, lOff,
                 Printed(Add(list[k][0].A.X, Num(oX * scale)), scale), Printed(Add(list[k][0].A.Y, Num(oY * scale)), scale));
  }

  // ---------------------------------------------------------------------
  // The writer

  /** The command list `rv` the writer appends to. */
  class CommandList {
    var Lines: seq<string>

    constructor ()
      ensures Lines == []
    {
      Lines := [];
    }

    /** `rv.Add(line)`. */
    method Add(line: string)
      modifies this
      ensures Lines == old(Lines) + [line]
    {
      Lines := Lines + [line];
    }
  }

  /** `OnPathBegin`: adds the rapid move to a non-empty path's start. */
  method OnPathBegin(curves: seq<Curve>, lOff: string, ox: Double, oy: Double, scale: real,
                     rv: CommandList, skipcmd: string)
    requires scale != 0.0
    modifies rv
    ensures rv.Lines == old(rv.Lines) + PathBegin(curves, lOff, ox, oy, scale, skipcmd)
  {
    if |curves| > 0 {
      rv.Add(Join(MoveWords(skipcmd, curves[0].A, ox, oy, scale) + [lOff]));
    }
  }

  /** `OnPathEnd`: the laser-off line is commented out, so nothing is added. */
  method OnPathEnd(curves: seq<Curve>, lOff: string, ox: Double, oy: Double, scale: real, rv: CommandList)
    ensures rv.Lines == old(rv.Lines)
  {
  }

  lemma {:induction false} ArcCommandsNext(bal: seq<BiArc>, i: nat, onCode: string, arcGC: Arc -> string)
    requires i < |bal|
    ensures ArcCommands(bal[..i + 1], onCode, arcGC)
      == ArcCommands(bal[..i], onCode, arcGC) + Half(bal[i].A1, onCode, arcGC) + Half(bal[i].A2, onCode, arcGC)
  {
    assert bal[..i + 1][..i] == bal[..i];
  }

  lemma {:induction false} ArcsNext(bal: seq<BiArc>, i: nat, onCode: string, arcGC: Arc -> string,
                                    start: seq<string>, before: seq<string>, mid: seq<string>, after: seq<string>)
    requires i < |bal|
    requires before == start + ArcCommands(bal[..i], onCode, arcGC)
    requires mid == before + Half(bal[i].A1, onCode, arcGC)
    requires after == mid + Half(bal[i].A2, onCode, arcGC)
    ensures after == start + ArcCommands(bal[..i + 1], onCode, arcGC)
  {
    ArcCommandsNext(bal, i, onCode, arcGC);
  }

  /** One `if` of the `foreach` body: adds a half's command when it is usable. */
  method AddHalf(a: Arc, onCode: string, ox: Double, oy: Double, scale: real, rv: CommandList)
    requires scale != 0.0
    modifies rv
    ensures rv.Lines == old(rv.Lines) + Half(a, onCode, ArcGC(ox, oy, scale))
  {
    if Usable(a) {
      rv.Add(GetArcGC(a, ox, oy, scale) + onCode);
    }
  }

  /** The `foreach` over the biarcs: adds each usable half's command. */
  method AddArcs(bal: seq<BiArc>, onCode: string, ox: Double, oy: Double, scale: real, rv: CommandList)
    requires scale != 0.0
    modifies rv
    ensures rv.Lines == old(rv.Lines) + ArcCommands(bal, onCode, ArcGC(ox, oy, scale))
  {
    ghost var arcGC := ArcGC(ox, oy, scale);
    for i := 0 to |bal|
      invariant rv.Lines == old(rv.Lines) + ArcCommands(bal[..i], onCode, arcGC)
    {
      var ba := bal[i];
      ghost var before := rv.Lines;
      AddHalf(ba.A1, onCode, ox, oy, scale, rv);
      ghost var mid := rv.Lines;
      AddHalf(ba.A2, onCode, ox, oy, scale, rv);
      ArcsNext(bal, i, onCode, arcGC, old(rv.Lines), before, mid, rv.Lines);
    }
    assert bal[..|bal|] == bal;
  }

  /** `OnPathSegment`: adds the commands of the curve at index `idx`. */
  method OnPathSegment(c: Curve, lOn: string, ox: Double, oy: Double, scale: real, rv: CommandList, idx: int,
                       approx: Curve -> Approximation)
    requires scale != 0.0
    modifies rv
    ensures rv.Lines == old(rv.Lines) + SegmentCommands(c, lOn, ox, oy, scale, idx, approx)
  {
    var onCode := OnCode(lOn, idx);
    if LinearLengthIsNaN(c) {
      return;
    }
    if c.Kind == Line {
      rv.Add(LineTo(c, onCode, ox, oy, scale));
    }
    if c.Kind == Bezier {
      var fit := approx(c);
      if fit.Fitted? {
        AddArcs(fit.Arcs, onCode, ox, oy, scale, rv);
      } else {
        rv.Add(LineTo(c, onCode, ox, oy, scale));
      }
    }
  }

  lemma {:induction false} SegmentsNext(curves: seq<Curve>, i: nat, lOn: string, ox: Double, oy: Double,
                                        scale: real, approx: Curve -> Approximation,
                                        start: seq<string>, before: seq<string>, after: seq<string>)
    requires scale != 0.0 && i < |curves|
    requires before == start + Segments(curves, i, lOn, ox, oy, scale, approx)
    requires after == before + SegmentCommands(curves[i], lOn, ox, oy, scale, i, approx)
    ensures after == start + Segments(curves, i + 1, lOn, ox, oy, scale, approx)
  {
  }

  /** The `for` loop of `GetPathGC`: adds the commands of every curve in turn. */
  method AddSegments(curves: seq<Curve>, lOn: string, ox: Double, oy: Double, scale: real, rv: CommandList,
                     approx: Curve -> Approximation)
    requires scale != 0.0
    modifies rv
    ensures rv.Lines == old(rv.Lines) + Segments(curves, |curves|, lOn, ox, oy, scale, approx)
  {
    for index := 0 to |curves|
      invariant rv.Lines == old(rv.Lines) + Segments(curves, index, lOn, ox, oy, scale, approx)
    {
      ghost var before := rv.Lines;
      OnPathSegment(curves[index], lOn, ox, oy, scale, rv, index, approx);
      SegmentsNext(curves, index, lOn, ox, oy, scale, approx, old(rv.Lines), before, rv.Lines);
    }
  }

  lemma {:induction false} PathAssembled(curves: seq<Curve>, lOn: string, lOff: string, ox: Double, oy: Double,
                                         scale: real, skipcmd: string, approx: Curve -> Approximation,
                                         begin: seq<string>, lines: seq<string>)
    requires scale != 0.0
    requires begin == PathBegin(curves, lOff, ox, oy, scale, skipcmd)
    requires lines == begin + Segments(curves, |curves|, lOn, ox, oy, scale, approx)
    ensures lines == PathCommands(curves, lOn, lOff, ox, oy, scale, skipcmd, approx)
  {
  }

  /** `GetPathGC`: the commands of one path in a new list. */
  method GetPathGC(curves: seq<Curve>, lOn: string, lOff: string, ox: Double, oy: Double, scale: real,
                   skipcmd: string, approx: Curve -> Approximation) returns (rv: CommandList)
    requires scale != 0.0
    ensures fresh(rv)
    ensures rv.Lines == PathCommands(curves, lOn, lOff, ox, oy, scale, skipcmd, approx)
  {
    rv := new CommandList();
    OnPathBegin(curves, lOff, ox, oy, scale, rv, skipcmd);
    ghost var begin := rv.Lines;
    AddSegments(curves, lOn, ox, oy, scale, rv, approx);
    OnPathEnd(curves, lOff, ox, oy, scale, rv);
    PathAssembled(curves, lOn, lOff, ox, oy, scale, skipcmd, approx, begin, rv.Lines);
  }
}

/**
 * Line-to-line raster engraving, second and third stages: the G-code each
 * colour segment writes (`ToGCodeNumber` and its helpers in GrblFile.cs),
 * the loop that writes one instruction per segment (`ImageLine2Line`), and
 * the pass that folds laser-off travel into single skip moves
 * (`OptimizeLine2Line`).
 */
module LineEmitter {
  import opened Wrappers
  import opened Numbers
  import opened Format
  import opened Raster

  // ---------------------------------------------------------------------
  // Cursor arithmetic

  /** The `ref cumX, ref cumY` cursor of the emitter, in pixels. */
  datatype Cursor = Cursor(X: int, Y: int)

  /** How far a segment moves the cursor: its signed length along X for an
      `XSegment` or `HSeparator`, along Y for a `YSegment` or `VSeparator`,
      and forward in X and backward in Y at once for a `DSegment`. */
  function Displacement(s: ColorSegment): Cursor
  {
    match s.Kind
    case XSegment => Cursor(s.PixLen, 0)
    case YSegment => Cursor(0, s.PixLen)
    case DSegment => Cursor(s.PixLen, -s.PixLen)
    case VSeparator => Cursor(0, s.PixLen)
    case HSeparator => Cursor(s.PixLen, 0)
  }

  function Moved(cur: Cursor, s: ColorSegment): Cursor
  {
    Cursor(cur.X + Displacement(s).X, cur.Y + Displacement(s).Y)
  }

  /** A separator whose length is negative makes `ToGCodeNumber` throw. */
  predicate Throws(s: ColorSegment)
  {
    IsSeparator(s) && s.PixLen < 0
  }

  predicate NoThrow(segs: seq<ColorSegment>)
  {
    forall i :: 0 <= i < |segs| ==> !Throws(segs[i])
  }

  /** The cursor after a list of segments, starting from (0, 0). */
  function Travel(segs: seq<ColorSegment>): Cursor
  {
    if segs == [] then Cursor(0, 0) else Moved(Travel(segs[..|segs| - 1]), segs[|segs| - 1])
  }

  /** Segment effects as the source promises them: a run moves only its own
      axis, a diagonal run moves X forward by what it moves Y back, and a
      separator that does not throw steps exactly one pixel. */
  lemma SegmentEffects(s: ColorSegment)
    ensures s.Kind == XSegment ==> Displacement(s) == Cursor(s.PixLen, 0)
    ensures s.Kind == YSegment ==> Displacement(s) == Cursor(0, s.PixLen)
    ensures s.Kind == DSegment ==> Displacement(s).X == -Displacement(s).Y == s.PixLen
    ensures s == VSep ==> Displacement(s) == Cursor(0, 1)
    ensures s == HSep ==> Displacement(s) == Cursor(1, 0)
    ensures Throws(s) <==> IsSeparator(s) && s.PixLen < 0
  {
  }

  /** A segment built reversed travels backwards by its length. */
  lemma ReversedTravel(kind: SegmentKind, col: int, len: int)
    requires kind == XSegment || kind == YSegment || kind == DSegment
    ensures var fwd := Displacement(NewSegment(kind, col, len, false));
      Displacement(NewSegment(kind, col, len, true)) == Cursor(-fwd.X, -fwd.Y)
  {
  }

  lemma {:induction false} TravelAppend(a: seq<ColorSegment>, b: seq<ColorSegment>)
    ensures Travel(a + b) == Cursor(Travel(a).X + Travel(b).X, Travel(a).Y + Travel(b).Y)
  {
    if b == [] {
      assert a + b == a;
    } else {
      var b' := b[..|b| - 1];
      assert (a + b)[..|a + b| - 1] == a + b';
      assert (a + b)[|a + b| - 1] == b[|b| - 1];
      TravelAppend(a, b');
    }
  }

  /** Runs along one axis travel their signed length along that axis only. */
  lemma {:induction false} TravelAlong(segs: seq<ColorSegment>, kind: SegmentKind)
    requires kind == XSegment || kind == YSegment
    requires forall s :: s in segs ==> s.Kind == kind
    ensures Travel(segs) == if kind == XSegment then Cursor(SignedLength(segs), 0) else Cursor(0, SignedLength(segs))
  {
    if segs != [] {
      var pre := segs[..|segs| - 1];
      assert forall s :: s in pre ==> s in segs;
      assert segs[|segs| - 1] in segs;
      TravelAlong(pre, kind);
    }
  }

  /** `a` along the scan axis and `b` across it. */
  function Oriented(h: bool, a: int, b: int): Cursor
  {
    if h then Cursor(a, b) else Cursor(b, a)
  }

  /** The net travel of a line along its axis: the line length forward on
      even lines, backward on odd ones, nothing in unidirectional mode. */
  function LineAlong(uni: bool, i: int, n: int): int
  {
    if uni then 0 else if IsEven(i) then n else -n
  }

  /** The runs of a line, the go-back run and the separator, as plain
      sequences: the runs travel the line, the go-back run returns, and
      the separator steps one pixel across. */
  lemma PartsCursor(close: seq<ColorSegment>, kind: SegmentKind, reverse: bool, n: nat, uni: bool, sep: seq<ColorSegment>)
    requires kind == XSegment || kind == YSegment
    requires uni ==> !reverse
    requires TotalLength(close) == n && forall s :: s in close ==> RunShaped(s, kind, reverse)
    requires sep == [] || sep == [if kind == XSegment then VSep else HSep]
    ensures var goBack := if uni then [NewSegment(kind, 0, n, true)] else [];
      Travel(close + goBack + sep)
      == Oriented(kind == XSegment, if uni then 0 else if reverse then -(n as int) else n, |sep|)
  {
    var goBack := if uni then [NewSegment(kind, 0, n, true)] else [];
    var along := if uni then 0 else if reverse then -(n as int) else n;
    assert SignedLength(close) == if reverse then -(n as int) else n by {
      ShapedTravel(close, kind, reverse);
    }
    assert SignedLength(goBack) == if uni then -(n as int) else 0 by {
      if uni {
        assert goBack[..0] == [];
      }
    }
    assert SignedLength(close + goBack) == along by {
      SignedLengthAppend(close, goBack);
    }
    assert Travel(close + goBack) == Oriented(kind == XSegment, along, 0) by {
      assert forall s :: s in close + goBack ==> s.Kind == kind;
      TravelAlong(close + goBack, kind);
    }
    assert Travel(sep) == Oriented(kind == XSegment, 0, |sep|) by {
      if sep != [] {
        assert sep[..0] == [];
      }
    }
    TravelAppend(close + goBack, sep);
  }

  /** The net cursor travel of one line of a horizontal or vertical scan:
      `LineAlong` along it, and one pixel across when a separator follows. */
  lemma LineBlockCursor(img: Bitmap, c: L2LConf, uni: bool, h: bool, i: int)
    requires ValidBitmap(img) && 0 <= i < LineCount(img, h) && LineLength(img, h) > 0
    requires c.dir == (if h then Horizontal else Vertical)
    ensures Travel(LineBlock(img, c, uni, h, i))
      == Oriented(h, LineAlong(uni, i, LineLength(img, h)), if i < LineCount(img, h) - 1 then 1 else 0)
  {
    var d := uni || IsEven(i);
    var kind := if h then XSegment else YSegment;
    var n := LineLength(img, h);
    var close := CloseRun(kind, LineColors(img, c, h, i, d), c.dir, !d);
    var goBack: seq<ColorSegment> := if uni then [NewSegment(kind, 0, n, true)] else [];
    var sep: seq<ColorSegment> := if i < LineCount(img, h) - 1 then [if h then VSep else HSep] else [];
    assert LineBlock(img, c, uni, h, i) == close + goBack + sep;
    LineTiling(img, c, uni, h, i);
    PartsCursor(close, kind, !d, n, uni, sep);
  }

  /** Joining line blocks adds up their travel. */
  /** Where the head is along the lines after `count` lines. */
  function ScanAlong(uni: bool, count: int, n: int): int
  {
    if !uni && !IsEven(count) then n else 0
  }

  /** How many lines the head has stepped across after `count` of `lines`. */
  function ScanAcross(count: int, lines: int): int
  {
    if 0 < count == lines then count - 1 else count
  }

  lemma ScanStep(uni: bool, m: int, n: int, lines: int)
    requires 1 <= m <= lines
    ensures ScanAlong(uni, m - 1, n) + LineAlong(uni, m - 1, n) == ScanAlong(uni, m, n)
    ensures ScanAcross(m - 1, lines) + (if m - 1 < lines - 1 then 1 else 0) == ScanAcross(m, lines)
  {
    assert IsEven(m) <==> !IsEven(m - 1);
  }

  /** Joining line blocks adds up their travel. */
  lemma {:induction false} ConcatCursor(blocks: seq<seq<ColorSegment>>, h: bool, uni: bool, n: int, lines: int)
    requires |blocks| <= lines
    requires forall i :: 0 <= i < |blocks| ==>
      Travel(blocks[i]) == Oriented(h, LineAlong(uni, i, n), if i < lines - 1 then 1 else 0)
    ensures Travel(Concat(blocks)) == Oriented(h, ScanAlong(uni, |blocks|, n), ScanAcross(|blocks|, lines))
  {
    if blocks != [] {
      var m := |blocks|;
      var pre := blocks[..m - 1];
      var last := blocks[m - 1];
      assert Travel(Concat(pre)) == Oriented(h, ScanAlong(uni, m - 1, n), ScanAcross(m - 1, lines)) by {
        assert forall i :: 0 <= i < |pre| ==> pre[i] == blocks[i];
        ConcatCursor(pre, h, uni, n, lines);
      }
      assert Travel(last) == Oriented(h, LineAlong(uni, m - 1, n), if m - 1 < lines - 1 then 1 else 0);
      assert Concat(blocks) == Concat(pre) + last;
      TravelAppend(Concat(pre), last);
      ScanStep(uni, m, n, lines);
    }
  }

  /** Where the head is after the first `count` lines of a horizontal or
      vertical scan: at the start of the line in unidirectional mode and
      after an even number of lines, at its end after an odd number of
      bidirectional lines; and one line further across per separator,
      which is every line but the last. */
  lemma ScanLinesCursor(img: Bitmap, c: L2LConf, uni: bool, h: bool, count: nat)
    requires ValidBitmap(img) && count <= LineCount(img, h) && LineLength(img, h) > 0
    requires c.dir == (if h then Horizontal else Vertical)
    ensures Travel(ScanLines(img, c, uni, h, count))
      == Oriented(h, ScanAlong(uni, count, LineLength(img, h)), ScanAcross(count, LineCount(img, h)))
  {
    var blocks := LineBlocks(img, c, uni, h, count);
    forall i | 0 <= i < |blocks|
      ensures Travel(blocks[i]) == Oriented(h, LineAlong(uni, i, LineLength(img, h)), if i < LineCount(img, h) - 1 then 1 else 0)
    {
      LineBlockCursor(img, c, uni, h, i);
    }
    ConcatCursor(blocks, h, uni, LineLength(img, h), LineCount(img, h));
  }

  // ---------------------------------------------------------------------
  // The words one segment writes

  /** Decimal digits of an integer, with a minus sign when negative. */
  function IntToString(x: int): string
  {
    (if x < 0 then "-" else "") + NatToString(Abs(x))
  }

  /** The "0.00" rendering of `m` hundredths, `m` not negative. */
  function HundredthsMagnitude(m: nat): string
  {
    NatToString(m / 100) + "." + [DigitChar((m / 10) % 10), DigitChar(m % 10)]
  }

  /** The "0.00" rendering of `q` hundredths: always two fraction digits. */
  function RenderHundredths(q: int): string
  {
    (if q < 0 then "-" else "") + HundredthsMagnitude(Abs(q))
  }

  /** The position in units of a cursor coordinate: pixels divided by the
      resolution, plus the offset. */
  function Units(n: int, offset: real, c: L2LConf): real
    requires Resolution(c) != 0.0
  {
    n as real / Resolution(c) + offset
  }

  /** `Math.Round(x, 3)` printed by `double.ToString()`: no trailing zeros. */
  function RoundedText(x: real): string
  {
    RenderThousandths(RoundEven(x, 1000))
  }

  /** `ColorSegment.formatnumber(int, float, L2LConf)`: the position in units
      rounded half to even to three decimals. */
  function Coordinate(n: int, offset: real, c: L2LConf): string
    requires Resolution(c) != 0.0
  {
    RoundedText(Units(n, offset, c))
  }

  /** `FormatLaserPower`: a fraction of full power with two decimals for
      Smoothie, the raw colour otherwise. */
  function FormatLaserPower(color: int, c: L2LConf): string
  {
    if c.firmwareType == Smoothie then "S" + RenderHundredths(RoundAway(color as real / 255.0, 100))
    else "S" + IntToString(color)
  }

  /** Integer digits read back as the number they render. */
  lemma {:induction false} UnsignedDigitsRead(m: nat)
    ensures ParseUnsigned(NatToString(m)) == Some(m as real)
  {
    var ip := NatToString(m);
    ParseUnsignedRendered(ip, "");
    assert ip + "" == ip;
    NatToStringRoundTrip(m);
  }

  /** A rendering that starts with a digit, with or without a minus sign in
      front, reads back with the sign applied. */
  lemma {:induction false} SignedRead(neg: bool, body: string, x: real)
    requires |body| > 0 && IsDigit(body[0]) && ParseUnsigned(body) == Some(x)
    ensures ParseDecimal((if neg then "-" else "") + body) == Some(if neg then -x else x)
  {
    var s := (if neg then "-" else "") + body;
    if neg {
      assert s[1..] == body;
      MinusReads(s, body, x, -x);
    } else {
      assert s == body;
    }
  }

  /** `IntToString` reads back as the integer it renders, without a point. */
  lemma {:induction false} IntToStringReads(x: int)
    ensures ParseDecimal(IntToString(x)) == Some(x as real)
    ensures Lacks(IntToString(x), '.')
  {
    var ip := NatToString(Abs(x));
    UnsignedDigitsRead(Abs(x));
    SignedRead(x < 0, ip, Abs(x) as real);
    forall i | 0 <= i < |IntToString(x)| ensures IntToString(x)[i] != '.' {
      if x < 0 && i > 0 {
        assert IntToString(x)[i] == ip[i - 1] && IsDigit(ip[i - 1]);
      } else if x >= 0 {
        assert IntToString(x)[i] == ip[i] && IsDigit(ip[i]);
      }
    }
  }

  /** The two digits after the point are worth the last two decimal digits
      of `m`, in hundredths. */
  lemma {:induction false} HundredthsFraction(m: nat)
    ensures FractionValue([DigitChar((m / 10) % 10), DigitChar(m % 10)])
      == (m % 100) as real / 100.0
  {
    var d1, d2 := (m / 10) % 10, m % 10;
    var c1, c2 := DigitChar(d1), DigitChar(d2);
    ThreeDigits(m % 100);
    assert (m % 100) / 10 == d1 && (m % 100) % 10 == d2 by {
      var t := m / 10;
      assert m == t * 10 + d2;
      assert m % 100 == (t % 10) * 10 + d2;
    }
    assert FractionValue([c2]) == d2 as real / 10.0 by {
      assert [c2][1..] == [];
    }
    assert FractionValue([c1, c2]) == (d1 as real + d2 as real / 10.0) / 10.0 by {
      assert [c1, c2][1..] == [c2];
    }
  }

  /** The magnitude reads back as `m` hundredths; its point is third from
      the end and nothing before it is a point or a minus sign. */
  lemma {:induction false} HundredthsMagnitudeReads(m: nat)
    ensures var s := HundredthsMagnitude(m);
      && ParseUnsigned(s) == Some(m as real / 100.0)
      && IsDigit(s[0]) && IndexOf(s, '.') == |s| - 3
  {
    var ip := NatToString(m / 100);
    var frac := [DigitChar((m / 10) % 10), DigitChar(m % 10)];
    var s := HundredthsMagnitude(m);
    assert s == ip + (if frac == [] then "" else "." + frac);
    ParseUnsignedRendered(ip, frac);
    NatToStringRoundTrip(m / 100);
    HundredthsFraction(m);
    assert m == (m / 100) * 100 + m % 100;
    assert DecimalValue(ip, frac) == m as real / 100.0;
    PointIndexOfDigits(ip, "." + frac);
    assert s[0] == ip[0];
  }

  /** `RenderHundredths(q)` reads back as `q` hundredths and always has two
      digits after its point. */
  lemma {:induction false} HundredthsReads(q: int)
    ensures var s := RenderHundredths(q);
      && ParseDecimal(s) == Some(q as real / 100.0)
      && IndexOf(s, '.') == |s| - 3
  {
    var m := Abs(q);
    var body := HundredthsMagnitude(m);
    var sign := if q < 0 then "-" else "";
    HundredthsMagnitudeReads(m);
    SignedRead(q < 0, body, m as real / 100.0);
    assert Lacks(sign, '.');
    IndexOfAppend(sign, body, '.');
  }

  /** The S word reads back: on Smoothie as the power rounded half away from
      zero to hundredths of full power, with two digits after the point; on
      the other firmwares as the colour itself, without a point. */
  lemma FormatLaserPowerReads(color: int, c: L2LConf)
    ensures var s := FormatLaserPower(color, c);
      && |s| > 0 && s[0] == 'S'
      && (c.firmwareType == Smoothie ==>
            && ParseDecimal(s[1..]) == Some(RoundAway(color as real / 255.0, 100) as real / 100.0)
            && IndexOf(s[1..], '.') == |s| - 4)
      && (c.firmwareType != Smoothie ==>
            ParseDecimal(s[1..]) == Some(color as real) && Lacks(s[1..], '.'))
  {
    var s := FormatLaserPower(color, c);
    if c.firmwareType == Smoothie {
      var q := RoundAway(color as real / 255.0, 100);
      assert s[1..] == RenderHundredths(q);
      HundredthsReads(q);
    } else {
      assert s[1..] == IntToString(color);
      IntToStringReads(color);
    }
  }

  /** The power word of a run: its power in pwm mode, else the laser-off
      or laser-on command depending on whether it is travelled fast. */
  function PowerWord(s: ColorSegment, c: L2LConf): string
  {
    if c.pwm then FormatLaserPower(s.Color, c) else if Fast(s, c) then c.lOff else c.lOn
  }

  /** The words of one segment's instruction before rendering: the
      coordinates it writes (cursor positions, in pixels) and its power word. */
  datatype Words = Words(X: Option<int>, Y: Option<int>, Power: Option<string>)

  function SegmentWords(s: ColorSegment, cur: Cursor, c: L2LConf): Words
  {
    match s.Kind
    case XSegment => Words(Some(cur.X), Option.None, Some(PowerWord(s, c)))
    case YSegment => Words(Option.None, Some(cur.Y), Some(PowerWord(s, c)))
    case DSegment => Words(Some(cur.X), Some(cur.Y), Some(PowerWord(s, c)))
    case VSeparator => Words(Option.None, Some(cur.Y), Option.None)
    case HSeparator => Words(Some(cur.X), Option.None, Option.None)
  }

  /** The words separated by single spaces, coordinates converted to units. */
  function RenderWords(w: Words, c: L2LConf): string
    requires Resolution(c) != 0.0
  {
    var x := if w.X.Some? then "X" + Coordinate(w.X.value, c.oX, c) else "";
    var y := if w.Y.Some? then "Y" + Coordinate(w.Y.value, c.oY, c) else "";
    var coords := if w.X.Some? && w.Y.Some? then x + " " + y else if w.X.Some? then x else if w.Y.Some? then y else "";
    if w.Power.Some? then coords + " " + w.Power.value else coords
  }

  /** A segment writes the coordinate of each axis it moves, at the cursor
      after the move, and a power word unless it is a separator. */
  lemma SegmentWordsAxes(s: ColorSegment, cur: Cursor, c: L2LConf)
    ensures var w := SegmentWords(s, Moved(cur, s), c);
      && (w.X.Some? <==> s.Kind in {XSegment, DSegment, HSeparator})
      && (w.Y.Some? <==> s.Kind in {YSegment, DSegment, VSeparator})
      && (w.X.Some? ==> w.X.value == cur.X + Displacement(s).X)
      && (w.Y.Some? ==> w.Y.value == cur.Y + Displacement(s).Y)
      && (w.Power.Some? <==> !IsSeparator(s))
  {
  }

  /** A written coordinate reads back as the exact position in units
      rounded to three decimals, within half a thousandth of it. */
  lemma RoundedTextRoundTrip(x: real)
    ensures ParseDecimal(RoundedText(x)) == Some(Round3(x))
  {
    var q := RoundEven(x, 1000);
    RenderThousandthsRoundTrip(q);
    assert RoundedText(x) == RenderThousandths(q);
  }

  lemma CoordinateRoundTrip(n: int, offset: real, c: L2LConf)
    requires Resolution(c) != 0.0
    ensures ParseDecimal(Coordinate(n, offset, c)) == Some(Round3(Units(n, offset, c)))
    ensures -1.0 / 2000.0 <= Round3(Units(n, offset, c)) - Units(n, offset, c) <= 1.0 / 2000.0
  {
    RoundedTextRoundTrip(Units(n, offset, c));
  }

  /** `ToGCodeNumber`: moves the cursor by the segment and returns the
      words it writes; a separator of negative length throws instead. */
  method ToGCodeNumber(s: ColorSegment, cumX: int, cumY: int, c: L2LConf)
    returns (thrown: bool, cumX': int, cumY': int, text: string)
    requires Resolution(c) != 0.0
    ensures thrown <==> Throws(s)
    ensures !thrown ==> Cursor(cumX', cumY') == Moved(Cursor(cumX, cumY), s)
    ensures !thrown ==> text == RenderWords(SegmentWords(s, Cursor(cumX', cumY'), c), c)
  {
    thrown, cumX', cumY', text := false, cumX, cumY, "";
    match s.Kind {
      case XSegment =>
        cumX' := cumX + s.PixLen;
        text := "X" + Coordinate(cumX', c.oX, c) + " " + PowerWord(s, c);
      case YSegment =>
        cumY' := cumY + s.PixLen;
        text := "Y" + Coordinate(cumY', c.oY, c) + " " + PowerWord(s, c);
      case DSegment =>
        cumX' := cumX + s.PixLen;
        cumY' := cumY - s.PixLen;
        var x, y := "X" + Coordinate(cumX', c.oX, c), "Y" + Coordinate(cumY', c.oY, c);
        text := x + " " + y + " " + PowerWord(s, c);
      case VSeparator =>
        if s.PixLen < 0 {
          thrown := true;
          return;
        }
        cumY' := cumY + s.PixLen;
        text := "Y" + Coordinate(cumY', c.oY, c);
      case HSeparator =>
        if s.PixLen < 0 {
          thrown := true;
          return;
        }
        cumX' := cumX + s.PixLen;
        text := "X" + Coordinate(cumX', c.oX, c);
    }
  }

  // ---------------------------------------------------------------------
  // One instruction per segment

  /** The command that turns power off on a separator after a burning run. */
  function PowerOff(c: L2LConf): string
  {
    if c.pwm then "S0" else c.lOff
  }

  /** The motion mnemonic written when the speed mode changes. */
  function Mnemonic(fast: bool, skipcmd: string): string
  {
    if fast then skipcmd else "G1"
  }

  /** Whether the segment before index i was travelled fast; the emitter
      starts out in fast mode. */
  function PrevFast(segs: seq<ColorSegment>, i: int, c: L2LConf): bool
    requires 0 <= i <= |segs|
  {
    i == 0 || Fast(segs[i - 1], c)
  }

  /** The instruction written for segment i: the mnemonic only when the
      speed mode differs from the previous segment's, the segment's words
      at the cursor reached after segments 0..i, and the power-off
      parameter on a separator that follows a burning segment. */
  function LineText(segs: seq<ColorSegment>, i: int, c: L2LConf, skipcmd: string): string
    requires 0 <= i < |segs| && Resolution(c) != 0.0
  {
    var s := segs[i];
    var prev := PrevFast(segs, i, c);
    var param := if IsSeparator(s) && !prev then PowerOff(c) else "";
    var words := RenderWords(SegmentWords(s, Travel(segs[..i + 1]), c), c);
    var prefix := if prev != Fast(s, c) then Mnemonic(Fast(s, c), skipcmd) + " " else "";
    prefix + words + " " + param
  }

  /** The instruction for segment k in terms of the state before it. */
  lemma LineTextAt(segs: seq<ColorSegment>, k: int, c: L2LConf, skipcmd: string)
    requires 0 <= k < |segs| && Resolution(c) != 0.0
    ensures var s := segs[k];
      var prev := PrevFast(segs, k, c);
      var prefix := if prev != Fast(s, c) then Mnemonic(Fast(s, c), skipcmd) + " " else "";
      var param := if IsSeparator(s) && !prev then PowerOff(c) else "";
      LineText(segs, k, c, skipcmd) == prefix + RenderWords(SegmentWords(s, Moved(Travel(segs[..k]), s), c), c) + " " + param
  {
    assert segs[..k + 1][..k] == segs[..k];
  }

  lemma NoThrowStep(segs: seq<ColorSegment>, k: int)
    requires 0 <= k < |segs| && NoThrow(segs[..k]) && !Throws(segs[k])
    ensures NoThrow(segs[..k + 1])
  {
    var pre := segs[..k + 1];
    forall i | 0 <= i < k + 1 ensures !Throws(pre[i]) {
      if i < k {
        assert pre[i] == segs[..k][i];
      }
    }
  }

  /** One pass of the `ImageLine2Line` loop: the instruction for segment
      k, given the speed mode and cursor left by the segments before it. */
  method EmitSegment(segs: seq<ColorSegment>, k: int, c: L2LConf, skipcmd: string, parse: string -> Command,
                     fast: bool, cumX: int, cumY: int)
    returns (thrown: bool, fast': bool, cumX': int, cumY': int, cmd: Command)
    requires 0 <= k < |segs| && Resolution(c) != 0.0
    requires fast == PrevFast(segs, k, c) && Cursor(cumX, cumY) == Travel(segs[..k])
    ensures thrown <==> Throws(segs[k])
    ensures !thrown ==> fast' == PrevFast(segs, k + 1, c) && Cursor(cumX', cumY') == Travel(segs[..k + 1])
    ensures !thrown ==> cmd == parse(LineText(segs, k, c, skipcmd))
  {
    var seg := segs[k];
    var changeGMode := fast != Fast(seg, c);
    var param := "";
    if IsSeparator(seg) && !fast {
      param := PowerOff(c);
    }
    fast' := Fast(seg, c);
    var words;
    thrown, cumX', cumY', words := ToGCodeNumber(seg, cumX, cumY, c);
    var prefix := if changeGMode then Mnemonic(fast', skipcmd) + " " else "";
    cmd := parse(prefix + words + " " + param);
    if !thrown {
      LineTextAt(segs, k, c, skipcmd);
      assert segs[..k + 1][..k] == segs[..k];
    }
  }

  /** The commands for the first k segments. */
  function Instructions(segs: seq<ColorSegment>, k: nat, c: L2LConf, skipcmd: string, parse: string -> Command): (r: seq<Command>)
    requires k <= |segs| && Resolution(c) != 0.0
    ensures |r| == k
  {
    seq(k, i requires 0 <= i < k => parse(LineText(segs, i, c, skipcmd)))
  }

  lemma InstructionsNext(segs: seq<ColorSegment>, k: nat, c: L2LConf, skipcmd: string, parse: string -> Command)
    requires k < |segs| && Resolution(c) != 0.0
    ensures Instructions(segs, k + 1, c, skipcmd, parse)
      == Instructions(segs, k, c, skipcmd, parse) + [parse(LineText(segs, k, c, skipcmd))]
  {
    var a := Instructions(segs, k + 1, c, skipcmd, parse);
    var b := Instructions(segs, k, c, skipcmd, parse);
    assert a[..k] == b;
    assert a == a[..k] + [a[k]];
  }

  /** The loop of `ImageLine2Line` that turns segments into commands (each
      command is the parser's view of the text written, see `Command`).
      It stops with an exception at the first separator of negative length;
      otherwise it writes exactly one command per segment, in order. */
  method EmitSegments(segs: seq<ColorSegment>, c: L2LConf, skipcmd: string, parse: string -> Command)
    returns (thrown: bool, temp: seq<Command>)
    requires Resolution(c) != 0.0
    ensures thrown <==> !NoThrow(segs)
    ensures !thrown ==> |temp| == |segs| && forall i :: 0 <= i < |segs| ==> temp[i] == parse(LineText(segs, i, c, skipcmd))
  {
    var fast := true;
    temp := [];
    var cumX, cumY := 0, 0;
    var k := 0;
    while k < |segs|
      invariant 0 <= k <= |segs| && NoThrow(segs[..k])
      invariant fast == PrevFast(segs, k, c)
      invariant Cursor(cumX, cumY) == Travel(segs[..k])
      invariant temp == Instructions(segs, k, c, skipcmd, parse)
    {
      var cmd;
      thrown, fast, cumX, cumY, cmd := EmitSegment(segs, k, c, skipcmd, parse, fast, cumX, cumY);
      if thrown {
        assert !NoThrow(segs) by {
          assert Throws(segs[k]);
        }
        return;
      }
      InstructionsNext(segs, k, c, skipcmd, parse);
      temp := temp + [cmd];
      NoThrowStep(segs, k);
      k := k + 1;
    }
    assert segs[..k] == segs;
    thrown := false;
  }

  /** Whatever is in the blocks of a scan, in order. */
  lemma {:induction false} ConcatMembers(blocks: seq<seq<ColorSegment>>, s: ColorSegment)
    requires s in Concat(blocks)
    ensures exists i :: 0 <= i < |blocks| && s in blocks[i]
  {
    var pre := blocks[..|blocks| - 1];
    if s in Concat(pre) {
      ConcatMembers(pre, s);
      var i :| 0 <= i < |pre| && s in pre[i];
      assert pre[i] == blocks[i];
    } else {
      assert s in blocks[|blocks| - 1];
    }
  }

  /** Every separator of a line block steps forward. */
  lemma LineBlockNoThrow(img: Bitmap, c: L2LConf, uni: bool, h: bool, i: int)
    requires ValidBitmap(img) && 0 <= i < LineCount(img, h)
    requires c.dir == (if h then Horizontal else Vertical)
    ensures forall s :: s in LineBlock(img, c, uni, h, i) ==> !Throws(s)
  {
    var d := uni || IsEven(i);
    var kind := if h then XSegment else YSegment;
    CloseRunKinds(kind, LineColors(img, c, h, i, d), c.dir, !d);
  }

  lemma SliceBlockNoThrow(img: Bitmap, c: L2LConf, uni: bool, slice: int)
    requires ValidBitmap(img) && 0 <= slice < SliceCount(img)
    requires c.dir == Diagonal
    ensures forall s :: s in SliceBlock(img, c, uni, slice) ==> !Throws(s)
  {
    var d := uni || IsEven(slice);
    CloseRunKinds(DSegment, SliceColors(img, c, slice, d), c.dir, !d);
  }

  /** The segments of a scanned bitmap never make `ToGCodeNumber` throw:
      every separator the scan inserts steps one pixel forward. */
  lemma SegmentsNoThrow(img: Bitmap, c: L2LConf, uni: bool)
    requires ValidBitmap(img)
    ensures NoThrow(Segments(img, c, uni))
  {
    var segs := Segments(img, c, uni);
    forall i | 0 <= i < |segs| ensures !Throws(segs[i]) {
      var s := segs[i];
      assert s in segs;
      if c.dir == Horizontal || c.dir == Vertical {
        var h := c.dir == Horizontal;
        var blocks := LineBlocks(img, c, uni, h, LineCount(img, h));
        ConcatMembers(blocks, s);
        var j :| 0 <= j < |blocks| && s in blocks[j];
        LineBlockNoThrow(img, c, uni, h, j);
      } else {
        var blocks := SliceBlocks(img, c, uni, SliceCount(img));
        if s != VSep {
          assert s in Concat(blocks);
          ConcatMembers(blocks, s);
          var j :| 0 <= j < |blocks| && s in blocks[j];
          SliceBlockNoThrow(img, c, uni, j);
        }
      }
    }
  }

  // ---------------------------------------------------------------------
  // Folding laser-off travel into skip moves

  /** A G-code line as `GrblCommand.BuildHelper` exposes it: the text, the
      X, Y and S words it carries, and whether it moves the head or
      switches the laser on or off. The parser itself is not part of this
      model; the text-to-command map is a parameter wherever text becomes
      a command. */
  datatype Command = Command(Text: string, X: Option<real>, Y: Option<real>, S: Option<real>,
                             IsMovement: bool, IsLaserON: bool, IsLaserOFF: bool)

  /** Whether the command sets the laser power: an S word in pwm mode,
      a laser-on or laser-off command otherwise. */
  predicate SetsPower(cmd: Command, c: L2LConf)
  {
    if c.pwm then cmd.S.Some? else cmd.IsLaserOFF || cmd.IsLaserON
  }

  /** Whether a command that sets the power turns it off: S0 in pwm mode,
      laser-off otherwise (a command that is both counts as off). */
  predicate TurnsOff(cmd: Command, c: L2LConf)
  {
    if c.pwm then cmd.S == Some(0.0) else cmd.IsLaserOFF
  }

  /** The `cumulate` flag after one command. */
  function CumulateAfter(cumulate: bool, cmd: Command, c: L2LConf): bool
  {
    if SetsPower(cmd, c) then TurnsOff(cmd, c) else cumulate
  }

  /** The `cumulate` flag after a list of commands, starting from false. */
  function Cumulating(cmds: seq<Command>, c: L2LConf): bool
  {
    if cmds == [] then false else CumulateAfter(Cumulating(cmds[..|cmds| - 1], c), cmds[|cmds| - 1], c)
  }

  /** The tracked position after a list of commands, starting from the offset. */
  function Position(cmds: seq<Command>, c: L2LConf): (real, real)
  {
    if cmds == [] then (c.oX, c.oY)
    else
      var p := Position(cmds[..|cmds| - 1], c);
      var cmd := cmds[|cmds| - 1];
      (if cmd.IsMovement && cmd.X.Some? then cmd.X.value else p.0,
       if cmd.IsMovement && cmd.Y.Some? then cmd.Y.value else p.1)
  }

  /** The skip move inserted when the power comes back on. */
  function FlushText(pos: (real, real), c: L2LConf, skipcmd: string): string
  {
    skipcmd + " X" + FormatValue(pos.0) + " Y" + FormatValue(pos.1) + " " + PowerOff(c)
  }

  /** What one command contributes after the commands `before`: a skip move
      to the tracked position when the power comes back on, then the
      command itself unless it is a movement made with the power off. */
  function Piece(before: seq<Command>, cmd: Command, c: L2LConf, skipcmd: string, parse: string -> Command): seq<Command>
  {
    var was := Cumulating(before, c);
    var now := CumulateAfter(was, cmd, c);
    (if was && !now then [parse(FlushText(Position(before, c), c, skipcmd))] else [])
    + (if !cmd.IsMovement || !now then [cmd] else [])
  }

  /** The coalesced program: the pieces of all commands in order. */
  function Coalesced(cmds: seq<Command>, c: L2LConf, skipcmd: string, parse: string -> Command): seq<Command>
  {
    if cmds == [] then []
    else Coalesced(cmds[..|cmds| - 1], c, skipcmd, parse) + Piece(cmds[..|cmds| - 1], cmds[|cmds| - 1], c, skipcmd, parse)
  }

  /** One pass of the `OptimizeLine2Line` loop: updates `cumulate` and the
      tracked position and returns what the command contributes. */
  method CoalesceCommand(before: seq<Command>, cmd: Command, c: L2LConf, skipcmd: string, parse: string -> Command,
                         cumulate: bool, curX: real, curY: real)
    returns (cumulate': bool, curX': real, curY': real, piece: seq<Command>)
    requires cumulate == Cumulating(before, c) && (curX, curY) == Position(before, c)
    ensures cumulate' == Cumulating(before + [cmd], c) && (curX', curY') == Position(before + [cmd], c)
    ensures piece == Piece(before, cmd, c, skipcmd, parse)
  {
    assert (before + [cmd])[..|before|] == before;
    cumulate', curX', curY', piece := cumulate, curX, curY, [];
    if c.pwm {
      if cmd.S.Some? {
        if cmd.S.value == 0.0 {
          cumulate' := true;
        } else {
          cumulate' := false;
        }
      }
    } else {
      if cmd.IsLaserOFF {
        cumulate' := true;
      } else if cmd.IsLaserON {
        cumulate' := false;
      }
    }
    if cumulate && !cumulate' {
      piece := piece + [parse(FlushText((curX, curY), c, skipcmd))];
    }
    if cmd.IsMovement {
      if cmd.X.Some? {
        curX' := cmd.X.value;
      }
      if cmd.Y.Some? {
        curY' := cmd.Y.value;
      }
    }
    if !cmd.IsMovement || !cumulate' {
      piece := piece + [cmd];
    }
  }

  /** `OptimizeLine2Line`: the tracked position starts at the offset and
      `cumulate` at false. */
  method OptimizeLine2Line(temp: seq<Command>, c: L2LConf, skipcmd: string, parse: string -> Command)
    returns (rv: seq<Command>)
    ensures rv == Coalesced(temp, c, skipcmd, parse)
  {
    rv := [];
    var curX, curY := c.oX, c.oY;
    var cumulate := false;
    var k := 0;
    while k < |temp|
      invariant 0 <= k <= |temp|
      invariant rv == Coalesced(temp[..k], c, skipcmd, parse)
      invariant cumulate == Cumulating(temp[..k], c)
      invariant (curX, curY) == Position(temp[..k], c)
    {
      var piece;
      cumulate, curX, curY, piece := CoalesceCommand(temp[..k], temp[k], c, skipcmd, parse, cumulate, curX, curY);
      assert temp[..k] + [temp[k]] == temp[..k + 1];
      assert temp[..k + 1][..k] == temp[..k];
      rv := rv + piece;
      k := k + 1;
    }
    assert temp[..k] == temp;
  }

  /** The flag tells whether the power is off: it is set exactly when some
      command set the power, the last such command turned it off. */
  lemma {:induction false} CumulatingIsLastSetting(cmds: seq<Command>, c: L2LConf)
    ensures Cumulating(cmds, c) <==>
      exists i :: 0 <= i < |cmds| && SetsPower(cmds[i], c) && TurnsOff(cmds[i], c)
        && forall j :: i < j < |cmds| ==> !SetsPower(cmds[j], c)
  {
    if cmds != [] {
      var pre := cmds[..|cmds| - 1];
      var last := cmds[|cmds| - 1];
      CumulatingIsLastSetting(pre, c);
      if SetsPower(last, c) {
        if TurnsOff(last, c) {
          assert SetsPower(cmds[|cmds| - 1], c) && TurnsOff(cmds[|cmds| - 1], c);
        } else {
          forall i | 0 <= i < |cmds| && SetsPower(cmds[i], c) && TurnsOff(cmds[i], c)
            ensures i < |cmds| - 1 && SetsPower(cmds[|cmds| - 1], c)
          {
          }
        }
      } else {
        if Cumulating(pre, c) {
          var i :| 0 <= i < |pre| && SetsPower(pre[i], c) && TurnsOff(pre[i], c)
            && forall j :: i < j < |pre| ==> !SetsPower(pre[j], c);
          assert cmds[i] == pre[i];
          assert forall j :: i < j < |cmds| ==> !SetsPower(cmds[j], c) by {
            forall j | i < j < |cmds| ensures !SetsPower(cmds[j], c) {
              if j < |pre| {
                assert cmds[j] == pre[j];
              }
            }
          }
        } else {
          forall i | 0 <= i < |cmds| && SetsPower(cmds[i], c) && TurnsOff(cmds[i], c)
            ensures !(forall j :: i < j < |cmds| ==> !SetsPower(cmds[j], c))
          {
            assert i < |pre| && cmds[i] == pre[i];
            var j :| i < j < |pre| && SetsPower(pre[j], c);
            assert cmds[j] == pre[j];
          }
        }
      }
    }
  }

  predicate MovesX(cmd: Command)
  {
    cmd.IsMovement && cmd.X.Some?
  }

  predicate MovesY(cmd: Command)
  {
    cmd.IsMovement && cmd.Y.Some?
  }

  /** With no movement carrying X, the tracked X is the X offset. */
  lemma {:induction false} PositionXUnmoved(cmds: seq<Command>, c: L2LConf)
    requires forall i :: 0 <= i < |cmds| ==> !MovesX(cmds[i])
    ensures Position(cmds, c).0 == c.oX
  {
    if cmds != [] {
      var pre := cmds[..|cmds| - 1];
      forall i | 0 <= i < |pre| ensures !MovesX(pre[i]) {
        assert pre[i] == cmds[i];
      }
      PositionXUnmoved(pre, c);
      assert !MovesX(cmds[|cmds| - 1]);
    }
  }

  /** After the movement at `i`, the last one carrying X, the tracked X
      is that movement's X word. */
  lemma {:induction false} PositionXAt(cmds: seq<Command>, c: L2LConf, i: int)
    requires 0 <= i < |cmds| && MovesX(cmds[i])
    requires forall j :: i < j < |cmds| ==> !MovesX(cmds[j])
    ensures Position(cmds, c).0 == cmds[i].X.value
  {
    var n := |cmds|;
    if i < n - 1 {
      var pre := cmds[..n - 1];
      assert pre[i] == cmds[i];
      forall j | i < j < n - 1 ensures !MovesX(pre[j]) {
        assert pre[j] == cmds[j];
      }
      PositionXAt(pre, c, i);
      assert !MovesX(cmds[n - 1]);
    }
  }

  /** The tracked X is the X word of the last movement that carries one,
      or the X offset when no movement does. */
  lemma PositionXIsLastMove(cmds: seq<Command>, c: L2LConf)
    ensures (forall i :: 0 <= i < |cmds| ==> !MovesX(cmds[i])) ==> Position(cmds, c).0 == c.oX
    ensures forall i :: (0 <= i < |cmds| && MovesX(cmds[i]) && (forall j :: i < j < |cmds| ==> !MovesX(cmds[j])))
                        ==> Position(cmds, c).0 == cmds[i].X.value
  {
    if forall i :: 0 <= i < |cmds| ==> !MovesX(cmds[i]) {
      PositionXUnmoved(cmds, c);
    }
    forall i | 0 <= i < |cmds| && MovesX(cmds[i]) && (forall j :: i < j < |cmds| ==> !MovesX(cmds[j]))
      ensures Position(cmds, c).0 == cmds[i].X.value
    {
      PositionXAt(cmds, c, i);
    }
  }

  /** With no movement carrying Y, the tracked Y is the Y offset. */
  lemma {:induction false} PositionYUnmoved(cmds: seq<Command>, c: L2LConf)
    requires forall i :: 0 <= i < |cmds| ==> !MovesY(cmds[i])
    ensures Position(cmds, c).1 == c.oY
  {
    if cmds != [] {
      var pre := cmds[..|cmds| - 1];
      forall i | 0 <= i < |pre| ensures !MovesY(pre[i]) {
        assert pre[i] == cmds[i];
      }
      PositionYUnmoved(pre, c);
      assert !MovesY(cmds[|cmds| - 1]);
    }
  }

  /** After the movement at `i`, the last one carrying Y, the tracked Y
      is that movement's Y word. */
  lemma {:induction false} PositionYAt(cmds: seq<Command>, c: L2LConf, i: int)
    requires 0 <= i < |cmds| && MovesY(cmds[i])
    requires forall j :: i < j < |cmds| ==> !MovesY(cmds[j])
    ensures Position(cmds, c).1 == cmds[i].Y.value
  {
    var n := |cmds|;
    if i < n - 1 {
      var pre := cmds[..n - 1];
      assert pre[i] == cmds[i];
      forall j | i < j < n - 1 ensures !MovesY(pre[j]) {
        assert pre[j] == cmds[j];
      }
      PositionYAt(pre, c, i);
      assert !MovesY(cmds[n - 1]);
    }
  }

  /** The tracked Y is the Y word of the last movement that carries one,
      or the Y offset when no movement does. */
  lemma PositionYIsLastMove(cmds: seq<Command>, c: L2LConf)
    ensures (forall i :: 0 <= i < |cmds| ==> !MovesY(cmds[i])) ==> Position(cmds, c).1 == c.oY
    ensures forall i :: (0 <= i < |cmds| && MovesY(cmds[i]) && (forall j :: i < j < |cmds| ==> !MovesY(cmds[j])))
                        ==> Position(cmds, c).1 == cmds[i].Y.value
  {
    if forall i :: 0 <= i < |cmds| ==> !MovesY(cmds[i]) {
      PositionYUnmoved(cmds, c);
    }
    forall i | 0 <= i < |cmds| && MovesY(cmds[i]) && (forall j :: i < j < |cmds| ==> !MovesY(cmds[j]))
      ensures Position(cmds, c).1 == cmds[i].Y.value
    {
      PositionYAt(cmds, c, i);
    }
  }

  /** A command that does not turn the power off, after a prefix that is not
      cumulating, contributes itself alone and leaves nothing cumulating. */
  lemma PieceKeeps(before: seq<Command>, cmd: Command, c: L2LConf, skipcmd: string, parse: string -> Command)
    requires !Cumulating(before, c) && !(SetsPower(cmd, c) && TurnsOff(cmd, c))
    ensures Piece(before, cmd, c, skipcmd, parse) == [cmd]
    ensures !CumulateAfter(false, cmd, c)
  {
  }

  /** A program that never turns the power off passes through unchanged. */
  lemma {:induction false} CoalescedPassThrough(cmds: seq<Command>, c: L2LConf, skipcmd: string, parse: string -> Command)
    requires forall i :: 0 <= i < |cmds| ==> !(SetsPower(cmds[i], c) && TurnsOff(cmds[i], c))
    ensures Coalesced(cmds, c, skipcmd, parse) == cmds
    ensures !Cumulating(cmds, c)
  {
    if cmds != [] {
      var pre := cmds[..|cmds| - 1];
      var last := cmds[|cmds| - 1];
      forall i | 0 <= i < |pre| ensures !(SetsPower(pre[i], c) && TurnsOff(pre[i], c)) {
        assert pre[i] == cmds[i];
      }
      CoalescedPassThrough(pre, c, skipcmd, parse);
      PieceKeeps(pre, last, c, skipcmd, parse);
      assert cmds == pre + [last];
    }
  }

  /** The number of commands the pass drops: movements made while the
      power is off. */
  function Absorbed(cmds: seq<Command>, c: L2LConf): nat
  {
    if cmds == [] then 0
    else Absorbed(cmds[..|cmds| - 1], c) + (if cmds[|cmds| - 1].IsMovement && Cumulating(cmds, c) then 1 else 0)
  }

  /** The number of times the power comes back on. */
  function PowerOnEdges(cmds: seq<Command>, c: L2LConf): nat
  {
    if cmds == [] then 0
    else PowerOnEdges(cmds[..|cmds| - 1], c) + (if Cumulating(cmds[..|cmds| - 1], c) && !Cumulating(cmds, c) then 1 else 0)
  }

  /** Every command is kept except the movements made with the power off,
      and one skip move is added per power-on edge. */
  lemma {:induction false} CoalescedLength(cmds: seq<Command>, c: L2LConf, skipcmd: string, parse: string -> Command)
    ensures |Coalesced(cmds, c, skipcmd, parse)| + Absorbed(cmds, c) == |cmds| + PowerOnEdges(cmds, c)
  {
    if cmds != [] {
      CoalescedLength(cmds[..|cmds| - 1], c, skipcmd, parse);
    }
  }

  // ---------------------------------------------------------------------
  // The whole stage

  /** `ImageLine2Line`: scan the bitmap into segments, write one command
      per segment and fold the laser-off travel. The scan never yields a
      backward separator, so the exception path is never taken. */
  method ImageLine2Line(img: Bitmap, c: L2LConf, uni: bool, skipcmd: string, parse: string -> Command)
    returns (rv: seq<Command>)
    requires ValidBitmap(img) && Resolution(c) != 0.0
    ensures var segs := Segments(img, c, uni);
      rv == Coalesced(seq(|segs|, i requires 0 <= i < |segs| => parse(LineText(segs, i, c, skipcmd))), c, skipcmd, parse)
  {
    var segs := GetSegments(img, c, uni);
    SegmentsNoThrow(img, c, uni);
    var thrown, temp := EmitSegments(segs, c, skipcmd, parse);
    assert temp == seq(|segs|, i requires 0 <= i < |segs| => parse(LineText(segs, i, c, skipcmd)));
    rv := OptimizeLine2Line(temp, c, skipcmd, parse);
  }
}

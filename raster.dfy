/**
 * Line-to-line raster engraving, first stage: the scan of the bitmap into
 * run-length colour segments (`GetSegments`, `ExtractSegment`, `GetColor`
 * of GrblFile.cs), and the conversion settings that drive it.
 */
module Raster {
  import opened Numbers
  import Wrappers

  /** `RasterConverter.ImageProcessor.Direction`. */
  datatype Direction =
    | None | Horizontal | Vertical | Diagonal
    | NewHorizontal | NewVertical | NewDiagonal | NewReverseDiagonal
    | NewGrid | NewDiagonalGrid | NewCross | NewDiagonalCross
    | NewSquares | NewZigZag | NewHilbert | NewInsetFilling

  /** Directions engraved line by line from the bitmap. */
  predicate RasterFilling(dir: Direction)
  {
    dir == Diagonal || dir == Horizontal || dir == Vertical
  }

  /** Directions filled with vector strokes built from the traced outline. */
  predicate VectorFilling(dir: Direction)
  {
    dir == NewDiagonal || dir == NewHorizontal || dir == NewVertical || dir == NewReverseDiagonal
    || dir == NewGrid || dir == NewDiagonalGrid || dir == NewCross || dir == NewDiagonalCross
    || dir == NewSquares || dir == NewZigZag || dir == NewHilbert || dir == NewInsetFilling
  }

  /** No direction is filled both ways, and `None` is filled neither way. */
  lemma FillingKindsDisjoint(dir: Direction)
    ensures !(RasterFilling(dir) && VectorFilling(dir))
    ensures dir == None ==> !RasterFilling(dir) && !VectorFilling(dir)
  {
  }

  /** Only Smoothie changes how power is written. */
  datatype Firmware = Grbl | Smoothie | Marlin

  /** `GrblFile.L2LConf`: the settings of one conversion run. */
  datatype L2LConf = L2LConf(
    res: real, oX: real, oY: real, markSpeed: int, borderSpeed: int,
    minPower: int, maxPower: int, lOn: string, lOff: string,
    dir: Direction, pwm: bool, fres: real, vectorfilling: bool, firmwareType: Firmware)

  /** The resolution the emitted coordinates are divided by. */
  function Resolution(c: L2LConf): real
  {
    if c.vectorfilling then c.fres else c.res
  }

  type Byte = x: int | 0 <= x < 256

  /** The two channels of a pixel colour the scan reads. */
  datatype Color = Color(R: Byte, A: Byte)

  /** A bitmap as rows of pixels: `Pixels[y][x]`. */
  datatype Bitmap = Bitmap(Width: nat, Height: nat, Pixels: seq<seq<Color>>)

  predicate ValidBitmap(b: Bitmap)
  {
    |b.Pixels| == b.Height && forall y :: 0 <= y < b.Height ==> |b.Pixels[y]| == b.Width
  }

  function GetPixel(b: Bitmap, x: int, y: int): Color
    requires ValidBitmap(b) && 0 <= x < b.Width && 0 <= y < b.Height
  {
    b.Pixels[y][x]
  }

  /** Darkness weighted by opacity: `(255 - R) * A / 255`. */
  function RawIntensity(p: Color): (rv: int)
    ensures 0 <= rv <= 255
  {
    var n := Product(255 - p.R, p.A);
    ProductIsMul(255 - p.R, p.A);
    MulBounds(255 - p.R, p.A);
    n / 255
  }

  lemma MulBounds(a: int, b: int)
    requires 0 <= a <= 255 && 0 <= b <= 255
    ensures 0 <= a * b <= 255 * 255
  {
    assert a * b <= 255 * b;
  }

  /** The quantisation step of `GetColor`: zero stays zero; in pwm mode a
      nonzero intensity is rescaled into [min, max] with C# integer
      arithmetic; otherwise the intensity is kept. */
  function Quantize(rv: int, min: int, max: int, pwm: bool): (col: int)
    requires 0 <= rv <= 255
    ensures rv == 0 ==> col == 0
    ensures !pwm ==> col == rv
    ensures pwm && rv != 0 && min <= max ==> min <= col <= max
  {
    if rv == 0 then 0
    else if pwm then
      var m := Product(rv, max - min);
      assert min <= max ==> 0 <= m <= 255 * (max - min) by {
        ProductIsMul(rv, max - min);
        if min <= max {
          assert rv * (max - min) <= 255 * (max - min);
        }
      }
      CsDiv(m, 255) + min
    else rv
  }

  /** `GetColor`: the quantised colour of pixel (X, Y). */
  function GetColor(img: Bitmap, X: int, Y: int, min: int, max: int, pwm: bool): int
    requires ValidBitmap(img) && 0 <= X < img.Width && 0 <= Y < img.Height
  {
    Quantize(RawIntensity(GetPixel(img, X, Y)), min, max, pwm)
  }

  /** A quantised colour is never the scan's "no colour yet" marker -1
      unless minimum power is itself negative. */
  lemma GetColorNotMarker(img: Bitmap, X: int, Y: int, min: int, max: int, pwm: bool)
    requires ValidBitmap(img) && 0 <= X < img.Width && 0 <= Y < img.Height
    requires pwm ==> 0 <= min <= max
    ensures GetColor(img, X, Y, min, max, pwm) >= 0
  {
  }

  /** `IsEven`: lines with an even index are scanned forward. */
  predicate IsEven(value: int)
  {
    value % 2 == 0
  }

  /** The subclasses of `ColorSegment`. */
  datatype SegmentKind = XSegment | YSegment | DSegment | VSeparator | HSeparator

  /** A run of one colour; the sign of `PixLen` is the direction of travel. */
  datatype ColorSegment = ColorSegment(Kind: SegmentKind, Color: int, PixLen: int)

  /** The `ColorSegment(col, len, rev)` base constructor. */
  function NewSegment(kind: SegmentKind, col: int, len: int, rev: bool): ColorSegment
  {
    ColorSegment(kind, col, if rev then -len else len)
  }

  /** `new VSeparator()` and `new HSeparator()`: colour 0, length 1, forward. */
  const VSep: ColorSegment := NewSegment(VSeparator, 0, 1, false)
  const HSep: ColorSegment := NewSegment(HSeparator, 0, 1, false)

  predicate IsSeparator(s: ColorSegment)
  {
    s.Kind == VSeparator || s.Kind == HSeparator
  }

  /** `Fast(c)`: the segment is travelled with the laser off. */
  predicate Fast(s: ColorSegment, c: L2LConf)
  {
    if c.pwm then s.Color == 0 else s.Color <= 125
  }

  /** The segment kind `ExtractSegment` emits for a scan direction. */
  function RunKind(dir: Direction): Wrappers.Option<SegmentKind>
  {
    if dir == Horizontal then Wrappers.Some(XSegment)
    else if dir == Vertical then Wrappers.Some(YSegment)
    else if dir == Diagonal then Wrappers.Some(DSegment)
    else Wrappers.None
  }

  /** The `ref len`, `ref prevCol` and output list threaded through a scan line. */
  datatype RunState = RunState(len: int, prevCol: int, out: seq<ColorSegment>)

  /** State at the start of every line: no pixel seen, no colour yet. */
  const LineStart: RunState := RunState(-1, -1, [])

  /** One call of `ExtractSegment` on a pixel of colour `col`. */
  function ExtractStep(st: RunState, col: int, dir: Direction, reverse: bool): RunState
  {
    var len := st.len + 1;
    var prev := if st.prevCol == -1 then col else st.prevCol;
    if prev != col then
      var emitted := match RunKind(dir)
        case Some(k) => [NewSegment(k, prev, len, reverse)]
        case None() => [];
      RunState(0, col, st.out + emitted)
    else RunState(len, col, st.out)
  }

  /** `ExtractSegment` applied to the colours of a line in scan order. */
  function Extract(st: RunState, cols: seq<int>, dir: Direction, reverse: bool): RunState
  {
    if cols == [] then st
    else ExtractStep(Extract(st, cols[..|cols| - 1], dir, reverse), cols[|cols| - 1], dir, reverse)
  }

  /** The segments of one line: its extracted runs, then the last run closed. */
  function CloseRun(kind: SegmentKind, cols: seq<int>, dir: Direction, reverse: bool): seq<ColorSegment>
  {
    var st := Extract(LineStart, cols, dir, reverse);
    st.out + [NewSegment(kind, st.prevCol, st.len + 1, reverse)]
  }

  // ---------------------------------------------------------------------
  // Scan geometry

  function LineCount(img: Bitmap, h: bool): nat
  {
    if h then img.Height else img.Width
  }

  function LineLength(img: Bitmap, h: bool): nat
  {
    if h then img.Width else img.Height
  }

  /** The pixel visited at step k of line i: rows for a horizontal scan,
      columns for a vertical one, backwards when `d` is false. */
  function LinePixel(img: Bitmap, h: bool, i: int, d: bool, k: int): (p: (int, int))
    requires 0 <= i < LineCount(img, h) && 0 <= k < LineLength(img, h)
    ensures 0 <= p.0 < img.Width && 0 <= p.1 < img.Height
    ensures (if h then p.1 else p.0) == i
  {
    var n := LineLength(img, h);
    var j := if d then k else n - 1 - k;
    if h then (j, i) else (i, j)
  }

  /** Colours of line i in the order the scan visits them. */
  function LineColors(img: Bitmap, c: L2LConf, h: bool, i: int, d: bool): (cols: seq<int>)
    requires ValidBitmap(img) && 0 <= i < LineCount(img, h)
    ensures |cols| == LineLength(img, h)
  {
    seq(LineLength(img, h), k requires 0 <= k < LineLength(img, h) =>
      var p := LinePixel(img, h, i, d, k);
      GetColor(img, p.0, p.1, c.minPower, c.maxPower, c.pwm))
  }

  /** Everything one horizontal or vertical line contributes: its runs, the
      go-back run in unidirectional mode, and a separator unless it is the last line. */
  function LineBlock(img: Bitmap, c: L2LConf, uni: bool, h: bool, i: int): seq<ColorSegment>
    requires ValidBitmap(img) && 0 <= i < LineCount(img, h)
  {
    var d := uni || IsEven(i);
    var kind := if h then XSegment else YSegment;
    CloseRun(kind, LineColors(img, c, h, i, d), c.dir, !d)
    + (if uni then [NewSegment(kind, 0, LineLength(img, h), true)] else [])
    + (if i < LineCount(img, h) - 1 then [if h then VSep else HSep] else [])
  }

  /** Blocks of segments joined in order. */
  function Concat(blocks: seq<seq<ColorSegment>>): seq<ColorSegment>
  {
    if blocks == [] then [] else Concat(blocks[..|blocks| - 1]) + blocks[|blocks| - 1]
  }

  /** The blocks of the first `count` lines. */
  function LineBlocks(img: Bitmap, c: L2LConf, uni: bool, h: bool, count: nat): (blocks: seq<seq<ColorSegment>>)
    requires ValidBitmap(img) && count <= LineCount(img, h)
    ensures |blocks| == count
  {
    seq(count, i requires 0 <= i < count => LineBlock(img, c, uni, h, i))
  }

  /** The first `count` lines of a horizontal or vertical scan. */
  function ScanLines(img: Bitmap, c: L2LConf, uni: bool, h: bool, count: nat): seq<ColorSegment>
    requires ValidBitmap(img) && count <= LineCount(img, h)
  {
    Concat(LineBlocks(img, c, uni, h, count))
  }

  /** Missing cells of a diagonal slice below (z1) and to the right (z2). */
  function Z1(slice: int, h: int): int
  {
    if slice < h then 0 else slice - h + 1
  }

  function Z2(slice: int, w: int): int
  {
    if slice < w then 0 else slice - w + 1
  }

  function SliceCount(img: Bitmap): nat
  {
    if img.Width + img.Height == 0 then 0 else img.Width + img.Height - 1
  }

  function SliceLength(img: Bitmap, slice: int): (n: nat)
    requires 0 <= slice < SliceCount(img)
  {
    slice - Z1(slice, img.Height) - Z2(slice, img.Width) + 1
  }

  /** The pixel (j, slice - j) visited at step k of a diagonal slice: j runs
      from z1 up to slice - z2, or down when `d` is false. Every such pixel
      lies inside the bitmap. */
  function SlicePixel(img: Bitmap, slice: int, d: bool, k: int): (p: (int, int))
    requires 0 <= slice < SliceCount(img) && 0 <= k < SliceLength(img, slice)
    ensures 0 <= p.0 < img.Width && 0 <= p.1 < img.Height
    ensures p.0 + p.1 == slice
  {
    var j := if d then Z1(slice, img.Height) + k else slice - Z2(slice, img.Width) - k;
    (j, slice - j)
  }

  function SliceColors(img: Bitmap, c: L2LConf, slice: int, d: bool): (cols: seq<int>)
    requires ValidBitmap(img) && 0 <= slice < SliceCount(img)
    ensures |cols| == SliceLength(img, slice)
  {
    seq(SliceLength(img, slice), k requires 0 <= k < SliceLength(img, slice) =>
      var p := SlicePixel(img, slice, d, k);
      GetColor(img, p.0, p.1, c.minPower, c.maxPower, c.pwm))
  }

  function Min(a: int, b: int): int { if a < b then a else b }
  function Max(a: int, b: int): int { if a < b then b else a }

  /** The separator written after a diagonal slice. */
  function SliceSeparator(w: int, h: int, slice: int, d: bool, uni: bool): ColorSegment
  {
    if slice < Min(w, h) - 1 then (if d && !uni then HSep else VSep)
    else if slice >= Max(w, h) - 1 then (if d && !uni then VSep else HSep)
    else if w > h then HSep else VSep
  }

  function SliceBlock(img: Bitmap, c: L2LConf, uni: bool, slice: int): seq<ColorSegment>
    requires ValidBitmap(img) && 0 <= slice < SliceCount(img)
  {
    var d := uni || IsEven(slice);
    CloseRun(DSegment, SliceColors(img, c, slice, d), c.dir, !d)
    + (if uni then [NewSegment(DSegment, 0, SliceLength(img, slice), true)] else [])
    + [SliceSeparator(img.Width, img.Height, slice, d, uni)]
  }

  /** The blocks of the first `count` slices. */
  function SliceBlocks(img: Bitmap, c: L2LConf, uni: bool, count: nat): (blocks: seq<seq<ColorSegment>>)
    requires ValidBitmap(img) && count <= SliceCount(img)
    ensures |blocks| == count
  {
    seq(count, i requires 0 <= i < count => SliceBlock(img, c, uni, i))
  }

  /** The leading separator and the first `count` slices of a diagonal scan. */
  function ScanSlices(img: Bitmap, c: L2LConf, uni: bool, count: nat): seq<ColorSegment>
    requires ValidBitmap(img) && count <= SliceCount(img)
  {
    [VSep] + Concat(SliceBlocks(img, c, uni, count))
  }

  /** Scanning one more line appends its block. */
  lemma ScanLinesNext(img: Bitmap, c: L2LConf, uni: bool, h: bool, count: nat)
    requires ValidBitmap(img) && count < LineCount(img, h)
    ensures ScanLines(img, c, uni, h, count + 1) == ScanLines(img, c, uni, h, count) + LineBlock(img, c, uni, h, count)
  {
    var blocks := LineBlocks(img, c, uni, h, count + 1);
    assert blocks[..count] == LineBlocks(img, c, uni, h, count);
  }

  /** Scanning one more slice appends its block. */
  lemma ScanSlicesNext(img: Bitmap, c: L2LConf, uni: bool, count: nat)
    requires ValidBitmap(img) && count < SliceCount(img)
    ensures ScanSlices(img, c, uni, count + 1) == ScanSlices(img, c, uni, count) + SliceBlock(img, c, uni, count)
  {
    var blocks := SliceBlocks(img, c, uni, count + 1);
    var pre := SliceBlocks(img, c, uni, count);
    assert blocks[..count] == pre;
    var b := SliceBlock(img, c, uni, count);
    assert Concat(blocks) == Concat(pre) + b;
    assert [VSep] + (Concat(pre) + b) == ([VSep] + Concat(pre)) + b;
  }

  /** What `GetSegments` returns. */
  function Segments(img: Bitmap, c: L2LConf, uni: bool): seq<ColorSegment>
    requires ValidBitmap(img)
  {
    if c.dir == Horizontal || c.dir == Vertical then
      ScanLines(img, c, uni, c.dir == Horizontal, LineCount(img, c.dir == Horizontal))
    else if c.dir == Diagonal then ScanSlices(img, c, uni, SliceCount(img))
    else []
  }

  // ---------------------------------------------------------------------
  // The scan as the source performs it

  /** `ExtractSegment`: count the pixel; when its colour differs from the
      current run's, emit that run and start a new one. */
  method ExtractSegment(image: Bitmap, x: int, y: int, reverse: bool, len: int, prevCol: int,
                        rv: seq<ColorSegment>, c: L2LConf)
    returns (len': int, prevCol': int, rv': seq<ColorSegment>)
    requires ValidBitmap(image) && 0 <= x < image.Width && 0 <= y < image.Height
    ensures RunState(len', prevCol', rv')
         == ExtractStep(RunState(len, prevCol, rv), GetColor(image, x, y, c.minPower, c.maxPower, c.pwm), c.dir, reverse)
  {
    len' := len + 1;
    var col := GetColor(image, x, y, c.minPower, c.maxPower, c.pwm);
    prevCol' := prevCol;
    if prevCol' == -1 {
      prevCol' := col;
    }
    rv' := rv;
    if prevCol' != col {
      if c.dir == Horizontal {
        rv' := rv' + [NewSegment(XSegment, prevCol', len', reverse)];
      } else if c.dir == Vertical {
        rv' := rv' + [NewSegment(YSegment, prevCol', len', reverse)];
      } else if c.dir == Diagonal {
        rv' := rv' + [NewSegment(DSegment, prevCol', len', reverse)];
      }
      len' := 0;
    }
    prevCol' := col;
  }

  /** Extraction does not look at what was emitted before the line. */
  lemma {:induction false} ExtractAppends(pre: seq<ColorSegment>, cols: seq<int>, dir: Direction, reverse: bool)
    ensures var e := Extract(LineStart, cols, dir, reverse);
      Extract(RunState(-1, -1, pre), cols, dir, reverse) == RunState(e.len, e.prevCol, pre + e.out)
  {
    if cols != [] {
      ExtractAppends(pre, cols[..|cols| - 1], dir, reverse);
    }
  }
  /** Closing the last run after scanning onto `pre` appends the line's
      closed runs to `pre`. */
  lemma CloseAfter(pre: seq<ColorSegment>, kind: SegmentKind, cols: seq<int>, dir: Direction, reverse: bool)
    ensures var st := Extract(RunState(-1, -1, pre), cols, dir, reverse);
      st.out + [NewSegment(kind, st.prevCol, st.len + 1, reverse)] == pre + CloseRun(kind, cols, dir, reverse)
  {
    ExtractAppends(pre, cols, dir, reverse);
  }


  /** Extracting one more colour of a line is one more `ExtractStep`. */
  lemma ExtractPrefixStep(st: RunState, cols: seq<int>, k: int, dir: Direction, reverse: bool)
    requires 0 <= k < |cols|
    ensures Extract(st, cols[..k + 1], dir, reverse) == ExtractStep(Extract(st, cols[..k], dir, reverse), cols[k], dir, reverse)
  {
    assert cols[..k + 1][..k] == cols[..k];
  }

  /** Scanning pixel k of line i extends the state by that pixel's colour. */
  lemma LinePrefixStep(img: Bitmap, c: L2LConf, h: bool, i: int, d: bool, k: int, st0: RunState)
    requires ValidBitmap(img) && 0 <= i < LineCount(img, h) && 0 <= k < LineLength(img, h)
    ensures var p := LinePixel(img, h, i, d, k);
      Extract(st0, LineColors(img, c, h, i, d)[..k + 1], c.dir, !d)
      == ExtractStep(Extract(st0, LineColors(img, c, h, i, d)[..k], c.dir, !d),
                     GetColor(img, p.0, p.1, c.minPower, c.maxPower, c.pwm), c.dir, !d)
  {
    ExtractPrefixStep(st0, LineColors(img, c, h, i, d), k, c.dir, !d);
  }

  /** Scanning pixel k of a slice extends the state by that pixel's colour. */
  lemma SlicePrefixStep(img: Bitmap, c: L2LConf, slice: int, d: bool, k: int, st0: RunState)
    requires ValidBitmap(img) && 0 <= slice < SliceCount(img) && 0 <= k < SliceLength(img, slice)
    ensures var p := SlicePixel(img, slice, d, k);
      Extract(st0, SliceColors(img, c, slice, d)[..k + 1], c.dir, !d)
      == ExtractStep(Extract(st0, SliceColors(img, c, slice, d)[..k], c.dir, !d),
                     GetColor(img, p.0, p.1, c.minPower, c.maxPower, c.pwm), c.dir, !d)
  {
    ExtractPrefixStep(st0, SliceColors(img, c, slice, d), k, c.dir, !d);
  }

  /** One step of a line's pixel loop: `ExtractSegment` on pixel j of line
      i, which is the k-th pixel in scan order. */
  method ExtractLinePixel(img: Bitmap, c: L2LConf, h: bool, i: int, d: bool, ghost k: int, j: int, ghost st0: RunState,
                          len: int, prevCol: int, rv: seq<ColorSegment>)
    returns (len': int, prevCol': int, rv': seq<ColorSegment>)
    requires ValidBitmap(img) && 0 <= i < LineCount(img, h) && 0 <= k < LineLength(img, h)
    requires j == if d then k else LineLength(img, h) - 1 - k
    requires RunState(len, prevCol, rv) == Extract(st0, LineColors(img, c, h, i, d)[..k], c.dir, !d)
    ensures RunState(len', prevCol', rv') == Extract(st0, LineColors(img, c, h, i, d)[..k + 1], c.dir, !d)
  {
    LinePrefixStep(img, c, h, i, d, k, st0);
    assert LinePixel(img, h, i, d, k) == (if h then (j, i) else (i, j));
    len', prevCol', rv' := ExtractSegment(img, if h then j else i, if h then i else j, !d, len, prevCol, rv, c);
  }

  /** The k-th pixel of a slice in scan order is (j, slice - j). */
  lemma SlicePixelAt(img: Bitmap, slice: int, d: bool, k: int, j: int)
    requires 0 <= slice < SliceCount(img) && 0 <= k < SliceLength(img, slice)
    requires j == if d then Z1(slice, img.Height) + k else slice - Z2(slice, img.Width) - k
    ensures SlicePixel(img, slice, d, k) == (j, slice - j)
  {
  }

  /** One step of a slice's pixel loop: `ExtractSegment` on pixel
      (j, slice - j), the k-th of the slice in scan order. */
  method ExtractSlicePixel(img: Bitmap, c: L2LConf, slice: int, d: bool, ghost k: int, j: int, ghost st0: RunState,
                           len: int, prevCol: int, rv: seq<ColorSegment>)
    returns (len': int, prevCol': int, rv': seq<ColorSegment>)
    requires ValidBitmap(img) && 0 <= slice < SliceCount(img) && 0 <= k < SliceLength(img, slice)
    requires j == if d then Z1(slice, img.Height) + k else slice - Z2(slice, img.Width) - k
    requires RunState(len, prevCol, rv) == Extract(st0, SliceColors(img, c, slice, d)[..k], c.dir, !d)
    ensures RunState(len', prevCol', rv') == Extract(st0, SliceColors(img, c, slice, d)[..k + 1], c.dir, !d)
  {
    SlicePrefixStep(img, c, slice, d, k, st0);
    SlicePixelAt(img, slice, d, k, j);
    len', prevCol', rv' := ExtractSegment(img, j, slice - j, !d, len, prevCol, rv, c);
  }

  /** The pixel loop of one horizontal or vertical line: `ExtractSegment`
      on every pixel of line i in scan order, appending to `rv`. */
  method ExtractLine(img: Bitmap, c: L2LConf, h: bool, i: int, d: bool, rv: seq<ColorSegment>)
    returns (len: int, prevCol: int, rv': seq<ColorSegment>)
    requires ValidBitmap(img) && 0 <= i < LineCount(img, h)
    ensures RunState(len, prevCol, rv') == Extract(RunState(-1, -1, rv), LineColors(img, c, h, i, d), c.dir, !d)
  {
    prevCol := -1;
    len := -1;
    var n := if h then img.Width else img.Height;
    ghost var cols := LineColors(img, c, h, i, d);
    ghost var st0 := RunState(-1, -1, rv);
    assert n == |cols|;
    rv' := rv;
    var j := if d then 0 else n - 1;
    ghost var k := 0;
    while if d then j < n else j >= 0
      invariant 0 <= k <= n
      invariant j == if d then k else n - 1 - k
      invariant RunState(len, prevCol, rv') == Extract(st0, cols[..k], c.dir, !d)
      decreases n - k
    {
      len, prevCol, rv' := ExtractLinePixel(img, c, h, i, d, k, j, st0, len, prevCol, rv');
      j := if d then j + 1 else j - 1;
      k := k + 1;
    }
    assert k == n;
    assert cols[..n] == cols;
  }

  /** The scan of one horizontal or vertical line, appended to `rv`. */
  method ScanLine(img: Bitmap, c: L2LConf, uni: bool, h: bool, i: int, rv: seq<ColorSegment>)
    returns (rv': seq<ColorSegment>)
    requires ValidBitmap(img) && 0 <= i < LineCount(img, h)
    requires c.dir == (if h then Horizontal else Vertical)
    ensures rv' == rv + LineBlock(img, c, uni, h, i)
  {
    var d := uni || IsEven(i);
    var kind := if h then XSegment else YSegment;
    var len, prevCol;
    len, prevCol, rv' := ExtractLine(img, c, h, i, d, rv);
    ghost var close := CloseRun(kind, LineColors(img, c, h, i, d), c.dir, !d);
    CloseAfter(rv, kind, LineColors(img, c, h, i, d), c.dir, !d);
    rv' := rv' + [NewSegment(kind, prevCol, len + 1, !d)];   // close the last run
    assert rv' == rv + close;
    ghost var goBack: seq<ColorSegment> := [];
    if uni {   // the go-back run
      goBack := [NewSegment(kind, 0, LineLength(img, h), true)];
      rv' := rv' + [NewSegment(kind, 0, if h then img.Width else img.Height, true)];
    }
    assert rv' == rv + close + goBack;
    ghost var sep: seq<ColorSegment> := [];
    if i < (if h then img.Height - 1 else img.Width - 1) {
      sep := [if h then VSep else HSep];
      rv' := rv' + [if h then VSep else HSep];
    }
    assert rv' == rv + close + goBack + sep;
    AppendThree(rv, close, goBack, sep);
    assert LineBlock(img, c, uni, h, i) == close + goBack + sep;
  }

  /** The pixel loop of one diagonal slice: `ExtractSegment` on every pixel
      (j, slice - j) in scan order, appending to `rv`. */
  method ExtractSlice(img: Bitmap, c: L2LConf, slice: int, d: bool, rv: seq<ColorSegment>)
    returns (len: int, prevCol: int, rv': seq<ColorSegment>)
    requires ValidBitmap(img) && 0 <= slice < SliceCount(img)
    ensures RunState(len, prevCol, rv') == Extract(RunState(-1, -1, rv), SliceColors(img, c, slice, d), c.dir, !d)
  {
    var w := img.Width;
    var h := img.Height;
    prevCol := -1;
    len := -1;
    var z1 := if slice < h then 0 else slice - h + 1;
    var z2 := if slice < w then 0 else slice - w + 1;
    assert z1 == Z1(slice, h) && z2 == Z2(slice, w);
    ghost var cols := SliceColors(img, c, slice, d);
    ghost var n := SliceLength(img, slice);
    assert n == slice - z1 - z2 + 1;
    ghost var st0 := RunState(-1, -1, rv);
    rv' := rv;
    var j := if d then z1 else slice - z2;
    ghost var k := 0;
    while if d then j <= slice - z2 else j >= z1
      invariant 0 <= k <= n
      invariant j == if d then z1 + k else slice - z2 - k
      invariant RunState(len, prevCol, rv') == Extract(st0, cols[..k], c.dir, !d)
      decreases n - k
    {
      len, prevCol, rv' := ExtractSlicePixel(img, c, slice, d, k, j, st0, len, prevCol, rv');
      j := if d then j + 1 else j - 1;
      k := k + 1;
    }
    assert k == n;
    assert cols[..n] == cols;
  }

  /** The separator that ends a diagonal slice: which one depends on whether
      the slice lies before, across or after the middle band of the bitmap. */
  method AppendSliceSeparator(w: int, h: int, slice: int, d: bool, uni: bool, rv: seq<ColorSegment>)
    returns (rv': seq<ColorSegment>)
    ensures rv' == rv + [SliceSeparator(w, h, slice, d, uni)]
  {
    rv' := rv;
    if slice < Min(w, h) - 1 {
      if d && !uni {
        rv' := rv' + [HSep];
      } else {
        rv' := rv' + [VSep];
      }
    } else if slice >= Max(w, h) - 1 {
      if d && !uni {
        rv' := rv' + [VSep];
      } else {
        rv' := rv' + [HSep];
      }
    } else {
      if w > h {
        rv' := rv' + [HSep];
      } else {
        rv' := rv' + [VSep];
      }
    }
  }

  /** The scan of one diagonal slice, appended to `rv`. */
  method ScanSlice(img: Bitmap, c: L2LConf, uni: bool, slice: int, rv: seq<ColorSegment>)
    returns (rv': seq<ColorSegment>)
    requires ValidBitmap(img) && 0 <= slice < SliceCount(img)
    requires c.dir == Diagonal
    ensures rv' == rv + SliceBlock(img, c, uni, slice)
  {
    var w := img.Width;
    var h := img.Height;
    var d := uni || IsEven(slice);
    var z1 := if slice < h then 0 else slice - h + 1;
    var z2 := if slice < w then 0 else slice - w + 1;
    var len, prevCol;
    len, prevCol, rv' := ExtractSlice(img, c, slice, d, rv);
    ghost var close := CloseRun(DSegment, SliceColors(img, c, slice, d), c.dir, !d);
    CloseAfter(rv, DSegment, SliceColors(img, c, slice, d), c.dir, !d);
    rv' := rv' + [NewSegment(DSegment, prevCol, len + 1, !d)];   // close the last run
    assert rv' == rv + close;
    ghost var goBack: seq<ColorSegment> := [];
    if uni {   // the go-back run
      var slen := (slice - z1 - z2) + 1;
      assert slen == SliceLength(img, slice);
      goBack := [NewSegment(DSegment, 0, slen, true)];
      rv' := rv' + [NewSegment(DSegment, 0, slen, true)];
    }
    assert rv' == rv + close + goBack;
    ghost var sep := [SliceSeparator(w, h, slice, d, uni)];
    rv' := AppendSliceSeparator(w, h, slice, d, uni, rv');
    assert rv' == rv + close + goBack + sep;
    AppendThree(rv, close, goBack, sep);
    assert SliceBlock(img, c, uni, slice) == close + goBack + sep;
  }

  /** Appending three pieces one after the other appends their concatenation. */
  lemma AppendThree(rv: seq<ColorSegment>, a: seq<ColorSegment>, b: seq<ColorSegment>, c: seq<ColorSegment>)
    ensures rv + a + b + c == rv + (a + b + c)
  {
  }

  /** The line loop of `GetSegments` for a horizontal or vertical scan. */
  method ScanAllLines(img: Bitmap, c: L2LConf, uni: bool, h: bool) returns (rv: seq<ColorSegment>)
    requires ValidBitmap(img)
    requires c.dir == (if h then Horizontal else Vertical)
    ensures rv == ScanLines(img, c, uni, h, LineCount(img, h))
  {
    rv := [];
    var i := 0;
    while i < (if h then img.Height else img.Width)
      invariant 0 <= i <= LineCount(img, h)
      invariant rv == ScanLines(img, c, uni, h, i)
    {
      rv := ScanLine(img, c, uni, h, i, rv);
      ScanLinesNext(img, c, uni, h, i);
      i := i + 1;
    }
    assert i == LineCount(img, h);
  }

  /** The slice loop of `GetSegments` for a diagonal scan, after its
      leading separator. */
  method ScanAllSlices(img: Bitmap, c: L2LConf, uni: bool) returns (rv: seq<ColorSegment>)
    requires ValidBitmap(img)
    requires c.dir == Diagonal
    ensures rv == ScanSlices(img, c, uni, SliceCount(img))
  {
    rv := [VSep];
    var w := img.Width;
    var h := img.Height;
    var slice := 0;
    while slice < w + h - 1
      invariant 0 <= slice <= SliceCount(img)
      invariant rv == ScanSlices(img, c, uni, slice)
    {
      rv := ScanSlice(img, c, uni, slice, rv);
      ScanSlicesNext(img, c, uni, slice);
      slice := slice + 1;
    }
    assert slice == SliceCount(img);
  }

  /** `GetSegments`: the whole bitmap as colour segments in scan order. */
  method GetSegments(img: Bitmap, c: L2LConf, uni: bool) returns (rv: seq<ColorSegment>)
    requires ValidBitmap(img)
    ensures rv == Segments(img, c, uni)
  {
    rv := [];
    if c.dir == Horizontal || c.dir == Vertical {
      rv := ScanAllLines(img, c, uni, c.dir == Horizontal);
    } else if c.dir == Diagonal {
      rv := ScanAllSlices(img, c, uni);
    }
  }

  // ---------------------------------------------------------------------
  // What the scan promises

  /** `n` copies of colour `col`. */
  function Repeat(col: int, n: nat): (r: seq<int>)
    ensures |r| == n
  {
    if n == 0 then [] else Repeat(col, n - 1) + [col]
  }

  /** The pixel colours a list of segments stands for: each segment's
      colour repeated over the absolute value of its length. */
  function Expand(segs: seq<ColorSegment>): seq<int>
  {
    if segs == [] then []
    else
      var s := segs[|segs| - 1];
      Expand(segs[..|segs| - 1]) + Repeat(s.Color, Abs(s.PixLen))
  }

  /** A scan line never holds the colour -1, which the scan uses as "no colour yet". */
  predicate NoMarker(cols: seq<int>)
  {
    forall i :: 0 <= i < |cols| ==> cols[i] != -1
  }

  /** A run as a line emits it: of the line's kind, at least one pixel long,
      and negative exactly when the line is scanned in reverse. */
  predicate RunShaped(s: ColorSegment, kind: SegmentKind, reverse: bool)
  {
    s.Kind == kind && (if reverse then s.PixLen < 0 else s.PixLen > 0)
  }

  /** Runs are maximal: neighbouring runs have different colours. */
  predicate Maximal(segs: seq<ColorSegment>)
  {
    forall i :: 0 < i < |segs| ==> segs[i - 1].Color != segs[i].Color
  }

  /** The sum of the absolute lengths of a list of segments. */
  function TotalLength(segs: seq<ColorSegment>): nat
  {
    if segs == [] then 0 else TotalLength(segs[..|segs| - 1]) + Abs(segs[|segs| - 1].PixLen)
  }

  lemma ExpandAppend(segs: seq<ColorSegment>, s: ColorSegment)
    ensures Expand(segs + [s]) == Expand(segs) + Repeat(s.Color, Abs(s.PixLen))
  {
    assert (segs + [s])[..|segs|] == segs;
  }

  /** After the first pixel of a line the open run holds the last colour
      seen and at least one pixel; before it the state is the line start. */
  lemma {:induction false} ExtractStart(cols: seq<int>, dir: Direction, reverse: bool)
    ensures var st := Extract(LineStart, cols, dir, reverse);
      && (cols == [] ==> st == LineStart)
      && (cols != [] ==> st.len >= 0 && st.prevCol == cols[|cols| - 1])
  {
    if cols != [] {
      ExtractStart(cols[..|cols| - 1], dir, reverse);
    }
  }

  /** Every run emitted so far has the line's kind and sign. */
  lemma {:induction false} ExtractShape(cols: seq<int>, kind: SegmentKind, dir: Direction, reverse: bool)
    requires RunKind(dir) == Wrappers.Some(kind)
    ensures forall s :: s in Extract(LineStart, cols, dir, reverse).out ==> RunShaped(s, kind, reverse)
  {
    if cols != [] {
      var pre := cols[..|cols| - 1];
      ExtractShape(pre, kind, dir, reverse);
      ExtractStart(pre, dir, reverse);
    }
  }

  /** The emitted runs and the open run together cover every pixel seen. */
  lemma ExtractStepTiling(st: RunState, x: int, kind: SegmentKind, dir: Direction, reverse: bool)
    requires RunKind(dir) == Wrappers.Some(kind)
    requires st == LineStart || st.len >= 0
    ensures var st' := ExtractStep(st, x, dir, reverse);
      TotalLength(st'.out) + st'.len == TotalLength(st.out) + st.len + 1
  {
    if st.prevCol != -1 && st.prevCol != x {
      var seg := NewSegment(kind, st.prevCol, st.len + 1, reverse);
      assert (st.out + [seg])[..|st.out|] == st.out;
    }
  }

  lemma {:induction false} ExtractTiling(cols: seq<int>, kind: SegmentKind, dir: Direction, reverse: bool)
    requires RunKind(dir) == Wrappers.Some(kind)
    ensures var st := Extract(LineStart, cols, dir, reverse);
      TotalLength(st.out) + st.len + 1 == |cols|
  {
    if cols != [] {
      var pre := cols[..|cols| - 1];
      ExtractTiling(pre, kind, dir, reverse);
      ExtractStart(pre, dir, reverse);
      var st := Extract(LineStart, pre, dir, reverse);
      ExtractStepTiling(st, cols[|cols| - 1], kind, dir, reverse);
    }
  }

  /** On a line without the marker colour, the state is either the line
      start or has an open run of at least one pixel. */
  lemma ExtractReady(cols: seq<int>, dir: Direction, reverse: bool)
    requires NoMarker(cols)
    ensures var st := Extract(LineStart, cols, dir, reverse);
      && (st.prevCol == -1 ==> st == LineStart)
      && (st.prevCol != -1 ==> st.len >= 0)
  {
    ExtractStart(cols, dir, reverse);
    if cols != [] {
      assert cols[|cols| - 1] != -1;
    }
  }

  /** A non-empty sequence is its prefix followed by its last element. */
  lemma SplitLast(cols: seq<int>)
    requires cols != []
    ensures cols[..|cols| - 1] + [cols[|cols| - 1]] == cols
  {
  }

  lemma NoMarkerPrefix(cols: seq<int>)
    requires cols != [] && NoMarker(cols)
    ensures NoMarker(cols[..|cols| - 1])
  {
    var pre := cols[..|cols| - 1];
    forall i | 0 <= i < |pre| ensures pre[i] != -1 {
      assert pre[i] == cols[i];
    }
  }

  /** One step of the scan adds its pixel to what the state reads back
      as: if the runs emitted so far and the open run read back as the
      colours `seen`, after the step they read back as `seen + [x]`. */
  lemma ExtractStepExpand(st: RunState, seen: seq<int>, x: int, kind: SegmentKind, dir: Direction, reverse: bool)
    requires RunKind(dir) == Wrappers.Some(kind) && x != -1
    requires st.prevCol == -1 ==> st == LineStart
    requires st.prevCol != -1 ==> st.len >= 0
    requires Expand(st.out) + Repeat(st.prevCol, st.len + 1) == seen
    ensures var st' := ExtractStep(st, x, dir, reverse);
      st'.len >= 0 && Expand(st'.out) + Repeat(st'.prevCol, st'.len + 1) == seen + [x]
  {
    var e := Expand(st.out);
    var r := Repeat(st.prevCol, st.len + 1);
    if st.prevCol == -1 {
      assert r == [] && e == [];
      assert Repeat(x, 1) == [x];
    } else if st.prevCol != x {
      var seg := NewSegment(kind, st.prevCol, st.len + 1, reverse);
      ExpandAppend(st.out, seg);
      assert Abs(seg.PixLen) == st.len + 1;
      assert Repeat(x, 1) == [x];
    } else {
      assert Repeat(x, st.len + 2) == r + [x];
    }
  }

  /** Reading the state back: the runs emitted so far followed by the open
      run give back exactly the colours seen. */
  lemma {:induction false} ExtractInvariant(cols: seq<int>, kind: SegmentKind, dir: Direction, reverse: bool)
    requires NoMarker(cols) && RunKind(dir) == Wrappers.Some(kind)
    ensures var st := Extract(LineStart, cols, dir, reverse);
      st.len >= -1 && Expand(st.out) + Repeat(st.prevCol, st.len + 1) == cols
  {
    if cols != [] {
      var pre := cols[..|cols| - 1];
      var x := cols[|cols| - 1];
      NoMarkerPrefix(cols);
      ExtractInvariant(pre, kind, dir, reverse);
      ExtractReady(pre, dir, reverse);
      ExtractStepExpand(Extract(LineStart, pre, dir, reverse), pre, x, kind, dir, reverse);
      SplitLast(cols);
    }
  }

  /** The emitted runs are maximal: no two neighbours share a colour, and
      the last emitted run differs in colour from the open one. */
  lemma ExtractStepMaximal(st: RunState, x: int, kind: SegmentKind, dir: Direction, reverse: bool)
    requires RunKind(dir) == Wrappers.Some(kind)
    requires st.prevCol == -1 ==> st == LineStart
    requires Maximal(st.out) && (st.out != [] ==> st.out[|st.out| - 1].Color != st.prevCol)
    ensures var st' := ExtractStep(st, x, dir, reverse);
      Maximal(st'.out) && (st'.out != [] ==> st'.out[|st'.out| - 1].Color != st'.prevCol)
  {
  }

  lemma {:induction false} ExtractMaximal(cols: seq<int>, kind: SegmentKind, dir: Direction, reverse: bool)
    requires NoMarker(cols) && RunKind(dir) == Wrappers.Some(kind)
    ensures var st := Extract(LineStart, cols, dir, reverse);
      Maximal(st.out) && (st.out != [] ==> st.out[|st.out| - 1].Color != st.prevCol)
  {
    if cols != [] {
      var pre := cols[..|cols| - 1];
      NoMarkerPrefix(cols);
      ExtractMaximal(pre, kind, dir, reverse);
      ExtractStart(pre, dir, reverse);
      var st := Extract(LineStart, pre, dir, reverse);
      assert pre != [] ==> st.prevCol == cols[|cols| - 2];
      ExtractStepMaximal(st, cols[|cols| - 1], kind, dir, reverse);
    }
  }

  /** `CloseRun` tiles the line: the absolute lengths of its segments sum to
      the pixel count, and each has the line's kind and sign. */
  lemma CloseRunTiling(cols: seq<int>, kind: SegmentKind, dir: Direction, reverse: bool)
    requires cols != [] && RunKind(dir) == Wrappers.Some(kind)
    ensures var segs := CloseRun(kind, cols, dir, reverse);
      && TotalLength(segs) == |cols|
      && (forall s :: s in segs ==> RunShaped(s, kind, reverse))
  {
    ExtractShape(cols, kind, dir, reverse);
    ExtractTiling(cols, kind, dir, reverse);
    ExtractStart(cols, dir, reverse);
    var st := Extract(LineStart, cols, dir, reverse);
    var last := NewSegment(kind, st.prevCol, st.len + 1, reverse);
    assert (st.out + [last])[..|st.out|] == st.out;
  }

  /** `CloseRun` round-trips the line: expanding its segments gives back the
      line's colours pixel for pixel, and neighbouring segments have
      different colours, so the runs are the line's maximal runs. */
  lemma LineRoundTrip(cols: seq<int>, kind: SegmentKind, dir: Direction, reverse: bool)
    requires cols != [] && NoMarker(cols) && RunKind(dir) == Wrappers.Some(kind)
    ensures var segs := CloseRun(kind, cols, dir, reverse);
      Expand(segs) == cols && Maximal(segs)
  {
    ExtractStart(cols, dir, reverse);
    ExtractInvariant(cols, kind, dir, reverse);
    ExtractMaximal(cols, kind, dir, reverse);
    var st := Extract(LineStart, cols, dir, reverse);
    var last := NewSegment(kind, st.prevCol, st.len + 1, reverse);
    ExpandAppend(st.out, last);
    assert Abs(last.PixLen) == st.len + 1;
  }

  lemma {:induction false} ExpandLength(segs: seq<ColorSegment>)
    ensures |Expand(segs)| == TotalLength(segs)
  {
    if segs != [] {
      ExpandLength(segs[..|segs| - 1]);
    }
  }

  /** The runs of one line of a horizontal or vertical scan tile the line:
      their absolute lengths sum to the line's pixel count, they all have
      the line's kind, and they are negative exactly on lines scanned in
      reverse (odd lines, unless the engraving is unidirectional). */
  lemma LineTiling(img: Bitmap, c: L2LConf, uni: bool, h: bool, i: int)
    requires ValidBitmap(img) && 0 <= i < LineCount(img, h) && LineLength(img, h) > 0
    requires c.dir == (if h then Horizontal else Vertical)
    ensures var d := uni || IsEven(i);
      var segs := CloseRun(if h then XSegment else YSegment, LineColors(img, c, h, i, d), c.dir, !d);
      && TotalLength(segs) == LineLength(img, h)
      && (forall s :: s in segs ==> RunShaped(s, if h then XSegment else YSegment, !d))
  {
    var d := uni || IsEven(i);
    var cols := LineColors(img, c, h, i, d);
    CloseRunTiling(cols, if h then XSegment else YSegment, c.dir, !d);
  }

  /** The colours of a line read back from its runs: when no pixel has the
      marker colour -1 (always so when the power range is not negative), the
      runs expand to the line's colours pixel for pixel. */
  lemma LineColorsRoundTrip(img: Bitmap, c: L2LConf, uni: bool, h: bool, i: int)
    requires ValidBitmap(img) && 0 <= i < LineCount(img, h) && LineLength(img, h) > 0
    requires c.dir == (if h then Horizontal else Vertical)
    requires c.pwm ==> 0 <= c.minPower <= c.maxPower
    ensures var d := uni || IsEven(i);
      var segs := CloseRun(if h then XSegment else YSegment, LineColors(img, c, h, i, d), c.dir, !d);
      Expand(segs) == LineColors(img, c, h, i, d) && Maximal(segs)
  {
    var d := uni || IsEven(i);
    var cols := LineColors(img, c, h, i, d);
    forall k | 0 <= k < |cols| ensures cols[k] != -1 {
      var p := LinePixel(img, h, i, d, k);
      GetColorNotMarker(img, p.0, p.1, c.minPower, c.maxPower, c.pwm);
    }
    LineRoundTrip(cols, if h then XSegment else YSegment, c.dir, !d);
  }

  /** The number of separators in a list of segments. */
  function Separators(segs: seq<ColorSegment>): nat
  {
    if segs == [] then 0
    else Separators(segs[..|segs| - 1]) + (if IsSeparator(segs[|segs| - 1]) then 1 else 0)
  }

  lemma {:induction false} SeparatorsAppend(a: seq<ColorSegment>, b: seq<ColorSegment>)
    ensures Separators(a + b) == Separators(a) + Separators(b)
  {
    if b == [] {
      assert a + b == a;
    } else {
      var b' := b[..|b| - 1];
      assert (a + b)[..|a + b| - 1] == a + b';
      assert (a + b)[|a + b| - 1] == b[|b| - 1];
      SeparatorsAppend(a, b');
    }
  }

  /** The sum of the signed lengths of a list of segments: the net travel
      along the scan axis. */
  function SignedLength(segs: seq<ColorSegment>): int
  {
    if segs == [] then 0 else SignedLength(segs[..|segs| - 1]) + segs[|segs| - 1].PixLen
  }

  lemma {:induction false} SignedLengthAppend(a: seq<ColorSegment>, b: seq<ColorSegment>)
    ensures SignedLength(a + b) == SignedLength(a) + SignedLength(b)
  {
    if b == [] {
      assert a + b == a;
    } else {
      var b' := b[..|b| - 1];
      assert (a + b)[..|a + b| - 1] == a + b';
      assert (a + b)[|a + b| - 1] == b[|b| - 1];
      SignedLengthAppend(a, b');
    }
  }

  /** Segments none of which is a separator count no separator. */
  lemma {:induction false} NoSeparators(segs: seq<ColorSegment>)
    requires forall s :: s in segs ==> !IsSeparator(s)
    ensures Separators(segs) == 0
  {
    if segs != [] {
      var pre := segs[..|segs| - 1];
      assert forall s :: s in pre ==> s in segs;
      assert segs[|segs| - 1] in segs;
      NoSeparators(pre);
    }
  }

  /** Runs of one sign travel their total length forward or backward. */
  lemma {:induction false} ShapedTravel(segs: seq<ColorSegment>, kind: SegmentKind, reverse: bool)
    requires forall s :: s in segs ==> RunShaped(s, kind, reverse)
    ensures SignedLength(segs) == if reverse then -(TotalLength(segs) as int) else TotalLength(segs)
  {
    if segs != [] {
      var pre := segs[..|segs| - 1];
      assert forall s :: s in pre ==> s in segs;
      assert RunShaped(segs[|segs| - 1], kind, reverse);
      ShapedTravel(pre, kind, reverse);
    }
  }

  /** Every segment of a closed line or slice has the kind of its scan. */
  lemma CloseRunKinds(kind: SegmentKind, cols: seq<int>, dir: Direction, reverse: bool)
    requires RunKind(dir) == Wrappers.Some(kind)
    ensures forall s :: s in CloseRun(kind, cols, dir, reverse) ==> s.Kind == kind
  {
    ExtractShape(cols, kind, dir, reverse);
    var st := Extract(LineStart, cols, dir, reverse);
    assert forall s :: s in st.out + [NewSegment(kind, st.prevCol, st.len + 1, reverse)] ==> s in st.out || s.Kind == kind;
  }

  /** A block of runs of one kind, the go-back run and at most one separator
      holds as many separators as that last part. */
  lemma BlockSeparators(close: seq<ColorSegment>, goBack: seq<ColorSegment>, sep: seq<ColorSegment>,
                         kind: SegmentKind, n: int)
    requires kind == XSegment || kind == YSegment
    requires forall s :: s in close ==> s.Kind == kind
    requires goBack == [] || goBack == [NewSegment(kind, 0, n, true)]
    requires sep == [] || sep == [VSep] || sep == [HSep]
    ensures Separators(close + goBack + sep) == |sep|
  {
    forall s | s in close + goBack ensures !IsSeparator(s) {
      if s !in close {
        assert s in goBack;
      }
    }
    NoSeparators(close + goBack);
    SeparatorsAppend(close + goBack, sep);
    if sep != [] {
      assert sep[..0] == [];
    }
  }

  /** A line block holds one separator when another line follows it and
      none after the last line. */
  lemma LineBlockSeparators(img: Bitmap, c: L2LConf, uni: bool, h: bool, i: int)
    requires ValidBitmap(img) && 0 <= i < LineCount(img, h)
    requires c.dir == (if h then Horizontal else Vertical)
    ensures Separators(LineBlock(img, c, uni, h, i)) == if i < LineCount(img, h) - 1 then 1 else 0
  {
    var d := uni || IsEven(i);
    var kind := if h then XSegment else YSegment;
    var close := CloseRun(kind, LineColors(img, c, h, i, d), c.dir, !d);
    var n := LineLength(img, h);
    var goBack: seq<ColorSegment> := if uni then [NewSegment(kind, 0, n, true)] else [];
    var sep: seq<ColorSegment> := if i < LineCount(img, h) - 1 then [if h then VSep else HSep] else [];
    CloseRunKinds(kind, LineColors(img, c, h, i, d), c.dir, !d);
    BlockSeparators(close, goBack, sep, kind, n);
  }

  /** The net travel of a block of runs covering `n` pixels, all forward or
      all backward, then the go-back run if any and at most one separator. */
  lemma BlockTravel(close: seq<ColorSegment>, goBack: seq<ColorSegment>, sep: seq<ColorSegment>,
                    kind: SegmentKind, reverse: bool, n: nat)
    requires forall s :: s in close ==> RunShaped(s, kind, reverse)
    requires TotalLength(close) == n
    requires goBack == [] || goBack == [NewSegment(kind, 0, n, true)]
    requires sep == [] || sep == [VSep] || sep == [HSep]
    ensures SignedLength(close + goBack + sep) == (if reverse then -(n as int) else n as int) - |goBack| * n + |sep|
  {
    ShapedTravel(close, kind, reverse);
    SignedLengthAppend(close, goBack);
    SignedLengthAppend(close + goBack, sep);
    if goBack != [] {
      assert goBack[..0] == [];
    }
    if sep != [] {
      assert sep[..0] == [];
    }
  }

  /** The net travel of a line block along its line: the full line length,
      forward on even lines and backward on odd ones in bidirectional mode,
      and zero in unidirectional mode, where the go-back run returns the
      head to where the line began; plus one for the separator that steps
      to the next line. */
  lemma LineBlockTravel(img: Bitmap, c: L2LConf, uni: bool, h: bool, i: int)
    requires ValidBitmap(img) && 0 <= i < LineCount(img, h) && LineLength(img, h) > 0
    requires c.dir == (if h then Horizontal else Vertical)
    ensures var n: int := LineLength(img, h);
      SignedLength(LineBlock(img, c, uni, h, i))
      == (if uni then 0 else if IsEven(i) then n else -n) + (if i < LineCount(img, h) - 1 then 1 else 0)
  {
    var d := uni || IsEven(i);
    var kind := if h then XSegment else YSegment;
    var close := CloseRun(kind, LineColors(img, c, h, i, d), c.dir, !d);
    var n := LineLength(img, h);
    var goBack: seq<ColorSegment> := if uni then [NewSegment(kind, 0, n, true)] else [];
    var sep: seq<ColorSegment> := if i < LineCount(img, h) - 1 then [if h then VSep else HSep] else [];
    LineTiling(img, c, uni, h, i);
    BlockTravel(close, goBack, sep, kind, !d, n);
  }

  /** Joining blocks adds up their separators: when block i holds one
      separator for i < m and none from m on, the joined list holds
      min(|blocks|, m) of them. */
  lemma {:induction false} ConcatSeparators(blocks: seq<seq<ColorSegment>>, m: nat)
    requires forall i :: 0 <= i < |blocks| ==> Separators(blocks[i]) == if i < m then 1 else 0
    ensures Separators(Concat(blocks)) == Min(|blocks|, m)
  {
    if blocks != [] {
      var pre := blocks[..|blocks| - 1];
      assert forall i :: 0 <= i < |pre| ==> pre[i] == blocks[i];
      ConcatSeparators(pre, m);
      SeparatorsAppend(Concat(pre), blocks[|blocks| - 1]);
    }
  }

  /** A horizontal or vertical scan writes one separator between
      consecutive lines and none after the last. */
  lemma ScanLinesSeparators(img: Bitmap, c: L2LConf, uni: bool, h: bool, count: nat)
    requires ValidBitmap(img) && count <= LineCount(img, h)
    requires c.dir == (if h then Horizontal else Vertical)
    ensures Separators(ScanLines(img, c, uni, h, count)) + (if 0 < count == LineCount(img, h) then 1 else 0) == count
  {
    var blocks := LineBlocks(img, c, uni, h, count);
    var m: nat := if count == 0 then 0 else LineCount(img, h) - 1;
    forall i | 0 <= i < |blocks|
      ensures Separators(blocks[i]) == if i < m then 1 else 0
    {
      LineBlockSeparators(img, c, uni, h, i);
    }
    ConcatSeparators(blocks, m);
  }

  /** A diagonal slice ends with exactly one separator. */
  lemma SliceBlockSeparators(img: Bitmap, c: L2LConf, uni: bool, slice: int)
    requires ValidBitmap(img) && 0 <= slice < SliceCount(img)
    requires c.dir == Diagonal
    ensures Separators(SliceBlock(img, c, uni, slice)) == 1
  {
    var d := uni || IsEven(slice);
    var cols := SliceColors(img, c, slice, d);
    var close := CloseRun(DSegment, cols, c.dir, !d);
    var goBack: seq<ColorSegment> := if uni then [NewSegment(DSegment, 0, SliceLength(img, slice), true)] else [];
    var sep := SliceSeparator(img.Width, img.Height, slice, d, uni);
    CloseRunKinds(DSegment, cols, c.dir, !d);
    NoSeparators(close + goBack);
    assert SliceBlock(img, c, uni, slice) == (close + goBack) + [sep];
    assert sep == VSep || sep == HSep;
    SeparatorsAppend(close + goBack, [sep]);
  }

  /** A diagonal scan opens with a `VSeparator` and writes one more
      separator after every slice, the last included. */
  lemma ScanSlicesSeparators(img: Bitmap, c: L2LConf, uni: bool, count: nat)
    requires ValidBitmap(img) && count <= SliceCount(img)
    requires c.dir == Diagonal
    ensures ScanSlices(img, c, uni, count)[0] == VSep
    ensures Separators(ScanSlices(img, c, uni, count)) == count + 1
  {
    var blocks := SliceBlocks(img, c, uni, count);
    forall i | 0 <= i < |blocks|
      ensures Separators(blocks[i]) == if i < count then 1 else 0
    {
      SliceBlockSeparators(img, c, uni, i);
    }
    ConcatSeparators(blocks, count);
    SeparatorsAppend([VSep], Concat(blocks));
    assert [VSep][..0] == [];
  }
}

# LaserGRBL conversion pipeline, modelled in Dafny

This project models the part of LaserGRBL that turns a laser job into
G-code, and proves properties of that model:

- **Raster line-to-line engraving** (`GrblFile.cs`).
  - `GetSegments` and `ExtractSegment` run-length encode the bitmap. They scan horizontal or vertical lines in alternating directions, or anti-diagonal slices. `GetColor` quantises each pixel.
  - The `ToGCodeNumber` overrides of the five `ColorSegment` kinds move a cumulative integer cursor. `ImageLine2Line` emits one instruction per segment.
  - `OptimizeLine2Line` drops the zero-power travel moves. It flushes one skip move on every power-on edge.
- **Travel-order optimiser** (`GrblFile.cs`).
  - `OptimizePaths` orders paths greedily by nearest neighbour over a squared-distance cost matrix, starting from the path nearest the origin.
  - `ParallelOptimizePaths` and `GetTaskJob` split large inputs into blocks of at most 2048 paths and concatenate the per-block results.
- **Bounding ranges** (`ProgramRange` with `XYRange`, `SRange` and `Range`, plus `Quadrant`). They record the minimum and maximum seen per axis, the drawing and moving ranges, and the spindle range.
- **Potrace curve export** (`CsPotraceExportGCODE.cs`).
  - Each path becomes one skip move followed by one instruction per curve.
  - A Bezier becomes biarcs, emitted as centre-format `G2`/`G3` arcs (section 3.5.3 of the NIST RS274/NGC Interpreter, version 3).
  - Straight `G1` moves are the fallback.
  - `FormatNumber` renders the numbers.
- **Geometry** (`Curve.cs`, `DPoint.cs`): the points and curves the optimiser and the exporter consume.

Modules:

| file | module | contents |
|---|---|---|
| numbers.dfy | `Wrappers`, `Numbers` | `Option`; doubles as `NaN` or a real; decimal bounds; C# integer division; round-half-away and round-half-even |
| format.dfy | `Format` | the `"0.###"` renderer, a decimal reader and the round trip between them |
| geometry.dfy | `Geometry` | the `DPoint` class, the `Curve` value, `LinearLength` |
| programrange.dfy | `Ranges` | the range classes over a value-level specification; `Analyze`'s range updates; `Quadrant` |
| pathoptimizer.dfy | `PathOptimizer` | the cost matrix, the greedy order, block splitting, the parallel order |
| raster.dfy | `Raster` | colour quantisation, the segmenter's scan loops, tiling and separator counts |
| lineemitter.dfy | `LineEmitter` | cursor travel, `ToGCodeNumber`, `ImageLine2Line`, `OptimizeLine2Line` |
| potracegcode.dfy | `PotraceExport` | `GetArcGC`, `OnPathSegment`, `OnPathBegin`, `OnPathEnd`, `GetPathGC`, `Export2GCode` |

Mutable state takes the form the program gives it:

- `DPoint` and the range classes are Dafny classes with `modifies` clauses.
- The lists the loops append to are `seq` variables, or the `Lines` field of `CommandList`.
- `OptimizePaths` fills a two-dimensional `array2` cost matrix.

Each loop is proved against a function that specifies it. The properties are then proved about those functions.

## Model

| member | source | states |
|---|---|---|
| Geometry.DPoint.constructor | LaserGRBL/CsPotrace/DPoint.cs:23-27 | `DPoint(x, y)` stores `x` in `X` and `y` in `Y` |
| Geometry.DPoint.Default | LaserGRBL/CsPotrace/DPoint.cs:34-36 | the parameterless constructor leaves both coordinates at 0 |
| Geometry.DPoint.Copy | LaserGRBL/CsPotrace/DPoint.cs:29-32 | `copy()` returns a freshly allocated point with the same `X` and `Y` |
| Geometry.MoveCopy | LaserGRBL/CsPotrace/DPoint.cs:29-32 | moving a copy leaves the original point where it was, because the copy is a new object |
| Geometry.MakeCurve | LaserGRBL/CsPotrace/Curve.cs:44-51 | the curve constructor stores the kind, both endpoints and both control points unchanged |
| Geometry.SquaredLinearLength | LaserGRBL/CsPotrace/Curve.cs:53-61 | the squared length is NaN exactly when an endpoint coordinate is NaN; otherwise it is non-negative |
| Geometry.LinearLengthOfClosedCurve | LaserGRBL/CsPotrace/Curve.cs:57-59 | a curve whose two endpoints coincide has length 0 |
| Geometry.LinearLengthSymmetric | LaserGRBL/CsPotrace/Curve.cs:57-59 | swapping `A` and `B` gives the same length |
| Geometry.LinearLengthIgnoresControlPoints | LaserGRBL/CsPotrace/Curve.cs:53-61 | two curves with the same endpoints have the same length, whatever their control points |
| Format.NatToStringRoundTrip | LaserGRBL/CsPotrace/CsPotraceExportGCODE.cs:191 | the integer part printed in decimal digits reads back as the same number |
| Format.FractionReal | LaserGRBL/CsPotrace/CsPotraceExportGCODE.cs:191 | up to three fraction digits with trailing zeros dropped read back as thousandths |
| Format.RenderMagnitudeRoundTrip | LaserGRBL/CsPotrace/CsPotraceExportGCODE.cs:191 | a non-negative count of thousandths rendered as `"0.###"` reads back as that many thousandths |
| Format.RenderThousandthsRoundTrip | LaserGRBL/CsPotrace/CsPotraceExportGCODE.cs:191 | a signed count of thousandths, rendered with its minus sign, reads back as its value |
| Format.FormatNumberRoundTrip | LaserGRBL/CsPotrace/CsPotraceExportGCODE.cs:188-192 | `FormatNumber` prints `"0"` for NaN; otherwise the text reads back as `number/scale` rounded half away from zero to thousandths (which `Numbers.Thousandths` keeps within 1/2000 of it) |
| Format.FormatNumberDigits | LaserGRBL/CsPotrace/CsPotraceExportGCODE.cs:188-192 | `FormatNumber` prints at most three fraction digits and never a trailing zero after the point |
| Format.ThousandthsDigits | LaserGRBL/CsPotrace/CsPotraceExportGCODE.cs:191 | every `"0.###"` rendering has no point, or one to three fraction digits that do not end in 0 |
| Format.FormatValueRoundTrip | LaserGRBL/GrblFile.cs:929-930 | `GrblFile.formatnumber(double)` prints text that reads back as the value rounded to thousandths |
| Ranges.UpdateSpec | LaserGRBL/GrblFile.cs:1324-1328 | after an update the range contains the new value and everything it contained before; each bound is either the old bound or the value |
| Ranges.ResetSpec | LaserGRBL/GrblFile.cs:1330-1337 | a reset range is not valid and contains no decimal |
| Ranges.UpdateAllSpec | LaserGRBL/GrblFile.cs:1324-1334 | after a reset and a series of updates the range contains every value, and both bounds are values that were seen; with no values it is still the reset range |
| Ranges.ValidAfter | LaserGRBL/GrblFile.cs:1336-1337 | `ValidRange` holds after a series of updates iff some value differs from `decimal.MaxValue` and some value differs from `decimal.MinValue` |
| Ranges.OrderedUpdate | LaserGRBL/GrblFile.cs:1324-1328 | updates keep a range either reset or ordered, and after one update `Min <= Max` |
| Ranges.SValidAfter | LaserGRBL/GrblFile.cs:1407-1408 | the spindle range is valid after a series of updates iff two of the values differ and one of them is positive |
| Ranges.UpdateRectSpec | LaserGRBL/GrblFile.cs:1349-1356 | an arc's bounding rectangle update makes the range contain both opposite corners and keeps every point it contained |
| Ranges.ResetInside | LaserGRBL/GrblFile.cs:1446-1451 | after a reset the drawing range lies inside the moving range |
| Ranges.XYRangeUpdateInside | LaserGRBL/GrblFile.cs:1431-1435 | a point update always widens the moving range and the drawing range only when drawing, so the drawing range stays inside the moving range |
| Ranges.XYRectUpdateInside | LaserGRBL/GrblFile.cs:1437-1441 | the same holds for the rectangle update |
| Ranges.AnalyzeStepSpec | LaserGRBL/GrblFile.cs:1083-1098 | one analysed command only widens the ranges; its target or arc rectangle is in the moving range, also in the drawing range when the laser burns, and its `S` value is in the spindle range |
| Ranges.AnalyzedSpec | LaserGRBL/GrblFile.cs:1077-1105 | after `Analyze` the moving range contains the origin and every target, the drawing range contains every burning target and lies inside the moving range, and the spindle range contains every `S` value |
| Ranges.QuadrantSpec | LaserGRBL/GrblFile.cs:944-962 | `Quadrant` is `Unknown` iff the drawing range is not valid; quadrant I to IV holds every point of the range in that quadrant; `Mix` means no quadrant holds the whole range |
| Ranges.Range.constructor | LaserGRBL/GrblFile.cs:1321-1322 | a new range is the reset range |
| Ranges.Range.UpdateRange | LaserGRBL/GrblFile.cs:1324-1328 | the new bounds are the updated ones, and `Min <= val <= Max` afterwards |
| Ranges.Range.ResetRange | LaserGRBL/GrblFile.cs:1330-1334 | the bounds become `decimal.MaxValue` and `decimal.MinValue` |
| Ranges.Range.ValidRange | LaserGRBL/GrblFile.cs:1336-1337 | true exactly when the range is valid |
| Ranges.XYRange.constructor | LaserGRBL/GrblFile.cs:1340-1341 | both axes start reset, as two separate objects |
| Ranges.XYRange.UpdateRange | LaserGRBL/GrblFile.cs:1343-1347 | each axis with a value is updated; an axis without one is unchanged |
| Ranges.XYRange.UpdateRect | LaserGRBL/GrblFile.cs:1349-1356 | both corners of the rectangle are added to both axes |
| Ranges.XYRange.ResetRange | LaserGRBL/GrblFile.cs:1358-1362 | both axes are reset |
| Ranges.XYRange.ValidRange | LaserGRBL/GrblFile.cs:1364-1365 | true exactly when both axes are valid |
| Ranges.XYRange.Width | LaserGRBL/GrblFile.cs:1367-1368 | the `decimal` difference `Max - Min` of X, or `None` exactly where it falls outside the `decimal` range and .NET throws an overflow exception (always for a reset range); when it fits, `Min + width == Max`, and it is non-negative for a valid, ordered range |
| Ranges.XYRange.Height | LaserGRBL/GrblFile.cs:1370-1371 | the same as `Width`, for Y: `None` exactly where the subtraction overflows, otherwise `Min + height == Max`, non-negative for a valid, ordered range |
| Ranges.SRange.constructor | LaserGRBL/GrblFile.cs:1411 | the spindle range starts reset |
| Ranges.SRange.UpdateRange | LaserGRBL/GrblFile.cs:1413-1416 | the spindle value is added to the range |
| Ranges.SRange.ResetRange | LaserGRBL/GrblFile.cs:1418-1421 | the spindle range is reset |
| Ranges.SRange.ValidRange | LaserGRBL/GrblFile.cs:1423-1424 | true exactly when `Min != Max`, the bounds are not the sentinels, and `Max > 0` |
| Ranges.ProgramRange.constructor | LaserGRBL/GrblFile.cs:1427-1429 | all five ranges start reset and are distinct objects |
| Ranges.ProgramRange.UpdateXYRange | LaserGRBL/GrblFile.cs:1431-1435 | the moving range is always updated; the drawing range is updated only when `drawing` |
| Ranges.ProgramRange.UpdateXYRect | LaserGRBL/GrblFile.cs:1437-1441 | the same, for an arc's bounding rectangle |
| Ranges.ProgramRange.UpdateSRange | LaserGRBL/GrblFile.cs:1443-1444 | the spindle range is updated only when an `S` value is present |
| Ranges.ProgramRange.ResetRange | LaserGRBL/GrblFile.cs:1446-1451 | all three ranges are reset |
| Ranges.ProgramRange.Analyze | LaserGRBL/GrblFile.cs:1077-1105 | the loop leaves the ranges equal to the specification `Analyzed`, whose properties `Ranges.AnalyzedSpec` states |
| PathOptimizer.SquareDistanceProperties | LaserGRBL/GrblFile.cs:893-902 | the squared distance is NaN iff a coordinate is NaN; otherwise it is non-negative; it is symmetric; it is 0 from a point to itself; from the origin it equals `SquareDistanceZero` |
| PathOptimizer.FirstMinSpec | LaserGRBL/GrblFile.cs:846-857 | the strict `<` scan from `double.MaxValue` finds the first index of the least non-NaN value below the maximum, or none |
| PathOptimizer.NearestToZeroSpec | LaserGRBL/GrblFile.cs:801-831 | the first path is the lowest index whose start is strictly nearest the origin; it is path 0 when every distance is NaN or huge |
| PathOptimizer.SelectSpec | LaserGRBL/GrblFile.cs:844-864 | the next path is unvisited and is the lowest-index one with the least cost from the last path; the corrected choice falls back to the first unvisited path |
| PathOptimizer.SelectAgrees | LaserGRBL/GrblFile.cs:846-857 | when some unvisited cost is below `double.MaxValue`, the corrected choice and the choice as written agree |
| PathOptimizer.SelectAsWrittenRevisits | LaserGRBL/GrblFile.cs:846-857 | as written, when the last path ends at a NaN point, path 0 is chosen again even though it was already visited |
| PathOptimizer.RevisitingWalk | LaserGRBL/GrblFile.cs:839-864 | a concrete three-path input on which the program as written visits path 0 a second time |
| PathOptimizer.AsWrittenStalls | LaserGRBL/GrblFile.cs:844-864 | as written, when the current path is path 0, already visited, and it ends at a NaN point, one turn of the loop picks path 0 and `unvisited.Remove(0)` removes nothing: the loop state repeats, so the loop never ends |
| PathOptimizer.StallingWalk | LaserGRBL/GrblFile.cs:839-864 | a concrete two-path input (path 0 from the origin to a NaN point, path 1 starting at (1, 0)) on which the program as written starts at path 0 and then repeats the state (path 0, `[1]` unvisited) forever |
| PathOptimizer.GreedyVisitsAll | LaserGRBL/GrblFile.cs:844-864 | the greedy walk visits every unvisited path exactly once |
| PathOptimizer.OrderIsPermutation | LaserGRBL/GrblFile.cs:795-866 | the optimised order is a permutation of `0..n` |
| PathOptimizer.OrderOfFew | LaserGRBL/GrblFile.cs:797-798 | a list of at most one path is returned unchanged |
| PathOptimizer.CostMatrix | LaserGRBL/GrblFile.cs:805-831 | `costs[c1, c2]` is `double.MaxValue` on the diagonal and the squared distance from the end of path `c1` to the start of `c2` elsewhere; the loop finds the path nearest the origin |
| PathOptimizer.PickNext | LaserGRBL/GrblFile.cs:846-857 | the inner loop over `unvisited` returns the specified next path |
| PathOptimizer.OptimizePaths | LaserGRBL/GrblFile.cs:795-867 | the result is the input permuted by the greedy order |
| PathOptimizer.BlockCountIsCeiling | LaserGRBL/GrblFile.cs:762-764 | `blocknum` is `ceil(n / 2048)` |
| PathOptimizer.FromBounds | LaserGRBL/GrblFile.cs:787-788 | the block bounds `i*n/k` run from 0 to `n` without decreasing, so the blocks are contiguous, disjoint and cover `0..n` |
| PathOptimizer.GetTaskJob | LaserGRBL/GrblFile.cs:785-793 | the job of task `i` is the slice from `i*n/k` to `(i+1)*n/k` |
| PathOptimizer.BlockSize | LaserGRBL/GrblFile.cs:762-788 | no job holds more than 2048 paths |
| PathOptimizer.BlockOrdersEnumerate | LaserGRBL/GrblFile.cs:770-773 | each task's order is a permutation of its own block |
| PathOptimizer.BlocksEnumerate | LaserGRBL/GrblFile.cs:775-780 | concatenating the block orders, shifted to their blocks, enumerates the covered prefix of `0..n` |
| PathOptimizer.ParallelOrderIsPermutation | LaserGRBL/GrblFile.cs:757-783 | the parallel order is a permutation of `0..n` |
| PathOptimizer.PermuteBlock | LaserGRBL/GrblFile.cs:775-780 | appending block `i`'s result is the same as permuting the input by the next block's order |
| PathOptimizer.ParallelOptimizePaths | LaserGRBL/GrblFile.cs:757-783 | the result is the input permuted by the parallel order: unchanged for at most one path, a single `OptimizePaths` for one block, and the block results in block order otherwise |
| Raster.FillingKindsDisjoint | LaserGRBL/GrblFile.cs:258-275 | no direction is both raster and vector filling, and `None` is neither |
| Raster.Quantize | LaserGRBL/GrblFile.cs:916-927 | raw 0 stays 0; without pwm the raw value is kept; with pwm a nonzero value lands in `[min, max]` when `min <= max` |
| Raster.GetColorNotMarker | LaserGRBL/GrblFile.cs:916-927 | with non-negative power bounds no pixel colour equals the `-1` "no colour yet" marker |
| Raster.LinePixel | LaserGRBL/GrblFile.cs:630-637 | every pixel a horizontal or vertical scan visits is inside the bitmap and on the current line |
| Raster.SlicePixel | LaserGRBL/GrblFile.cs:692-696 | every pixel `(j, slice-j)` a diagonal scan visits is inside the bitmap |
| Raster.SliceColors | LaserGRBL/GrblFile.cs:692-696 | slice `slice` visits `slice-z1-z2+1` pixels |
| Raster.ExtractSegment | LaserGRBL/GrblFile.cs:735-755 | one call performs the specified run-length step: it extends the run, or closes it and starts a new one when the colour changes |
| Raster.ExtractLine | LaserGRBL/GrblFile.cs:636-637 | the pixel loop of one line folds `ExtractSegment` over the line's colours in scan order |
| Raster.ScanLine | LaserGRBL/GrblFile.cs:630-656 | one line appends its runs, the closing run, the go-back segment when unidirectional, and a separator unless it is the last line |
| Raster.ExtractSlice | LaserGRBL/GrblFile.cs:695-696 | the pixel loop of one slice folds `ExtractSegment` over the slice's colours in scan order |
| Raster.ScanSlice | LaserGRBL/GrblFile.cs:685-729 | one slice appends its runs, the closing run, the go-back segment when unidirectional, and the separator chosen by the slice's part of the image |
| Raster.ScanAllLines | LaserGRBL/GrblFile.cs:630-657 | the line loop produces the concatenation of the line blocks |
| Raster.ScanAllSlices | LaserGRBL/GrblFile.cs:681-729 | the diagonal loop produces a leading `VSeparator` and the slice blocks of all `w+h-1` slices |
| Raster.GetSegments | LaserGRBL/GrblFile.cs:621-733 | the segment list is the one specified for the scan direction; other directions give none |
| Raster.ExtractTiling | LaserGRBL/GrblFile.cs:735-755 | the closed runs plus the open run account for every pixel seen |
| Raster.ExtractInvariant | LaserGRBL/GrblFile.cs:735-755 | expanding the closed runs and the open run gives back exactly the colours seen |
| Raster.ExtractMaximal | LaserGRBL/GrblFile.cs:742-752 | neighbouring runs have different colours |
| Raster.CloseRunTiling | LaserGRBL/GrblFile.cs:636-642 | a line's runs have absolute lengths summing to the line length, all of the line's kind, negative on reversed lines |
| Raster.LineRoundTrip | LaserGRBL/GrblFile.cs:636-642 | expanding a line's runs gives back its colour sequence, and the runs are maximal |
| Raster.LineColorsRoundTrip | LaserGRBL/GrblFile.cs:630-642 | the same for the colours read from the bitmap |
| Raster.LineTiling | LaserGRBL/GrblFile.cs:630-642 | on each scanned line the runs tile the line; their direction follows `uni` or `IsEven(i)` |
| Raster.LineBlockSeparators | LaserGRBL/GrblFile.cs:644-656 | each line block holds one separator, except the last, which holds none |
| Raster.LineBlockTravel | LaserGRBL/GrblFile.cs:632-656 | a line block's signed length is `n` on even lines and `-n` on odd ones, 0 when unidirectional because of the go-back, plus 1 for the separator |
| Raster.ScanLinesSeparators | LaserGRBL/GrblFile.cs:630-657 | a scan of `k` lines holds `k-1` separators when it ends at the last line, and `k` otherwise |
| Raster.SliceBlockSeparators | LaserGRBL/GrblFile.cs:697-728 | every diagonal slice, the last included, ends with exactly one separator |
| Raster.ScanSlicesSeparators | LaserGRBL/GrblFile.cs:681-729 | a diagonal scan starts with a `VSeparator` and holds one more separator than slices |
| LineEmitter.FormatLaserPowerReads | LaserGRBL/GrblFile.cs:163-171 | the power word is `S` followed by a number that reads back: on Smoothie as `color/255` rounded half away from zero to hundredths, with exactly two digits after the point; on other firmwares as `color` itself, with no point |
| LineEmitter.HundredthsReads | LaserGRBL/GrblFile.cs:166 | the `"0.00"` rendering of `q` hundredths reads back as `q/100` and has exactly two digits after its point |
| LineEmitter.IntToStringReads | LaserGRBL/GrblFile.cs:170 | the `{0}` rendering of an integer reads back as that integer and holds no point |
| LineEmitter.SegmentEffects | LaserGRBL/GrblFile.cs:180-256 | `XSegment` and `YSegment` move only their own axis by the signed length; `DSegment` adds it to X and subtracts it from Y; separators move +1; only a separator with negative length throws |
| LineEmitter.ReversedTravel | LaserGRBL/GrblFile.cs:140-144 | a reversed segment moves the cursor exactly opposite to the forward one |
| LineEmitter.TravelAppend | LaserGRBL/GrblFile.cs:508-551 | the cursor displacement of two segment lists in sequence is the sum of their displacements |
| LineEmitter.TravelAlong | LaserGRBL/GrblFile.cs:180-204 | runs of one axis move the cursor along that axis by their total signed length |
| LineEmitter.LineBlockCursor | LaserGRBL/GrblFile.cs:630-656 | a line block moves the cursor by the line length, with sign by direction or 0 when unidirectional, and one step across unless it is the last line |
| LineEmitter.ScanLinesCursor | LaserGRBL/GrblFile.cs:630-657 | a scan of `k` lines moves the cursor by the summed along-line travel and `k-1` or `k` steps across |
| LineEmitter.SegmentWordsAxes | LaserGRBL/GrblFile.cs:180-256 | an instruction has an X word iff the segment moves X and a Y word iff it moves Y, with the updated cursor values; only separators lack a power word |
| LineEmitter.RoundedTextRoundTrip | LaserGRBL/GrblFile.cs:153-157 | the coordinate text reads back as the value rounded half to even to three decimals |
| LineEmitter.CoordinateRoundTrip | LaserGRBL/GrblFile.cs:153-157 | a coordinate reads back as `cum/res + offset` rounded to three decimals, within 1/2000 of it |
| LineEmitter.ToGCodeNumber | LaserGRBL/GrblFile.cs:176-256 | it throws exactly for a separator of negative length; otherwise it moves the cursor by the segment and renders the moved coordinates and the power word |
| LineEmitter.LineTextAt | LaserGRBL/GrblFile.cs:511-549 | instruction `k` has the G0/G1 prefix only when `Fast` differs from the previous segment's, and carries `S0` or `lOff` only for a separator after a non-fast segment |
| LineEmitter.EmitSegment | LaserGRBL/GrblFile.cs:511-549 | one pass of the loop keeps `fast` and the cursor equal to their values after the segments so far, and emits that segment's instruction |
| LineEmitter.EmitSegments | LaserGRBL/GrblFile.cs:504-551 | one instruction per segment, in order, unless a segment throws |
| LineEmitter.SegmentsNoThrow | LaserGRBL/GrblFile.cs:621-733 | the segmenter never produces a separator that throws |
| LineEmitter.CoalesceCommand | LaserGRBL/GrblFile.cs:566-616 | one pass of the loop keeps `cumulate` and the tracked position equal to their values after the commands so far, and contributes the specified piece |
| LineEmitter.OptimizeLine2Line | LaserGRBL/GrblFile.cs:558-619 | the output keeps every non-movement command and every movement after which `cumulate` is false, in order, with one skip move on each true-to-false edge |
| LineEmitter.CumulatingIsLastSetting | LaserGRBL/GrblFile.cs:572-590 | `cumulate` is true iff the last power-setting command turned the laser off |
| LineEmitter.PositionXIsLastMove | LaserGRBL/GrblFile.cs:562-609 | the tracked X is the X of the last movement with an X word, or `oX` when there is none |
| LineEmitter.PositionYIsLastMove | LaserGRBL/GrblFile.cs:563-609 | the tracked Y is the Y of the last movement with a Y word, or `oY` when there is none |
| LineEmitter.CoalescedPassThrough | LaserGRBL/GrblFile.cs:566-616 | a program that never turns the laser off is left unchanged |
| LineEmitter.CoalescedLength | LaserGRBL/GrblFile.cs:593-612 | output length plus absorbed moves equals input length plus power-on edges |
| LineEmitter.ImageLine2Line | LaserGRBL/GrblFile.cs:502-555 | the program is the coalesced list of one instruction per segment of the image |
| PotraceExport.FieldReads | LaserGRBL/CsPotrace/CsPotraceExportGCODE.cs:188-192 | a `X`, `Y`, `I` or `J` word is one space-free word that reads back as the printed number |
| PotraceExport.MoveReads | LaserGRBL/CsPotrace/CsPotraceExportGCODE.cs:185 | a move's X and Y words read back as the end point plus offset, divided by the scale |
| PotraceExport.ArcWordsRead | LaserGRBL/CsPotrace/CsPotraceExportGCODE.cs:174-185 | a long arc (`LinearLength > 2`) gives `G2` when counter-clockwise and `G3` when clockwise, with X/Y at `P2` plus offset and I/J = `C - P1` without offset; a short one gives `G1` to `P2` |
| PotraceExport.GetArcGCReads | LaserGRBL/CsPotrace/CsPotraceExportGCODE.cs:169-186 | the arc text splits into exactly those words |
| PotraceExport.ArcCommandsSpec | LaserGRBL/CsPotrace/CsPotraceExportGCODE.cs:114-125 | one instruction per biarc half whose `Length` and `LinearLength` are both non-NaN, in order, and none for the others |
| PotraceExport.OnCodeOnlyFirst | LaserGRBL/CsPotrace/CsPotraceExportGCODE.cs:80-141 | the laser-on suffix is appended to every instruction of curve 0, and to none of the others |
| PotraceExport.SegmentCount | LaserGRBL/CsPotrace/CsPotraceExportGCODE.cs:82-143 | a NaN-length curve emits nothing; a fitted Bezier emits one instruction per usable half; a line, or a Bezier whose fitting returns null or throws, emits one |
| PotraceExport.StraightCutReads | LaserGRBL/CsPotrace/CsPotraceExportGCODE.cs:87-142 | that single instruction is `G1` to `B` plus offset, followed by `lOn` on curve 0 |
| PotraceExport.SegmentMotions | LaserGRBL/CsPotrace/CsPotraceExportGCODE.cs:77-144 | every instruction of a curve starts with `G1`, `G2` or `G3` |
| PotraceExport.SegmentsCount | LaserGRBL/CsPotrace/CsPotraceExportGCODE.cs:64-68 | the curve loop emits the sum of the per-curve counts |
| PotraceExport.PathFirst | LaserGRBL/CsPotrace/CsPotraceExportGCODE.cs:146-157 | a non-empty path starts with the begin command |
| PotraceExport.PathBeginReads | LaserGRBL/CsPotrace/CsPotraceExportGCODE.cs:146-157 | the begin command is `skipcmd X.. Y.. lOff` to the first curve's start plus offset |
| PotraceExport.PathShape | LaserGRBL/CsPotrace/CsPotraceExportGCODE.cs:59-75 | an empty path emits nothing; otherwise exactly one skip move to `Curves[0].A` comes first, followed only by `G1`/`G2`/`G3` instructions, one count per curve |
| PotraceExport.ExportAppend | LaserGRBL/CsPotrace/CsPotraceExportGCODE.cs:45-46 | the export of two lists of paths is the concatenation of their exports |
| PotraceExport.ExportSplit | LaserGRBL/CsPotrace/CsPotraceExportGCODE.cs:45-46 | the export is the in-order concatenation of the paths' commands, each with the offset multiplied by the scale |
| PotraceExport.OffsetPremultiplied | LaserGRBL/CsPotrace/CsPotraceExportGCODE.cs:45-46 | because the offset is multiplied by the scale before the division, an emitted coordinate is `p/scale + o` |
| PotraceExport.ExportPathStart | LaserGRBL/CsPotrace/CsPotraceExportGCODE.cs:45-46 | in the whole export each non-empty path begins with its skip move |
| PotraceExport.OnPathBegin | LaserGRBL/CsPotrace/CsPotraceExportGCODE.cs:146-157 | appends the begin command, or nothing for an empty path |
| PotraceExport.OnPathEnd | LaserGRBL/CsPotrace/CsPotraceExportGCODE.cs:159-167 | appends nothing |
| PotraceExport.AddArcs | LaserGRBL/CsPotrace/CsPotraceExportGCODE.cs:114-125 | the biarc loop appends the specified arc instructions |
| PotraceExport.OnPathSegment | LaserGRBL/CsPotrace/CsPotraceExportGCODE.cs:77-144 | appends exactly the specified instructions of one curve |
| PotraceExport.AddSegments | LaserGRBL/CsPotrace/CsPotraceExportGCODE.cs:64-68 | the curve loop appends every curve's instructions in order |
| PotraceExport.GetPathGC | LaserGRBL/CsPotrace/CsPotraceExportGCODE.cs:59-75 | returns a fresh list holding exactly the path's specified commands |

## Left out

- Floating point. A double is a real or NaN. Infinities, rounding of intermediate results and negative zero are not modelled. In particular, a negative value that rounds to zero prints `"0"`, as in .NET Framework; .NET Core would print `"-0"`.
- LineEmitter.RoundedText: prints every rounded value in plain decimal. The .NET Framework `double.ToString()` it models gives at most 15 significant digits and switches to E notation from 1E15 up; neither limit is modelled.
- `Math.Sqrt` has no exact counterpart over Dafny's reals.
- Geometry.SquaredLinearLength: models the square of `LinearLength`, not the square root. Every use in the program compares against NaN or `2`, and the square decides those the same way.
- Geometry.MakeCurve: a `Curve` stores the coordinates of its points, not shared `DPoint` references. Later mutation of a `DPoint` through another alias is not reflected in the curve.
- Format.FormatNumberRoundTrip: requires a nonzero `scale`. A zero scale would print an infinity, which is not modelled. The resolution of `L2LConf` is likewise required to be nonzero.
- `decimal` is modelled as a real within its bounds, so precision is not modelled.
- Ranges.XYRange.UpdateRect: requires the rectangle's corners to be within `decimal` bounds. The `double`-to-`decimal` conversion that would throw otherwise is not modelled. `XYRange.Center` is not modelled, being float arithmetic for display.
- Ranges.ProgramRange.Analyze: `GrblCommand.StatePositionBuilder` is not part of this model. Its per-command outputs are the input steps, and the timing (`TimeSpan` delays) is left out.
- `GrblCommand` parsing is not part of this model. A command is a record with optional X/Y/S and the flags `IsMovement`, `IsLaserON` and `IsLaserOFF`, and the text-to-command parser is the parameter `parse`.
- `BuildHelper` and `DeleteHelper` are not modelled, and neither is the exception rethrow in `OptimizeLine2Line`.
- LineEmitter.ImageLine2Line: the `Unidirectional Engraving` setting is the parameter `uni`, and `skipcmd` is a parameter.
- Raster.LineColorsRoundTrip: requires non-negative power bounds in pwm mode. With a negative `minPower` a pixel colour could equal the `-1` marker, and runs would then merge.
- `Algorithm.ApproxCubicBezier`, `CubicBezier` and the geometry inside `Arc` are not part of this model. Fitting is the parameter `approx`, with outcomes `Fitted`, `TooComplex` (null) and `Failed` (exception). An arc's `Length` and `LinearLength` are given values.
- PotraceExport.PathShape: the word-reading lemmas require `skipcmd`, `lOff` and `lOn` to contain no space. The output text itself is modelled for any strings.
- The debug drawing of `Export2GCode` (`g?.Draw*`, the preview bitmap) is left out; it never runs, because `debug` is false.
- PathOptimizer.ParallelOptimizePaths: the blocks are optimised one after another instead of in parallel; the result is the same, because the block results are concatenated in block order.
- PathOptimizer.GetTaskJob: the 32-bit overflow of `threadIndex * list.Count` is not modelled; it needs about two million paths or more.
- PathOptimizer.OptimizePaths: uses the corrected choice of the next path (see Findings), so it always ends and returns a permutation. The unused `changecost` parameter, `DirectionChange` and the commented-out `TravelCost` are not modelled.
- `LoadImageL2L` and `LoadImagePotrace` are not modelled, and neither are their prologue and epilogue commands, Potrace tracing, clipping, bitmap rotation, file I/O, settings, events or GDI+ rendering.
- `RasterToLaserForm.cs` is not modelled; it is user interface.
- `NumericBlock.cs` is not modelled; it wraps `float.Parse`.
- PathOptimizer.PickNext: implements the corrected choice: `bestIndex` starts at the first unvisited path instead of 0 (see Findings). The choice as written is `PathOptimizer.SelectAsWritten`.
- `FormatLaserPower` for Smoothie renders `color / 255.0` with `"0.00"`, modelled as rounding half away from zero to hundredths.

## Findings

| source | as written | input that shows it | evidently intended | confidence | as-written member | corrected member |
|---|---|---|---|---|---|---|
| LaserGRBL/GrblFile.cs:844-864 | `bestIndex` starts at 0, so when no unvisited cost is below `double.MaxValue` (the current path ends at a NaN point), path 0 is chosen even when it was already visited, and `unvisited.Remove(0)` removes nothing. When the current path is path 0 itself, the next turn starts from the same state: the loop never ends and `bestPath` grows without bound | two paths: path 0 from (0,0) to a NaN point, path 1 starting at (1,0); the walk starts at 0 and then picks 0 at every turn, with `[1]` always unvisited | pick an unvisited path, for example the first one, so the loop ends after one turn per path | not executed | PathOptimizer.StallingWalk | PathOptimizer.OrderIsPermutation |
| LaserGRBL/GrblFile.cs:846-860 | in the same situation with another current path, path 0 is appended a second time, so the result is not a permutation of the input | three paths: path 0 from (0,0) to (1,0), path 1 from (2,0) to a NaN point, path 2 starting at (5,0); the walk picks 0, 1, then 0 again | pick an unvisited path, so the output is a permutation of the input | not executed | PathOptimizer.RevisitingWalk | PathOptimizer.OrderIsPermutation |

# Hub target data: codec and aiming geometry

This project models `HubTargetData`, the record a Deadeye vision camera sends for each frame in which it looks for the
Hub target group. It also proves properties of that model. The record has two parts:

- **The JSON adapter** (`JsonAdapterImpl`). `fromJson` reads an object whose keys come from `id, sn, v, ep, r, d`.
  Each row `[x, y, w, h, area]` under `d` becomes a `Rect` with corners `(x, y)` and `(x + w, y + h)`. Keys that are
  missing keep their defaults, and any other key throws. `toJson` writes `id, sn, v, d`, deriving each target's width
  and height from its corners.
- **The geometry getters.** `isValid` is the camera's flag AND more than two targets. `getErrorPixels` is the midpoint
  of the first target's right edge and the last target's left edge, minus the frame centre. `errorRadians` and
  `interpolateT` are scalings of that error.

Modules:

- `Results`: Option and Result values.
- `Int32`: the JVM `Int`, whose `+` and `-` wrap modulo 2^32.
- `Json`: a JSON document as a value tree, plus the single-token reads of the JSON reader (`nextInt`, `nextString`,
  `nextBoolean`, `nextDouble`).
- `Deadeye`: the library's `Point` and `Rect` types.
- `Hub`: the record, its no-argument constructor and the geometry.
- `HubJson`: the decoder. `Decode` is a declarative specification: the first unreadable member decides the error;
  otherwise each scalar field holds the last value given for it, and the targets are the rows of every `d` member in
  document order. `FromJson` is the imperative one-pass loop of the source. The body of that loop (the `when` on
  `selectName`) is split out as `ReadMember`, and the row loop and the five-slot `IntArray` as `ReadRows` and `ReadRow`.
  `FromJson` is proved equal to `Decode`.
- `HubJsonEncode`: `Encode`, the `ToJson` loop proved equal to it, and the round trip.
- `HubJsonFacts`: the decoder's properties.
- `HubExamples`: one decoded frame worked through to its geometry.

`kFrameCenter` is a process-wide variable in the source. Here it is a parameter `frameCenter` of every geometry function,
with the precondition `frameCenter > 0`.

Points of the code worth knowing:

- The pixel error uses `targets[0].bottomRight.x` and `targets.last.topLeft.x` (lines 44-45), i.e. the inner edges of
  the group: the right edge of the first target and the left edge of the last one.
- While `kFrameCenter` still holds its `Int.MAX_VALUE` default (line 153), `kFrameCenter * 2` wraps to -2, so the angle
  has the wrong sign and is large (see Findings).
- The no-argument constructor sets `serial` to 0. The decoder's default for a missing `sn` is -1.

The `Int` arithmetic of the source is 32-bit and is modelled that way: `x + w` and `y + h` in the decoder, the width
and height differences in the encoder, and `maxX + minX` in `getErrorPixels`. `kFrameCenter * 2` in `errorRadians` is
32-bit in `Hub.ErrorRadiansAsWritten`, written as the equal `Int` sum `kFrameCenter + kFrameCenter`. The corrected
`Hub.ErrorRadians`, which the rest of the model uses, takes the product exactly.
The lemmas about the pixel error assume that `minX + maxX` fits an `Int` (`NoOverflow`), as it does for any real
capture. The round trip needs no such assumption: re-adding a wrapped difference restores the corner
(`Int32.AddSubCancel`).

## Model

| member | source | states |
|---|---|---|
| `Hub.Default` | src/main/kotlin/frc/robot/subsystems/HubTargetData.kt:25 | the no-argument constructor gives empty id, serial 0, flag false, no targets, and is never valid |
| `Hub.ValidityBoundary` | src/main/kotlin/frc/robot/subsystems/HubTargetData.kt:33-34 | with at most two targets a record is never valid, whatever the flag; with three or more it is valid exactly when the flag is set; a valid record has a target, so the error getters can be called |
| `Hub.ErrorPixelsMidpoint` | src/main/kotlin/frc/robot/subsystems/HubTargetData.kt:43-46 | without overflow, twice the pixel error is `first.bottomRight.x + last.topLeft.x - 2*kFrameCenter`; it is positive exactly when the group's midpoint is right of centre, and zero exactly when the group is centred |
| `Hub.ErrorPixelsReadsOnlyEdges` | src/main/kotlin/frc/robot/subsystems/HubTargetData.kt:43-46 | the pixel error depends only on the first target's right edge and the last target's left edge: not on id, serial, flag, the stored `errorPixels` field, or any other target |
| `Hub.ErrorPixelsShift` | src/main/kotlin/frc/robot/subsystems/HubTargetData.kt:43-46 | moving every target `s` pixels right moves the pixel error by exactly `s` |
| `Hub.IsValid` | src/main/kotlin/frc/robot/subsystems/HubTargetData.kt:33-34 | a valid record has the camera's flag set and at least three targets |
| `Hub.ErrorPixels` | src/main/kotlin/frc/robot/subsystems/HubTargetData.kt:43-47 | twice (the pixel error plus the frame centre) is the `Int` sum of the two inner edges, `first.bottomRight.x + last.topLeft.x`, wrapped to 32 bits |
| `Hub.ErrorRadians` | src/main/kotlin/frc/robot/subsystems/HubTargetData.kt:56-57 | the corrected angle, with `2*kFrameCenter` taken exactly rather than as an `Int` product: the angle times `2*kFrameCenter` is minus the pixel error (the error over the full frame width, with the sign flipped) |
| `Hub.ErrorRadiansAsWritten` | src/main/kotlin/frc/robot/subsystems/HubTargetData.kt:56-57 | the angle as written: `kFrameCenter * 2` is the 32-bit `Int` product, never 0 for a positive frame centre, and the angle times that product is minus the pixel error |
| `Hub.ErrorRadiansWrapFlipsSign` | src/main/kotlin/frc/robot/subsystems/HubTargetData.kt:57 | for `kFrameCenter >= 2^30` the product wraps to `2*kFrameCenter - 2^32`; the as-written angle then has the sign of the pixel error, and for a group off centre it is positive exactly when the corrected angle is negative |
| `Hub.ErrorRadiansSign` | src/main/kotlin/frc/robot/subsystems/HubTargetData.kt:56-57 | the angle is negative, zero or positive exactly when the pixel error is positive, zero or negative: a group right of centre gives a clockwise angle |
| `Hub.ErrorRadiansAsWrittenAgrees` | src/main/kotlin/frc/robot/subsystems/HubTargetData.kt:57 | for `kFrameCenter < 2^30`, the `Int` product `kFrameCenter * 2` does not wrap, and the as-written angle equals the corrected one |
| `Hub.ErrorRadiansOverflowFlipsSign` | src/main/kotlin/frc/robot/subsystems/HubTargetData.kt:57 | with `kFrameCenter = Int.MAX_VALUE` (the default at line 153) the product wraps to -2: the pixel error is negative, the as-written angle is half of it (negative), and the exact angle is positive |
| `Hub.ErrorRadiansShift` | src/main/kotlin/frc/robot/subsystems/HubTargetData.kt:56-57 | moving every target `s` pixels right changes the angle by an amount that, times `2*kFrameCenter`, is `-s`; so a right shift strictly decreases it |
| `Hub.InterpolateT` | src/main/kotlin/frc/robot/subsystems/HubTargetData.kt:69-70 | the factor is at most 1; it is 1 exactly when the pixel error is 0; it is non-negative exactly when the error is at most `kFrameCenter` in size; factor times `kFrameCenter` is `kFrameCenter - abs(error)` |
| `Hub.CenteredGroup` | src/main/kotlin/frc/robot/subsystems/HubTargetData.kt:43-70 | a group centred on the frame gives pixel error 0, angle 0 and interpolation factor 1 |
| `Hub.InterpolateTNotClamped` | src/main/kotlin/frc/robot/subsystems/HubTargetData.kt:69-70 | the factor is not clamped below: a group 150 pixels off a 100-pixel centre gives -0.5 |
| `HubJson.SelectName` | src/main/kotlin/frc/robot/subsystems/HubTargetData.kt:88 | `selectName(OPTIONS)` gives -1 or an index into `id, sn, v, ep, r, d` holding exactly the given name |
| `HubJson.SelectNameUnknown` | src/main/kotlin/frc/robot/subsystems/HubTargetData.kt:88 | `selectName` gives -1 exactly for a name outside the options |
| `HubJson.FirstBad` | src/main/kotlin/frc/robot/subsystems/HubTargetData.kt:87-118 | finds the first member that cannot be read: every earlier member is readable; none means every member is readable |
| `HubJson.ReadRow` | src/main/kotlin/frc/robot/subsystems/HubTargetData.kt:97-108 | the five `nextInt` reads into the `IntArray`, then the rect built from them, equal `RowRect`: a rect exactly when the row is an array of five integers |
| `HubJson.ReadRows` | src/main/kotlin/frc/robot/subsystems/HubTargetData.kt:94-111 | the array under `d` succeeds exactly when every row is readable, and then appends the row rects in order |
| `HubJson.ReadMember` | src/main/kotlin/frc/robot/subsystems/HubTargetData.kt:88-117 | one pass of the member loop succeeds exactly on a readable member, and then updates the fields as `Absorb` says: the selected field is overwritten, or the rows of `d` are appended; otherwise it fails with that member's error (unknown name or bad value) |
| `HubJson.DecodeStep` | src/main/kotlin/frc/robot/subsystems/HubTargetData.kt:87-118 | the fields of one more member are those of the members before it, updated by that member |
| `HubJson.FromJson` | src/main/kotlin/frc/robot/subsystems/HubTargetData.kt:78-123 | the one-pass decoding loop returns exactly what `Decode` specifies: the error of the first unreadable member, or the record of last values and concatenated rows |
| `HubJsonFacts.DecodeOkIff` | src/main/kotlin/frc/robot/subsystems/HubTargetData.kt:86-119 | decoding succeeds exactly on an object whose every member has a known name and a value of the right kind |
| `HubJsonFacts.DecodeRejectsUnknownName` | src/main/kotlin/frc/robot/subsystems/HubTargetData.kt:112-116 | a name outside `id, sn, v, ep, r, d` makes decoding fail, and no record is returned; if every earlier member is readable, the error names that key |
| `HubJsonFacts.DecodeDefaults` | src/main/kotlin/frc/robot/subsystems/HubTargetData.kt:80-85 | a missing key leaves its default: id `""`, serial -1, flag false, no targets |
| `HubJsonFacts.DecodeEmptyObject` | src/main/kotlin/frc/robot/subsystems/HubTargetData.kt:80-122 | `{}` decodes to the all-defaults record |
| `HubJsonFacts.DecodeLastScalarWins` | src/main/kotlin/frc/robot/subsystems/HubTargetData.kt:87-91 | for a repeated `id`, `sn` or `v`, the decoded field is the value of the last occurrence |
| `HubJsonFacts.LastWins` | src/main/kotlin/frc/robot/subsystems/HubTargetData.kt:87-93 | the value of a field is that of the last member whose name selects it |
| `HubJsonFacts.LastAbsent` | src/main/kotlin/frc/robot/subsystems/HubTargetData.kt:80-84 | a field that no member selects has no value, so its local keeps its initial value |
| `HubJsonFacts.RowRectCorners` | src/main/kotlin/frc/robot/subsystems/HubTargetData.kt:105-108 | the row `[x, y, w, h, area]` becomes the rect with top-left `(x, y)`, bottom-right `(x + w, y + h)` and that area |
| `HubJsonFacts.RectsOfInOrder` | src/main/kotlin/frc/robot/subsystems/HubTargetData.kt:96-109 | the rows become rects one for one, in input order: none is dropped, reordered or added |
| `HubJsonFacts.TargetsOfAppend` | src/main/kotlin/frc/robot/subsystems/HubTargetData.kt:94-110 | targets from consecutive members are concatenated, so a repeated `d` appends its rows after the earlier ones |
| `HubJsonFacts.TargetsOfWithoutD` | src/main/kotlin/frc/robot/subsystems/HubTargetData.kt:85-110 | members other than `d` add no targets |
| `HubJsonFacts.TargetsOfSingleD` | src/main/kotlin/frc/robot/subsystems/HubTargetData.kt:94-110 | when exactly one member is `d`, the targets are the rects of its rows |
| `HubJsonFacts.DecodeSingleD` | src/main/kotlin/frc/robot/subsystems/HubTargetData.kt:94-110 | with a single `d`, target `i` is the rect of row `i`, and there are as many targets as rows |
| `HubJsonEncode.Encode` | src/main/kotlin/frc/robot/subsystems/HubTargetData.kt:128-141 | the written object has exactly the keys `id, sn, v, d`, in that order, never `ep` or `r` |
| `HubJsonEncode.ToJson` | src/main/kotlin/frc/robot/subsystems/HubTargetData.kt:125-143 | the writing loop produces exactly `Encode`: the three scalars, then one row per target in list order |
| `HubJsonEncode.EncodeTargetsAt` | src/main/kotlin/frc/robot/subsystems/HubTargetData.kt:133-139 | written row `i` is `[topLeft.x, topLeft.y, width, height, contourArea]` of target `i`, and there is one row per target |
| `HubJsonEncode.RowRectEncodeRect` | src/main/kotlin/frc/robot/subsystems/HubTargetData.kt:135-137 | a written row reads back as the same rect: the width and height derived from the corners restore the corners, even when the `Int` arithmetic wraps |
| `HubJsonEncode.RectsOfEncodeTargets` | src/main/kotlin/frc/robot/subsystems/HubTargetData.kt:133-139 | reading back the written rows gives the target list itself |
| `HubJsonEncode.EncodeReadable` | src/main/kotlin/frc/robot/subsystems/HubTargetData.kt:125-143 | every member `toJson` writes can be read back by `fromJson` |
| `HubJsonEncode.RoundTrip` | src/main/kotlin/frc/robot/subsystems/HubTargetData.kt:78-143 | `fromJson(toJson(d))` succeeds and reproduces id, serial, flag and every target in order; `errorPixels` and `range` come back as 0 because they are not written |
| `HubJsonEncode.DecodeEncodeDecode` | src/main/kotlin/frc/robot/subsystems/HubTargetData.kt:78-143 | decoding, encoding and decoding again gives the first decode's record, except for the dropped `ep` and `r` values |
| `HubExamples.ExampleFrameGeometry` | src/main/kotlin/frc/robot/subsystems/HubTargetData.kt:33-57 | the frame with rows `[0,0,10,10,100]`, `[20,0,10,10,100]`, `[40,0,10,10,100]` decodes to rects (0,0)-(10,10), (20,0)-(30,10), (40,0)-(50,10); it is valid; with frame centre 50 the pixel error is -25 and the angle is positive |

## Findings

| source | as written | input that shows it | evidently intended | confidence | as-written member | corrected member |
|---|---|---|---|---|---|---|
| src/main/kotlin/frc/robot/subsystems/HubTargetData.kt:57 | `kFrameCenter * 2` is a 32-bit `Int` product, computed before the division into the `Double` | `kFrameCenter = Int.MAX_VALUE`, the unconfigured default at line 153, with any non-empty target list: the product wraps to -2. `errorRadians` is then half the (negative) pixel error, so it is negative and large, where the formula gives a small positive angle. The sign flips likewise for any `kFrameCenter` of 2^30 or more and a group off centre (`Hub.ErrorRadiansWrapFlipsSign`) | divide by the exact `2 * kFrameCenter` | medium, not executed | `Hub.ErrorRadiansOverflowFlipsSign` | `Hub.ErrorRadians` |

`Hub.ErrorRadiansAsWritten` is the definition as written. `Hub.ErrorRadiansAsWrittenAgrees` shows that it coincides
with the corrected `Hub.ErrorRadians` for every frame centre below 2^30, which covers every real capture width.

## Left out

- Byte-level JSON: lexing by Moshi's `JsonReader`, writing by `JsonWriter`, and the okio `Buffer`. These are foreign
  libraries. The model reads and writes a JSON value tree, and `toJson`'s string result is that tree.
- Moshi's lenient coercions are not modelled. In the real reader, `nextInt` also accepts a quoted number and a
  fractional token with an integral value such as `1.0`, and `nextString` also accepts a bare number. Here each read
  accepts only its own token kind, and numbers are either integer tokens (`JInt`) or fractional ones (`JFraction`).
- The text of the exception messages, including the second `selectName` call at lines 113-115, is not modelled.
  Only the error kind and the offending key are kept.
- Whatever follows the closing brace of the object is not modelled (the reader is not asked to reach end of input).
- `errorRotation2d` (lines 66-67) wraps WPILib's `Rotation2d`, which is not part of this model. `Hub.ErrorRadians` is the
  bare angle.
- Floating point: the `Double` results are modelled as exact `real`s. So are the `ep`/`r` values, which are stored and
  never read.
- `Hub.ErrorPixels`, `Hub.ErrorRadians`, `Hub.InterpolateT`: an empty target list makes the source throw
  `IndexOutOfBoundsException`. The model states this as the precondition "at least one target" instead, because the
  source documents it as a caller obligation (check `isValid` first).
- `kFrameCenter` as a mutable global with the `Int.MAX_VALUE` sentinel (line 153) is replaced by the positive parameter
  `frameCenter`. Setting it from the capture width in `VisionSubsystem.kt` (line 26) is not part of this model.
- `Rect.width()` and `height()` belong to the Deadeye library, which is not part of this model. They are taken to be the
  `Int` differences of the corners.
- `VisionSubsystem.kt`, `RobotContainer.kt` and `DeadeyeSubsystem.java` are network, camera, dashboard and metrics
  glue, and are not modelled.

/** `HubTargetData`: one frame of targets reported by the Deadeye camera for
    the Hub, and the aiming geometry derived from it. The process-wide
    `kFrameCenter` (half the capture width, in pixels) is an explicit,
    positive parameter `frameCenter` of every geometry function. */
module Hub {
  import opened Int32
  import opened Deadeye

  /** `kHorizonFov`: the horizontal field of view, in radians. */
  const HorizonFov: real := 1.0

  /** The fields of a `HubTargetData`. `errorPixels` and `range` are stored
      from the `ep` and `r` keys and never read again. */
  datatype HubTargetData = HubTargetData(
    id: string,
    serial: i32,
    valid: bool,
    errorPixels: real,
    range: real,
    targets: seq<Rect>)

  /** The no-argument constructor. Its serial is 0, while the decoder's
      default for a missing `sn` is -1. */
  function Default(): (r: HubTargetData)
    ensures r.id == "" && r.serial == 0 && !r.valid && r.targets == []
    ensures !IsValid(r)
  {
    HubTargetData("", 0, false, 0.0, 0.0, [])
  }

  /** `isValid`: the camera's flag is set and more than two targets were seen. */
  predicate IsValid(d: HubTargetData)
    ensures IsValid(d) ==> d.valid && |d.targets| >= 3
  {
    d.valid && |d.targets| > 2
  }

  /** With fewer than three targets a frame is never valid, whatever the
      camera's flag; with three or more it is valid exactly when the flag is. */
  lemma ValidityBoundary(d: HubTargetData)
    ensures |d.targets| <= 2 ==> !IsValid(d)
    ensures |d.targets| >= 3 ==> (IsValid(d) <==> d.valid)
    ensures IsValid(d) ==> |d.targets| > 0
  {
  }

  /** The inner edges of the target group: the right edge of the first target
      and the left edge of the last one. */
  function MinX(d: HubTargetData): i32
    requires |d.targets| > 0
  {
    d.targets[0].bottomRight.x
  }

  function MaxX(d: HubTargetData): i32
    requires |d.targets| > 0
  {
    d.targets[|d.targets| - 1].topLeft.x
  }

  /** `getErrorPixels()`: the midpoint of the group's inner edges minus the
      frame centre. The sum of the two edges is an `Int` sum and wraps. An
      empty target list throws `IndexOutOfBoundsException`; callers are to
      check `isValid` first. */
  function ErrorPixels(d: HubTargetData, frameCenter: i32): (r: real)
    requires |d.targets| > 0
    ensures 2.0 * (r + frameCenter as real) == (Add(MaxX(d), MinX(d)) as int) as real
  {
    (Add(MaxX(d), MinX(d)) as real) / 2.0 - frameCenter as real
  }

  /** The edges' sum fits an `Int`, as it does for any real capture. */
  predicate NoOverflow(d: HubTargetData)
    requires |d.targets| > 0
  {
    InRange(MinX(d) as int + MaxX(d) as int)
  }

  /** Without overflow, the pixel error is the signed distance from the frame
      centre to the group's midpoint: positive to the right, negative to the
      left, zero when centred. */
  lemma ErrorPixelsMidpoint(d: HubTargetData, frameCenter: i32)
    requires |d.targets| > 0 && NoOverflow(d)
    ensures 2.0 * ErrorPixels(d, frameCenter) == (MinX(d) as int + MaxX(d) as int - 2 * frameCenter as int) as real
    ensures ErrorPixels(d, frameCenter) > 0.0 <==> MinX(d) as int + MaxX(d) as int > 2 * frameCenter as int
    ensures ErrorPixels(d, frameCenter) == 0.0 <==> MinX(d) as int + MaxX(d) as int == 2 * frameCenter as int
  {
    assert Add(MaxX(d), MinX(d)) as int == MinX(d) as int + MaxX(d) as int;
  }

  /** The pixel error depends on the two inner edges and nothing else: not on
      the id, serial, flag, the stored `errorPixels`, nor any other target. */
  lemma ErrorPixelsReadsOnlyEdges(d: HubTargetData, e: HubTargetData, frameCenter: i32)
    requires |d.targets| > 0 && |e.targets| > 0
    requires MinX(d) == MinX(e) && MaxX(d) == MaxX(e)
    ensures ErrorPixels(d, frameCenter) == ErrorPixels(e, frameCenter)
  {
  }

  /** `e` is `d` with every target moved `s` pixels to the right. */
  predicate ShiftedRight(d: HubTargetData, e: HubTargetData, s: int) {
    |e.targets| == |d.targets| &&
    forall i :: 0 <= i < |d.targets| ==>
      e.targets[i].topLeft.x as int == d.targets[i].topLeft.x as int + s &&
      e.targets[i].bottomRight.x as int == d.targets[i].bottomRight.x as int + s
  }

  /** Moving every target `s` pixels right moves the pixel error by `s`. */
  lemma ErrorPixelsShift(d: HubTargetData, e: HubTargetData, s: int, frameCenter: i32)
    requires |d.targets| > 0 && ShiftedRight(d, e, s)
    requires NoOverflow(d) && NoOverflow(e)
    ensures ErrorPixels(e, frameCenter) == ErrorPixels(d, frameCenter) + s as real
  {
    ErrorPixelsMidpoint(d, frameCenter);
    ErrorPixelsMidpoint(e, frameCenter);
    var n := |d.targets| - 1;
    assert MinX(e) as int == MinX(d) as int + s;
    assert e.targets[n].topLeft.x as int == d.targets[n].topLeft.x as int + s;
  }

  /** `errorRadians`, with `kFrameCenter * 2` computed exactly: the pixel
      error scaled to the half field of view, negated so that a group right
      of centre gives a clockwise (negative) angle. */
  function ErrorRadians(d: HubTargetData, frameCenter: i32): (r: real)
    requires |d.targets| > 0 && frameCenter > 0
    ensures r * (2.0 * frameCenter as real) == -ErrorPixels(d, frameCenter)
  {
    Angle(ErrorPixels(d, frameCenter), 2.0 * frameCenter as real)
  }

  /** The angle has the opposite sign of the pixel error: negative (clockwise)
      for a group right of centre, positive left of it, zero when centred. */
  lemma ErrorRadiansSign(d: HubTargetData, frameCenter: i32)
    requires |d.targets| > 0 && frameCenter > 0
    ensures ErrorRadians(d, frameCenter) < 0.0 <==> ErrorPixels(d, frameCenter) > 0.0
    ensures ErrorRadians(d, frameCenter) > 0.0 <==> ErrorPixels(d, frameCenter) < 0.0
    ensures ErrorRadians(d, frameCenter) == 0.0 <==> ErrorPixels(d, frameCenter) == 0.0
  {
    AngleSign(ErrorPixels(d, frameCenter), 2.0 * frameCenter as real);
  }

  /** A pixel error `e` over the full frame width `c`, in radians. */
  function Angle(e: real, c: real): (r: real)
    requires c > 0.0
    ensures r * c == -e
  {
    Quotient(-HorizonFov * e, c);
    -HorizonFov * e / c
  }

  lemma AngleSign(e: real, c: real)
    requires c > 0.0
    ensures Angle(e, c) < 0.0 <==> e > 0.0
    ensures Angle(e, c) > 0.0 <==> e < 0.0
    ensures Angle(e, c) == 0.0 <==> e == 0.0
  {
    Quotient(-HorizonFov * e, c);
  }

  /** Adding `s` to the pixel error takes `s / c` off the angle. */
  lemma AngleShift(e: real, f: real, s: real, c: real)
    requires c > 0.0 && f == e + s
    ensures (Angle(f, c) - Angle(e, c)) * c == -s
    ensures s > 0.0 ==> Angle(f, c) < Angle(e, c)
  {
    ShiftArithmetic(Angle(e, c), Angle(f, c), e, f, c, s);
  }

  /** `errorRadians` as written: `kFrameCenter * 2` is an `Int` product
      (here the equal `Int` sum `kFrameCenter + kFrameCenter`) and wraps once
      `kFrameCenter` reaches 2^30. */
  function ErrorRadiansAsWritten(d: HubTargetData, frameCenter: i32): (r: real)
    requires |d.targets| > 0 && frameCenter > 0
    ensures Add(frameCenter, frameCenter) != 0
    ensures r * (Add(frameCenter, frameCenter) as real) == -ErrorPixels(d, frameCenter)
  {
    var c := Add(frameCenter, frameCenter);
    assert c != 0;
    -HorizonFov * ErrorPixels(d, frameCenter) / (c as real)
  }

  /** Below 2^30 the product does not wrap and both agree. */
  lemma ErrorRadiansAsWrittenAgrees(d: HubTargetData, frameCenter: i32)
    requires |d.targets| > 0 && 0 < frameCenter as int < 0x4000_0000
    ensures ErrorRadiansAsWritten(d, frameCenter) == ErrorRadians(d, frameCenter)
  {
    assert Add(frameCenter, frameCenter) as int == 2 * frameCenter as int;
  }

  /** With the unconfigured default `Int.MAX_VALUE` the product wraps to -2.
      The pixel error is then always negative, so the corrected angle is
      positive while the angle as written is negative: the sign is flipped. */
  lemma ErrorRadiansOverflowFlipsSign(d: HubTargetData)
    requires |d.targets| > 0
    ensures Add(MaxValue as i32, MaxValue as i32) == -2
    ensures ErrorPixels(d, MaxValue as i32) < 0.0
    ensures ErrorRadiansAsWritten(d, MaxValue as i32) == ErrorPixels(d, MaxValue as i32) / 2.0
    ensures ErrorRadiansAsWritten(d, MaxValue as i32) < 0.0 < ErrorRadians(d, MaxValue as i32)
  {
    ErrorRadiansSign(d, MaxValue as i32);
  }

  /** From 2^30 on the product wraps to `2 * kFrameCenter - 2^32`, which is
      negative, so the angle as written has the sign of the pixel error and
      the corrected angle the opposite one: whenever the group is off
      centre, the two have opposite signs. */
  lemma ErrorRadiansWrapFlipsSign(d: HubTargetData, frameCenter: i32)
    requires |d.targets| > 0 && frameCenter as int >= 0x4000_0000
    ensures Add(frameCenter, frameCenter) as int == 2 * frameCenter as int - TwoTo32
    ensures ErrorRadiansAsWritten(d, frameCenter) > 0.0 <==> ErrorPixels(d, frameCenter) > 0.0
    ensures ErrorRadiansAsWritten(d, frameCenter) < 0.0 <==> ErrorPixels(d, frameCenter) < 0.0
    ensures ErrorPixels(d, frameCenter) != 0.0 ==>
      (ErrorRadiansAsWritten(d, frameCenter) > 0.0 <==> ErrorRadians(d, frameCenter) < 0.0)
  {
    ErrorRadiansSign(d, frameCenter);
    var c := Add(frameCenter, frameCenter) as real;
    NegativeDivisor(ErrorRadiansAsWritten(d, frameCenter), c, ErrorPixels(d, frameCenter));
  }

  /** A product with a negative factor `c` equal to `-e` has the sign of `e`. */
  lemma NegativeDivisor(x: real, c: real, e: real)
    requires c < 0.0 && x * c == -e
    ensures x > 0.0 <==> e > 0.0
    ensures x < 0.0 <==> e < 0.0
  {
    if x > 0.0 {
      assert x * c < 0.0;
    } else if x < 0.0 {
      assert x * c > 0.0;
    }
  }

  /** `interpolateT`: one minus the pixel error's size as a fraction of the
      frame centre; not clamped below. */
  function InterpolateT(d: HubTargetData, frameCenter: i32): (r: real)
    requires |d.targets| > 0 && frameCenter > 0
    ensures r <= 1.0
    ensures r == 1.0 <==> ErrorPixels(d, frameCenter) == 0.0
    ensures r >= 0.0 <==> Abs(ErrorPixels(d, frameCenter)) <= frameCenter as real
    ensures r * frameCenter as real == frameCenter as real - Abs(ErrorPixels(d, frameCenter))
  {
    var e := Abs(ErrorPixels(d, frameCenter));
    var k := frameCenter as real;
    Quotient(k - e, k);
    (k - e) / k
  }

  /** Dividing by a positive divisor keeps the sign and the order against
      one. */
  lemma Quotient(a: real, k: real)
    requires k > 0.0
    ensures (a / k) * k == a
    ensures a / k < 0.0 <==> a < 0.0
    ensures a / k == 0.0 <==> a == 0.0
    ensures a / k == 1.0 <==> a == k
    ensures a / k <= 1.0 <==> a <= k
  {
  }

  /** Scaling distributes over a difference. */
  lemma ScaledDifference(x: real, y: real, c: real, a: real, b: real)
    requires x * c == a && y * c == b
    ensures (x - y) * c == a - b
  {
  }

  /** A product with a positive factor is negative only if the other
      factor is. */
  lemma NegativeProduct(x: real, c: real)
    requires c > 0.0
    ensures x * c < 0.0 ==> x < 0.0
  {
  }

  function Abs(x: real): real {
    if x < 0.0 then -x else x
  }

  /** A group centred in the frame gives no pixel error, no angle, and an
      interpolation factor of exactly one. */
  lemma CenteredGroup(d: HubTargetData, frameCenter: i32)
    requires |d.targets| > 0 && frameCenter > 0
    requires NoOverflow(d) && MinX(d) as int + MaxX(d) as int == 2 * frameCenter as int
    ensures ErrorPixels(d, frameCenter) == 0.0
    ensures ErrorRadians(d, frameCenter) == 0.0
    ensures InterpolateT(d, frameCenter) == 1.0
  {
    ErrorPixelsMidpoint(d, frameCenter);
    ErrorRadiansSign(d, frameCenter);
  }

  /** Moving every target right lowers the angle by the shift over the full
      frame width. */
  lemma ErrorRadiansShift(d: HubTargetData, e: HubTargetData, s: int, frameCenter: i32)
    requires |d.targets| > 0 && frameCenter > 0 && ShiftedRight(d, e, s)
    requires NoOverflow(d) && NoOverflow(e)
    ensures (ErrorRadians(e, frameCenter) - ErrorRadians(d, frameCenter)) * (2.0 * frameCenter as real) == -(s as real)
    ensures s > 0 ==> ErrorRadians(e, frameCenter) < ErrorRadians(d, frameCenter)
  {
    ErrorPixelsShift(d, e, s, frameCenter);
    var c := 2.0 * frameCenter as real;
    AngleShift(ErrorPixels(d, frameCenter), ErrorPixels(e, frameCenter), s as real, c);
  }

  /** The arithmetic of `ErrorRadiansShift`, on its own. */
  lemma ShiftArithmetic(rd: real, re: real, pd: real, pe: real, c: real, s: real)
    requires c > 0.0 && rd * c == -pd && re * c == -pe && pe == pd + s
    ensures (re - rd) * c == -s
    ensures s > 0.0 ==> re < rd
  {
    ScaledDifference(re, rd, c, -pe, -pd);
    NegativeProduct(re - rd, c);
  }

  /** The interpolation factor does go below zero: a group 150 pixels right
      of a 100-pixel frame centre gives -0.5. */
  lemma InterpolateTNotClamped()
    ensures var d := HubTargetData("", 0, true, 0.0, 0.0,
                       [Rect(Point(0, 0), Point(250, 0), 0), Rect(Point(250, 0), Point(260, 0), 0)]);
            InterpolateT(d, 100) == -0.5
  {
    var d := HubTargetData("", 0, true, 0.0, 0.0,
               [Rect(Point(0, 0), Point(250, 0), 0), Rect(Point(250, 0), Point(260, 0), 0)]);
    assert Add(MaxX(d), MinX(d)) == 500;
    assert ErrorPixels(d, 100) == 150.0;
  }
}

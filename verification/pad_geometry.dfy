/**
 * The mTPC readout-pad layout of the C++ reconstruction (PadGeometryHelper.hpp): 21 concentric
 * rings between 5 cm and 15 cm, each cut into 122 pads, odd rings staggered by half a pad.
 * Lengths are in ACTS units (millimetres), angles in radians measured in the direction the pad
 * index grows.
 */
module PadGeometry {
  import opened Wrappers
  import opened Trig

  const NumRings: int := 21
  const NumPadsPerRing: int := 122
  /** `Acts::UnitConstants::cm`: one centimetre in millimetres. */
  const Cm: real := 10.0
  const MinRadius: real := 5.0 * Cm
  const MaxRadius: real := 15.0 * Cm
  const TotalRadialWidth: real := MaxRadius - MinRadius
  /** The radial extent of one ring: the radial span divided by the number of rings. */
  const RingWidth: real := TotalRadialWidth / NumRings as real

  /** The angular width of one pad: a full turn divided by the number of pads of a ring. */
  function DeltaTheta(lib: MathLib): real {
    2.0 * lib.pi / NumPadsPerRing as real
  }

  /** Which index check of the helper rejected its arguments (both throw `std::invalid_argument`). */
  datatype IndexError = RingOutOfRange | PadOutOfRange

  predicate ValidRing(ring: int) { 0 <= ring < NumRings }
  predicate ValidPad(pad: int) { 0 <= pad < NumPadsPerRing }

  /**
   * `getPadHight`: meant as the distance between rings, but it divides the radial span by the
   * number of pads per ring, so it is 122 times smaller than the span and well below the ring
   * width.
   */
  function GetPadHight(): (h: real)
    ensures h * NumPadsPerRing as real == MaxRadius - MinRadius
    ensures 0.0 < h < RingWidth
  {
    (MaxRadius - MinRadius) / NumPadsPerRing as real
  }

  /**
   * `getPadApproxWidth`: the arc length of one pad at the radius reached by stepping
   * `ring + 0.5` pad heights out from the inner radius. The ring is not range-checked.
   */
  function GetPadApproxWidth(lib: MathLib, ring: int): (w: real)
    requires lib.Valid()
    ensures w * NumPadsPerRing as real == (MinRadius + (ring as real + 0.5) * GetPadHight()) * 2.0 * lib.pi
    ensures ring >= 0 ==> w > GetPadHight()
  {
    var r := MinRadius + (ring as real + 0.5) * GetPadHight();
    assert ring >= 0 ==> r >= MinRadius;
    r * 2.0 * lib.pi / NumPadsPerRing as real
  }

  /** `getRingCenterRadius`: the radius halfway across the ring, or the ring error. */
  function GetRingCenterRadius(ring: int): (r: Result<real, IndexError>)
    ensures r.Success? <==> ValidRing(ring)
    ensures r.Failure? ==> r.error == RingOutOfRange
    ensures r.Success? ==> r.value == MinRadius + RingWidth * (ring as real + 0.5)
    ensures r.Success? ==> MinRadius < r.value < MaxRadius
  {
    if ring < 0 || ring >= NumRings then Failure(RingOutOfRange)
    else Success(MinRadius + RingWidth * (ring as real + 0.5))
  }

  /** The half-pad stagger applied to odd rings (`ring % 2` is non-zero exactly for odd rings). */
  function StaggerOffset(lib: MathLib, ring: int): real {
    if ring % 2 == 0 then 0.0 else DeltaTheta(lib) / 2.0
  }

  /** The angle of a pad's centre, before the (dead) normalisation step of `getPadCenter`. */
  function PadAngle(lib: MathLib, ring: int, pad: int): real {
    pad as real * DeltaTheta(lib) + StaggerOffset(lib, ring) + DeltaTheta(lib) / 2.0
  }

  /**
   * `getPadCenter`: the Cartesian centre of pad `pad` of ring `ring`. The ring is checked
   * before the pad; the radius comes from `getRingCenterRadius`; a negative angle would be
   * moved up by a full turn, which never happens.
   */
  function GetPadCenter(lib: MathLib, ring: int, pad: int): (r: Result<Point2, IndexError>)
    requires lib.Valid()
    ensures r.Success? <==> ValidRing(ring) && ValidPad(pad)
    ensures !ValidRing(ring) ==> r == Failure(RingOutOfRange)
    ensures ValidRing(ring) && !ValidPad(pad) ==> r == Failure(PadOutOfRange)
    ensures r.Success? ==> r.value == Polar(lib, GetRingCenterRadius(ring).value, PadAngle(lib, ring, pad))
    ensures r.Success? ==> Norm2(r.value) == GetRingCenterRadius(ring).value * GetRingCenterRadius(ring).value
  {
    if ring < 0 || ring >= NumRings then Failure(RingOutOfRange)
    else if pad < 0 || pad >= NumPadsPerRing then Failure(PadOutOfRange)
    else
      var rCenter := GetRingCenterRadius(ring).value;
      var thetaClockwise := PadAngle(lib, ring, pad);
      var thetaCenter := thetaClockwise;
      PadAngleRange(lib, ring, pad);
      var theta := if thetaCenter < 0.0 then thetaCenter + 2.0 * lib.pi else thetaCenter;
      Success(Polar(lib, rCenter, theta))
  }

  /** Every pad centre angle lies in [Δθ/2, 2π]: the negative-angle branch is dead. */
  lemma PadAngleRange(lib: MathLib, ring: int, pad: int)
    requires lib.Valid()
    requires ValidRing(ring) && ValidPad(pad)
    ensures DeltaTheta(lib) / 2.0 <= PadAngle(lib, ring, pad) <= 2.0 * lib.pi
  {
    var d := DeltaTheta(lib);
    assert d > 0.0;
    assert pad as real * d >= 0.0;
    assert pad as real * d <= 121.0 * d;
    assert 122.0 * d == 2.0 * lib.pi;
  }

  /** Neighbouring pads of one ring are exactly one pad width apart in angle. */
  lemma PadAngleStep(lib: MathLib, ring: int, pad: int)
    ensures PadAngle(lib, ring, pad + 1) - PadAngle(lib, ring, pad) == DeltaTheta(lib)
  {
    var d := DeltaTheta(lib);
    assert (pad + 1) as real * d == pad as real * d + d;
  }

  /** Ring `ring + 1` is shifted by half a pad against ring `ring`: forward after an even ring, back after an odd one. */
  lemma PadAngleStagger(lib: MathLib, ring: int, pad: int)
    requires ValidRing(ring) && ValidRing(ring + 1)
    ensures ring % 2 == 0 ==> PadAngle(lib, ring + 1, pad) - PadAngle(lib, ring, pad) == DeltaTheta(lib) / 2.0
    ensures ring % 2 == 1 ==> PadAngle(lib, ring + 1, pad) - PadAngle(lib, ring, pad) == -DeltaTheta(lib) / 2.0
  {
  }

  /** Two different pads of a ring have centre angles that differ by a positive amount less than a full turn. */
  lemma PadAnglesDistinct(lib: MathLib, ring: int, p: int, q: int)
    requires lib.Valid()
    requires ValidPad(p) && ValidPad(q) && p < q
    ensures 0.0 < PadAngle(lib, ring, q) - PadAngle(lib, ring, p) < 2.0 * lib.pi
  {
    var d := DeltaTheta(lib);
    assert d > 0.0;
    assert PadAngle(lib, ring, q) - PadAngle(lib, ring, p) == (q - p) as real * d;
    assert 1.0 * d <= (q - p) as real * d <= 121.0 * d;
  }

  /** Ring-centre radii grow with the ring index, one ring width per ring. */
  lemma RingCenterRadiusSpacing(ring: int)
    requires ValidRing(ring) && ValidRing(ring + 1)
    ensures GetRingCenterRadius(ring + 1).value - GetRingCenterRadius(ring).value == RingWidth
  {
  }

  /** Ring-centre radii are strictly increasing in the ring index. */
  lemma {:induction false} RingCenterRadiusMonotone(a: int, b: int)
    requires ValidRing(a) && ValidRing(b) && a < b
    ensures GetRingCenterRadius(a).value < GetRingCenterRadius(b).value
    decreases b - a
  {
    RingCenterRadiusSpacing(b - 1);
    if a < b - 1 {
      RingCenterRadiusMonotone(a, b - 1);
    }
  }

  /** The approximate pad width is strictly increasing in the ring index. */
  lemma PadApproxWidthMonotone(lib: MathLib, a: int, b: int)
    requires lib.Valid()
    requires a < b
    ensures GetPadApproxWidth(lib, a) < GetPadApproxWidth(lib, b)
  {
    var h := GetPadHight();
    var ra := MinRadius + (a as real + 0.5) * h;
    var rb := MinRadius + (b as real + 0.5) * h;
    assert ra < rb;
    assert ra * 2.0 * lib.pi < rb * 2.0 * lib.pi;
  }

  /**
   * The two radial steps of the helper disagree: the approximate width, which steps by the pad
   * height, is smaller than the arc of one pad on the ring's own centre radius, which steps by
   * the ring width.
   */
  lemma ApproxWidthBelowCentreArc(lib: MathLib, ring: int)
    requires lib.Valid()
    requires ValidRing(ring)
    ensures GetPadApproxWidth(lib, ring) < GetRingCenterRadius(ring).value * DeltaTheta(lib)
  {
    var h := GetPadHight();
    var ra := MinRadius + (ring as real + 0.5) * h;
    var rc := GetRingCenterRadius(ring).value;
    assert (ring as real + 0.5) * h < (ring as real + 0.5) * RingWidth;
    assert ra < rc;
    assert ra * (2.0 * lib.pi) < rc * (2.0 * lib.pi);
  }
}

/**
 * The pad layout of the Python package (pytdis `geometry.py`), in centimetres: 21 rings between
 * 5 cm and 15 cm, 122 pads per ring, odd rings staggered by half a pad. Out-of-range indices
 * raise ValueError, modelled as the `IndexError` of the C++ helper (ring checked first).
 */
module PytdisGeometry {
  import opened Wrappers
  import opened Trig
  import PadGeometry

  const FirstRingInnerRadius: real := 5.0
  const PlaneRingRadius: real := 10.0
  const LastRingOuterRadius: real := FirstRingInnerRadius + PlaneRingRadius
  const RingWidth: real := PlaneRingRadius / PadGeometry.NumRings as real
  /** The angular width of a pad in degrees. */
  const DeltaThetaDeg: real := 360.0 / PadGeometry.NumPadsPerRing as real

  /** The half-pad stagger of odd rings. */
  function ThetaOffset(lib: MathLib, ring: int): real {
    if ring % 2 == 0 then 0.0 else PadGeometry.DeltaTheta(lib) / 2.0
  }

  /** The radius halfway across a ring. */
  function CenterRadius(ring: int): real {
    RingWidth * (ring as real + 0.5) + FirstRingInnerRadius
  }

  /** The angle `get_pad_center` uses: a full pad width past the pad's start. */
  function CenterAngle(lib: MathLib, ring: int, pad: int): real {
    pad as real * PadGeometry.DeltaTheta(lib) + ThetaOffset(lib, ring) + PadGeometry.DeltaTheta(lib)
  }

  /** `get_pad_center`: the Cartesian centre in cm, or the index error. */
  function GetPadCenter(lib: MathLib, ring: int, pad: int): (r: Result<Point2, PadGeometry.IndexError>)
    requires lib.Valid()
    ensures r.Success? <==> PadGeometry.ValidRing(ring) && PadGeometry.ValidPad(pad)
    ensures !PadGeometry.ValidRing(ring) ==> r == Failure(PadGeometry.RingOutOfRange)
    ensures PadGeometry.ValidRing(ring) && !PadGeometry.ValidPad(pad) ==> r == Failure(PadGeometry.PadOutOfRange)
    ensures r.Success? ==> r.value == Polar(lib, CenterRadius(ring), CenterAngle(lib, ring, pad))
    ensures r.Success? ==> Norm2(r.value) == CenterRadius(ring) * CenterRadius(ring)
  {
    if !(0 <= ring < PadGeometry.NumRings) then Failure(PadGeometry.RingOutOfRange)
    else if !(0 <= pad < PadGeometry.NumPadsPerRing) then Failure(PadGeometry.PadOutOfRange)
    else
      var rCenter := RingWidth * (ring as real + 0.5) + FirstRingInnerRadius;
      var thetaOffset := if ring % 2 == 0 then 0.0 else PadGeometry.DeltaTheta(lib) / 2.0;
      var thetaCenter := pad as real * PadGeometry.DeltaTheta(lib) + thetaOffset + PadGeometry.DeltaTheta(lib);
      Success(Polar(lib, rCenter, thetaCenter))
  }

  /** `get_ring_radii`: the inner and outer radius of a valid ring. */
  function GetRingRadii(ring: int): (r: Result<(real, real), PadGeometry.IndexError>)
    ensures r.Success? <==> PadGeometry.ValidRing(ring)
    ensures r.Failure? ==> r.error == PadGeometry.RingOutOfRange
    ensures r.Success? ==> r.value.1 - r.value.0 == RingWidth
    ensures r.Success? ==> FirstRingInnerRadius <= r.value.0 < r.value.1 <= LastRingOuterRadius
  {
    if !(0 <= ring < PadGeometry.NumRings) then Failure(PadGeometry.RingOutOfRange)
    else Success((FirstRingInnerRadius + ring as real * RingWidth, FirstRingInnerRadius + (ring + 1) as real * RingWidth))
  }

  /** `get_pad_angular_bounds`: the start and end angle of a valid pad, one pad width apart. */
  function GetPadAngularBounds(lib: MathLib, ring: int, pad: int): (r: Result<(real, real), PadGeometry.IndexError>)
    ensures r.Success? <==> PadGeometry.ValidRing(ring) && PadGeometry.ValidPad(pad)
    ensures !PadGeometry.ValidRing(ring) ==> r == Failure(PadGeometry.RingOutOfRange)
    ensures PadGeometry.ValidRing(ring) && !PadGeometry.ValidPad(pad) ==> r == Failure(PadGeometry.PadOutOfRange)
    ensures r.Success? ==> r.value.1 - r.value.0 == PadGeometry.DeltaTheta(lib)
  {
    if !(0 <= ring < PadGeometry.NumRings) then Failure(PadGeometry.RingOutOfRange)
    else if !(0 <= pad < PadGeometry.NumPadsPerRing) then Failure(PadGeometry.PadOutOfRange)
    else
      var start := pad as real * PadGeometry.DeltaTheta(lib) + ThetaOffset(lib, ring);
      Success((start, start + PadGeometry.DeltaTheta(lib)))
  }

  /** `get_pad_approx_width`: the arc of one pad at the ring's centre radius; any ring is accepted. */
  function GetPadApproxWidth(lib: MathLib, ring: int): (w: real)
    ensures w * PadGeometry.NumPadsPerRing as real == CenterRadius(ring) * 2.0 * lib.pi
  {
    var r := FirstRingInnerRadius + (ring as real + 0.5) * RingWidth;
    r * 2.0 * lib.pi / PadGeometry.NumPadsPerRing as real
  }

  /** The rings tile the annulus: ring 0 starts at 5 cm, ring 20 ends at 15 cm, each ends where the next starts. */
  lemma RingRadiiTile(ring: int)
    requires 0 <= ring < PadGeometry.NumRings - 1
    ensures GetRingRadii(ring).value.1 == GetRingRadii(ring + 1).value.0
    ensures GetRingRadii(0).value.0 == FirstRingInnerRadius
    ensures GetRingRadii(PadGeometry.NumRings - 1).value.1 == LastRingOuterRadius
  {
  }

  /** The centre radius is halfway between the ring's radii. */
  lemma CenterRadiusIsMidRing(ring: int)
    requires PadGeometry.ValidRing(ring)
    ensures 2.0 * CenterRadius(ring) == GetRingRadii(ring).value.0 + GetRingRadii(ring).value.1
  {
  }

  /**
   * The pads of a ring tile the full turn: each ends where the next starts, and from the
   * start of pad 0 to the end of pad 121 is exactly 2π.
   */
  lemma PadBoundsTile(lib: MathLib, ring: int, pad: int)
    requires PadGeometry.ValidRing(ring) && 0 <= pad < PadGeometry.NumPadsPerRing - 1
    ensures GetPadAngularBounds(lib, ring, pad).value.1 == GetPadAngularBounds(lib, ring, pad + 1).value.0
    ensures GetPadAngularBounds(lib, ring, PadGeometry.NumPadsPerRing - 1).value.1
          - GetPadAngularBounds(lib, ring, 0).value.0 == 2.0 * lib.pi
  {
    var d := PadGeometry.DeltaTheta(lib);
    assert (pad + 1) as real * d == pad as real * d + d;
    assert 122.0 * d == 2.0 * lib.pi;
  }

  /** Pad 0 of an odd ring starts (and is centred) half a pad further round than on an even ring. */
  lemma OddRingsStaggered(lib: MathLib, even: int, odd: int, pad: int)
    requires PadGeometry.ValidRing(even) && PadGeometry.ValidRing(odd) && PadGeometry.ValidPad(pad)
    requires even % 2 == 0 && odd % 2 == 1
    ensures GetPadAngularBounds(lib, odd, pad).value.0 - GetPadAngularBounds(lib, even, pad).value.0
         == PadGeometry.DeltaTheta(lib) / 2.0
    ensures CenterAngle(lib, odd, pad) - CenterAngle(lib, even, pad) == PadGeometry.DeltaTheta(lib) / 2.0
  {
  }

  /**
   * Because a full pad width is added, the angle of `get_pad_center` is the END of the pad's
   * angular bounds, not their middle; it is still within the 0.1 rad tolerance around them.
   */
  lemma CenterAngleIsBoundsEnd(lib: MathLib, ring: int, pad: int)
    requires lib.Valid()
    requires PadGeometry.ValidRing(ring) && PadGeometry.ValidPad(pad)
    ensures CenterAngle(lib, ring, pad) == GetPadAngularBounds(lib, ring, pad).value.1
    ensures GetPadAngularBounds(lib, ring, pad).value.0 - 0.1 <= CenterAngle(lib, ring, pad)
         <= GetPadAngularBounds(lib, ring, pad).value.1 + 0.1
  {
    assert PadGeometry.DeltaTheta(lib) > 0.0;
  }

  /**
   * Against the C++ helper: the ring centre agrees once centimetres become millimetres, but the
   * Python centre angle is half a pad further round.
   */
  lemma DiffersFromCpp(lib: MathLib, ring: int, pad: int)
    requires lib.Valid()
    requires PadGeometry.ValidRing(ring) && PadGeometry.ValidPad(pad)
    ensures PadGeometry.GetRingCenterRadius(ring).value == PadGeometry.Cm * CenterRadius(ring)
    ensures CenterAngle(lib, ring, pad) == PadGeometry.PadAngle(lib, ring, pad) + PadGeometry.DeltaTheta(lib) / 2.0
  {
  }

  /**
   * Against the C++ helper: the Python approximate width steps outwards by the ring width, the
   * C++ one by its much smaller pad "height", so for every ring the Python width (in mm) is larger.
   */
  lemma ApproxWidthExceedsCpp(lib: MathLib, ring: int)
    requires lib.Valid() && ring >= 0
    ensures PadGeometry.Cm * GetPadApproxWidth(lib, ring) > PadGeometry.GetPadApproxWidth(lib, ring)
  {
    var n := PadGeometry.NumPadsPerRing as real;
    var h := PadGeometry.GetPadHight();
    var k := ring as real + 0.5;
    assert PadGeometry.Cm * RingWidth == PadGeometry.RingWidth;
    assert k * h < k * PadGeometry.RingWidth;
    assert PadGeometry.Cm * CenterRadius(ring) > PadGeometry.MinRadius + k * h;
    assert (PadGeometry.Cm * GetPadApproxWidth(lib, ring)) * n == PadGeometry.Cm * CenterRadius(ring) * 2.0 * lib.pi;
    assert PadGeometry.GetPadApproxWidth(lib, ring) * n == (PadGeometry.MinRadius + k * h) * 2.0 * lib.pi;
  }
}

/**
 * The matplotlib pad drawing (`draw_pads.py`): one wedge per pad, ring by ring, with angles in
 * degrees and radii in cm. Its `get_pad_center` is the scripts' shared one
 * (`ScriptGeometry.GetPadCenter`); the figure itself is not modelled.
 */
module DrawPads {
  import opened Trig
  import PadGeometry
  import PytdisGeometry
  import ScriptGeometry

  const FirstRingInnerRadius: real := 5.0
  const PlaneRingRadius: real := 10.0
  const LastRingOuterRadius: real := FirstRingInnerRadius + PlaneRingRadius
  const RingWidth: real := PlaneRingRadius / PadGeometry.NumRings as real
  /** The angular width of a pad in degrees. */
  const DeltaThetaDeg: real := 360.0 / PadGeometry.NumPadsPerRing as real

  /**
   * A matplotlib `Wedge` centred on the origin: outer radius, start and end angle in degrees,
   * and radial width (the wedge reaches inwards from the outer radius by the width).
   */
  datatype Wedge = Wedge(outer: real, thetaStart: real, thetaEnd: real, width: real)

  function Inner(w: Wedge): real {
    w.outer - w.width
  }

  /** The wedge of pad `p` of ring `r`, as the loop body builds it. */
  function WedgeOf(r: int, p: int): (w: Wedge)
    ensures Inner(w) == FirstRingInnerRadius + r as real * RingWidth
    ensures w.outer == FirstRingInnerRadius + (r + 1) as real * RingWidth
    ensures w.thetaEnd - w.thetaStart == DeltaThetaDeg
  {
    var rOuter := FirstRingInnerRadius + (r + 1) as real * RingWidth;
    var thetaOffset := if r % 2 == 0 then 0.0 else DeltaThetaDeg / 2.0;
    var thetaStart := p as real * DeltaThetaDeg + thetaOffset;
    Wedge(rOuter, thetaStart, thetaStart + DeltaThetaDeg, RingWidth)
  }

  /** Where the wedge of pad `p` of ring `r` sits in the drawing order. */
  function WedgeIndex(r: int, p: int): int {
    r * 122 + p
  }

  /** Ring `r + 1` starts where ring `r` ends; the rings span 5 cm to 15 cm. */
  lemma RingsContiguous(r: int, p: int, q: int)
    requires 0 <= r < PadGeometry.NumRings - 1
    ensures WedgeOf(r, p).outer == Inner(WedgeOf(r + 1, q))
    ensures Inner(WedgeOf(0, p)) == FirstRingInnerRadius
    ensures WedgeOf(PadGeometry.NumRings - 1, p).outer == LastRingOuterRadius
  {
  }

  /** Pad `p + 1` starts where pad `p` ends, and the pads of a ring cover exactly 360 degrees. */
  lemma PadsContiguous(r: int, p: int)
    requires 0 <= p < PadGeometry.NumPadsPerRing - 1
    ensures WedgeOf(r, p).thetaEnd == WedgeOf(r, p + 1).thetaStart
    ensures WedgeOf(r, PadGeometry.NumPadsPerRing - 1).thetaEnd - WedgeOf(r, 0).thetaStart == 360.0
  {
  }

  /** Odd rings start half a pad further round than even ones. */
  lemma OddRingsStaggered(even: int, odd: int, p: int)
    requires even % 2 == 0 && odd % 2 == 1
    ensures WedgeOf(odd, p).thetaStart - WedgeOf(even, p).thetaStart == DeltaThetaDeg / 2.0
  {
  }

  /** Degrees to radians. */
  function Radians(lib: MathLib, deg: real): real {
    deg * lib.pi / 180.0
  }

  /** The conversion is linear, and one pad in degrees is one pad in radians. */
  lemma RadiansLinear(lib: MathLib, k: real, a: real)
    ensures Radians(lib, k * DeltaThetaDeg + a) == k * PadGeometry.DeltaTheta(lib) + Radians(lib, a)
  {
    assert (k * DeltaThetaDeg + a) * lib.pi == k * (DeltaThetaDeg * lib.pi) + a * lib.pi;
  }

  /**
   * The scripts' pad centre lies in the middle of the drawn wedge: its radius halfway between
   * the wedge's radii, its angle (in radians) the middle of the wedge's angles (in degrees).
   */
  lemma CentreIsWedgeMiddle(lib: MathLib, r: int, p: int)
    requires lib.Valid()
    ensures 2.0 * ScriptGeometry.CenterRadius(r) == Inner(WedgeOf(r, p)) + WedgeOf(r, p).outer
    ensures ScriptGeometry.CenterAngle(lib, r, p)
         == Radians(lib, (WedgeOf(r, p).thetaStart + WedgeOf(r, p).thetaEnd) / 2.0)
  {
    var d := PadGeometry.DeltaTheta(lib);
    var w := WedgeOf(r, p);
    assert DeltaThetaDeg * lib.pi / 180.0 == d;
    var off := if r % 2 == 0 then 0.0 else DeltaThetaDeg / 2.0;
    assert (w.thetaStart + w.thetaEnd) / 2.0 == p as real * DeltaThetaDeg + off + DeltaThetaDeg / 2.0;
    assert (p as real * DeltaThetaDeg) * lib.pi / 180.0 == p as real * d;
    assert off * lib.pi / 180.0 == (if r % 2 == 0 then 0.0 else d / 2.0);
  }

  /** The drawn wedge is pytdis's angular bounds of the pad, in degrees instead of radians. */
  lemma WedgeIsPytdisBounds(lib: MathLib, r: int, p: int)
    requires PadGeometry.ValidRing(r) && PadGeometry.ValidPad(p)
    ensures PytdisGeometry.GetPadAngularBounds(lib, r, p).value
         == (Radians(lib, WedgeOf(r, p).thetaStart), Radians(lib, WedgeOf(r, p).thetaEnd))
  {
    var d := PadGeometry.DeltaTheta(lib);
    var start := p as real * d + PytdisGeometry.ThetaOffset(lib, r);
    var bounds := PytdisGeometry.GetPadAngularBounds(lib, r, p);
    assert bounds.Success?;
    assert bounds.value.0 == start && bounds.value.1 == start + d;
    WedgeStartInRadians(lib, r, p);
    var w := WedgeOf(r, p);
    assert w.thetaEnd == 1.0 * DeltaThetaDeg + w.thetaStart;
    RadiansLinear(lib, 1.0, w.thetaStart);
    assert Radians(lib, w.thetaStart) == start;
    assert Radians(lib, w.thetaEnd) == start + d;
  }

  lemma WedgeStartInRadians(lib: MathLib, r: int, p: int)
    ensures Radians(lib, WedgeOf(r, p).thetaStart) == p as real * PadGeometry.DeltaTheta(lib) + PytdisGeometry.ThetaOffset(lib, r)
  {
    var off := if r % 2 == 0 then 0.0 else DeltaThetaDeg / 2.0;
    assert WedgeOf(r, p).thetaStart == p as real * DeltaThetaDeg + off;
    RadiansLinear(lib, p as real, off);
    RadiansLinear(lib, 0.5, 0.0);
    assert off == 0.0 || off == 0.5 * DeltaThetaDeg + 0.0;
  }

  /** The pad loop for ring `r`: appends the ring's wedges, pad by pad. */
  method DrawRing(r: int, wedges0: seq<Wedge>) returns (wedges: seq<Wedge>)
    ensures |wedges| == |wedges0| + PadGeometry.NumPadsPerRing
    ensures wedges[..|wedges0|] == wedges0
    ensures forall p :: 0 <= p < PadGeometry.NumPadsPerRing ==> wedges[|wedges0| + p] == WedgeOf(r, p)
  {
    var rOuter := FirstRingInnerRadius + (r + 1) as real * RingWidth;
    var thetaOffset := if r % 2 == 0 then 0.0 else DeltaThetaDeg / 2.0;
    wedges := wedges0;
    var p := 0;
    while p < PadGeometry.NumPadsPerRing
      invariant 0 <= p <= PadGeometry.NumPadsPerRing
      invariant |wedges| == |wedges0| + p
      invariant wedges[..|wedges0|] == wedges0
      invariant forall q :: 0 <= q < p ==> wedges[|wedges0| + q] == WedgeOf(r, q)
    {
      var thetaStart := p as real * DeltaThetaDeg + thetaOffset;
      var thetaEnd := thetaStart + DeltaThetaDeg;
      wedges := wedges + [Wedge(rOuter, thetaStart, thetaEnd, RingWidth)];
      p := p + 1;
    }
  }

  /** The module-level loops: one wedge per pad, rings in order and pads in order within a ring. */
  method DrawWedges() returns (wedges: seq<Wedge>)
    ensures |wedges| == PadGeometry.NumRings * PadGeometry.NumPadsPerRing
    ensures forall r, p :: PadGeometry.ValidRing(r) && PadGeometry.ValidPad(p) ==>
      0 <= WedgeIndex(r, p) < |wedges| && wedges[WedgeIndex(r, p)] == WedgeOf(r, p)
  {
    wedges := [];
    var r := 0;
    while r < PadGeometry.NumRings
      invariant 0 <= r <= PadGeometry.NumRings
      invariant |wedges| == r * 122
      invariant forall r', p :: 0 <= r' < r && PadGeometry.ValidPad(p) ==>
        0 <= WedgeIndex(r', p) < |wedges| && wedges[WedgeIndex(r', p)] == WedgeOf(r', p)
    {
      var before := wedges;
      wedges := DrawRing(r, wedges);
      forall r', p | 0 <= r' <= r && PadGeometry.ValidPad(p)
        ensures 0 <= WedgeIndex(r', p) < |wedges| && wedges[WedgeIndex(r', p)] == WedgeOf(r', p)
      {
        if r' < r {
          assert WedgeIndex(r', p) < |before|;
          assert wedges[WedgeIndex(r', p)] == wedges[..|before|][WedgeIndex(r', p)];
        } else {
          assert WedgeIndex(r', p) == |before| + p;
        }
      }
      r := r + 1;
    }
  }
}

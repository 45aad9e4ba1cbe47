/**
 * The pad layout as the plotting scripts (the two bokeh event displays, the matplotlib pad
 * drawing) and the web display's `Geometry.ts` repeat it, in centimetres: the same 21 × 122
 * annulus as the C++ helper, the pad centre half a pad past the pad's start, odd rings
 * staggered by another half pad. Also the per-hit plotting coordinates and the background
 * point cloud of the bokeh displays, which differ only in plane spacing and in whether the
 * drift distance changes sign with the plane's parity.
 */
module ScriptGeometry {
  import opened Wrappers
  import opened Trig
  import PadGeometry
  import PytdisGeometry

  const FirstRingInnerRadius: real := 5.0
  const MaxRadius: real := 15.0
  const TotalRadius: real := MaxRadius - FirstRingInnerRadius
  const RingWidth: real := TotalRadius / PadGeometry.NumRings as real
  /** The number of readout planes the background repeats each pad centre for. */
  const NumPlanes: nat := 10

  function CenterRadius(ring: int): real {
    RingWidth * (ring as real + 0.5) + FirstRingInnerRadius
  }

  function CenterAngle(lib: MathLib, ring: int, pad: int): real {
    var d := PadGeometry.DeltaTheta(lib);
    d / 2.0 + pad as real * d + (if ring % 2 == 0 then 0.0 else d / 2.0)
  }

  /** The centre of a pad in cm. */
  function PadCentre(lib: MathLib, ring: int, pad: int): Point2
    requires lib.Valid()
  {
    Polar(lib, CenterRadius(ring), CenterAngle(lib, ring, pad))
  }

  /** `get_pad_center` / `getPadCenter`: the centre in cm, or the error for the first bad index. */
  function GetPadCenter(lib: MathLib, ring: int, pad: int): (r: Result<Point2, PadGeometry.IndexError>)
    requires lib.Valid()
    ensures r.Success? <==> PadGeometry.ValidRing(ring) && PadGeometry.ValidPad(pad)
    ensures !PadGeometry.ValidRing(ring) ==> r == Failure(PadGeometry.RingOutOfRange)
    ensures PadGeometry.ValidRing(ring) && !PadGeometry.ValidPad(pad) ==> r == Failure(PadGeometry.PadOutOfRange)
    ensures r.Success? ==> r.value == PadCentre(lib, ring, pad)
    ensures r.Success? ==> Norm2(r.value) == CenterRadius(ring) * CenterRadius(ring)
  {
    if !(0 <= ring < PadGeometry.NumRings) then Failure(PadGeometry.RingOutOfRange)
    else if !(0 <= pad < PadGeometry.NumPadsPerRing) then Failure(PadGeometry.PadOutOfRange)
    else Success(PadCentre(lib, ring, pad))
  }

  /**
   * The scripts agree with the C++ helper: the same indices fail with the same error, and a
   * centre in cm is the C++ centre in mm divided by ten.
   */
  lemma AgreesWithCpp(lib: MathLib, ring: int, pad: int)
    requires lib.Valid()
    ensures GetPadCenter(lib, ring, pad).Failure? ==> PadGeometry.GetPadCenter(lib, ring, pad) == GetPadCenter(lib, ring, pad)
    ensures GetPadCenter(lib, ring, pad).Success? ==>
      var p := GetPadCenter(lib, ring, pad).value;
      PadGeometry.GetPadCenter(lib, ring, pad) == Success(Point2(PadGeometry.Cm * p.x, PadGeometry.Cm * p.y))
  {
    if GetPadCenter(lib, ring, pad).Success? {
      assert CenterAngle(lib, ring, pad) == PadGeometry.PadAngle(lib, ring, pad);
      var theta := CenterAngle(lib, ring, pad);
      assert PadGeometry.RingWidth == PadGeometry.Cm * RingWidth;
      assert PadGeometry.GetRingCenterRadius(ring).value == PadGeometry.Cm * CenterRadius(ring);
      var cr := CenterRadius(ring);
      assert GetPadCenter(lib, ring, pad).value == Polar(lib, cr, theta) == Point2(cr * lib.cos(theta), cr * lib.sin(theta));
      assert PadGeometry.GetPadCenter(lib, ring, pad).value == Polar(lib, PadGeometry.Cm * cr, theta);
      assert Polar(lib, PadGeometry.Cm * cr, theta) == Point2((PadGeometry.Cm * cr) * lib.cos(theta), (PadGeometry.Cm * cr) * lib.sin(theta));
      assert PadGeometry.Cm * (cr * lib.cos(theta)) == (PadGeometry.Cm * cr) * lib.cos(theta);
      assert PadGeometry.Cm * (cr * lib.sin(theta)) == (PadGeometry.Cm * cr) * lib.sin(theta);
      var p := GetPadCenter(lib, ring, pad).value;
      assert PadGeometry.GetPadCenter(lib, ring, pad).value == Point2(PadGeometry.Cm * p.x, PadGeometry.Cm * p.y);
    }
  }

  /** The scripts' centre angle is half a pad short of the pytdis one, at the same radius. */
  lemma HalfPadShortOfPytdis(lib: MathLib, ring: int, pad: int)
    requires PadGeometry.ValidRing(ring) && PadGeometry.ValidPad(pad)
    ensures CenterAngle(lib, ring, pad) == PytdisGeometry.CenterAngle(lib, ring, pad) - PadGeometry.DeltaTheta(lib) / 2.0
    ensures CenterRadius(ring) == PytdisGeometry.CenterRadius(ring)
  {
  }

  // ---------------------------------------------------------------------------------------
  // Hits to plotting coordinates

  /** Python `int()` of a float: truncation toward zero. */
  function Trunc(v: real): (n: int)
    ensures v >= 0.0 ==> n as real <= v < n as real + 1.0
    ensures v < 0.0 ==> n as real - 1.0 < v <= n as real
  {
    if v >= 0.0 then v.Floor else -((-v).Floor)
  }

  /** Why a hit row could not be plotted: too few columns, or a bad ring/pad. */
  datatype HitError = MissingColumn(hitIndex: nat) | BadPad(hitIndex: nat, error: PadGeometry.IndexError)

  /** One plotted hit: the columns `prepare_hits_data` builds, at one index. */
  datatype PlotHit = PlotHit(time: real, x: real, y: real, z: real, amplitude: real, plane: int)

  /**
   * The plotted z in cm: plane number times the plane spacing, plus the drift distance (metres
   * to cm), which is subtracted on odd planes when `signed` holds.
   */
  function HitZ(plane: int, zToGem: real, spacing: real, signed: bool): real {
    plane as real * spacing + (if signed && plane % 2 != 0 then -zToGem else zToGem) * 100.0
  }

  /** The plotted hit of row `index`; columns 0..5 are time, amplitude, ring, pad, plane, drift distance. */
  function HitPoint(lib: MathLib, hit: seq<real>, index: nat, spacing: real, signed: bool): (r: Result<PlotHit, HitError>)
    requires lib.Valid()
    ensures |hit| < 6 ==> r == Failure(MissingColumn(index))
    ensures r.Success? ==>
      && |hit| >= 6
      && r.value.time == hit[0] && r.value.amplitude == hit[1] && r.value.plane == Trunc(hit[4])
      && r.value.z == HitZ(Trunc(hit[4]), hit[5], spacing, signed)
      && GetPadCenter(lib, Trunc(hit[2]), Trunc(hit[3])) == Success(Point2(r.value.x, r.value.y))
  {
    if |hit| < 6 then Failure(MissingColumn(index))
    else
      var ring := Trunc(hit[2]);
      var pad := Trunc(hit[3]);
      var plane := Trunc(hit[4]);
      match GetPadCenter(lib, ring, pad)
      case Failure(e) => Failure(BadPad(index, e))
      case Success(c) => Success(PlotHit(hit[0], c.x, c.y, HitZ(plane, hit[5], spacing, signed), hit[1], plane))
  }

  /** The plotted hits of the first `n` rows, or the first error among them. */
  function HitPoints(lib: MathLib, hits: seq<seq<real>>, n: nat, spacing: real, signed: bool): Result<seq<PlotHit>, HitError>
    requires lib.Valid() && n <= |hits|
    decreases n
  {
    if n == 0 then Success([])
    else
      var before := HitPoints(lib, hits, n - 1, spacing, signed);
      if before.Failure? then before
      else match HitPoint(lib, hits[n - 1], n - 1, spacing, signed)
        case Success(h) => Success(before.value + [h])
        case Failure(e) => Failure(e)
  }

  lemma {:induction false} HitPointsFail(lib: MathLib, hits: seq<seq<real>>, n: nat, m: nat, spacing: real, signed: bool)
    requires lib.Valid() && n <= m <= |hits| && HitPoints(lib, hits, n, spacing, signed).Failure?
    ensures HitPoints(lib, hits, m, spacing, signed) == HitPoints(lib, hits, n, spacing, signed)
    decreases m - n
  {
    if n < m {
      HitPointsFail(lib, hits, n, m - 1, spacing, signed);
    }
  }

  /**
   * Plotting succeeds exactly when every row does; it then gives one plotted hit per row, in
   * row order, so all output columns have the hits' length.
   */
  lemma {:induction false} HitPointsExactly(lib: MathLib, hits: seq<seq<real>>, n: nat, spacing: real, signed: bool)
    requires lib.Valid() && n <= |hits|
    ensures HitPoints(lib, hits, n, spacing, signed).Success? <==>
      forall k :: 0 <= k < n ==> HitPoint(lib, hits[k], k, spacing, signed).Success?
    ensures HitPoints(lib, hits, n, spacing, signed).Success? ==>
      var ps := HitPoints(lib, hits, n, spacing, signed).value;
      |ps| == n && forall k :: 0 <= k < n ==> ps[k] == HitPoint(lib, hits[k], k, spacing, signed).value
    decreases n
  {
    if n > 0 {
      HitPointsExactly(lib, hits, n - 1, spacing, signed);
    }
  }

  /** `prepare_hits_data`: converts the hits one by one; the first bad row raises. */
  method PrepareHitsData(lib: MathLib, hits: seq<seq<real>>, spacing: real, signed: bool) returns (r: Result<seq<PlotHit>, HitError>)
    requires lib.Valid()
    ensures r == HitPoints(lib, hits, |hits|, spacing, signed)
  {
    var points: seq<PlotHit> := [];
    var i := 0;
    while i < |hits|
      invariant 0 <= i <= |hits|
      invariant HitPoints(lib, hits, i, spacing, signed) == Success(points)
    {
      var p := HitPoint(lib, hits[i], i, spacing, signed);
      if p.Failure? {
        HitPointsFail(lib, hits, i + 1, |hits|, spacing, signed);
        return Failure(p.error);
      }
      points := points + [p.value];
      i := i + 1;
    }
    return Success(points);
  }

  // ---------------------------------------------------------------------------------------
  // The background point cloud

  datatype Point3 = Point3(x: real, y: real, z: real)

  /** One pad centre repeated for the planes `0..n`, at z = plane × spacing. */
  function PlanePoints(c: Point2, spacing: real, n: nat): (ps: seq<Point3>)
    ensures |ps| == n
    ensures forall plane :: 0 <= plane < n ==> ps[plane] == Point3(c.x, c.y, plane as real * spacing)
  {
    seq(n, plane requires 0 <= plane < n => Point3(c.x, c.y, plane as real * spacing))
  }

  lemma PlanePointsStep(c: Point2, spacing: real, n: nat)
    ensures PlanePoints(c, spacing, n + 1) == PlanePoints(c, spacing, n) + [Point3(c.x, c.y, n as real * spacing)]
  {
    var longer := PlanePoints(c, spacing, n + 1);
    var shorter := PlanePoints(c, spacing, n) + [Point3(c.x, c.y, n as real * spacing)];
    assert |longer| == |shorter|;
    forall k | 0 <= k < |longer|
      ensures longer[k] == shorter[k]
    {
    }
  }

  /** The points of the first `pads` pads of a ring. */
  function PadPoints(lib: MathLib, ring: int, pads: nat, spacing: real): (ps: seq<Point3>)
    requires lib.Valid()
    ensures |ps| == pads * 10
    decreases pads
  {
    if pads == 0 then []
    else PadPoints(lib, ring, pads - 1, spacing) + PlanePoints(PadCentre(lib, ring, pads - 1), spacing, NumPlanes)
  }

  /** The points of the first `rings` rings, each of `pads` pads. */
  function RingPoints(lib: MathLib, rings: nat, pads: nat, spacing: real): (ps: seq<Point3>)
    requires lib.Valid()
    decreases rings
  {
    if rings == 0 then []
    else RingPoints(lib, rings - 1, pads, spacing) + PadPoints(lib, rings - 1, pads, spacing)
  }

  lemma {:induction false} RingPointsLength(lib: MathLib, rings: nat, pads: nat, spacing: real)
    requires lib.Valid() && pads == 122
    ensures |RingPoints(lib, rings, pads, spacing)| == rings * 1220
  {
    if rings > 0 {
      RingPointsLength(lib, rings - 1, pads, spacing);
    }
  }

  /** The full background: 21 · 122 · 10 points. */
  function Background(lib: MathLib, spacing: real): (ps: seq<Point3>)
    requires lib.Valid()
    ensures |ps| == 25620
  {
    RingPointsLength(lib, PadGeometry.NumRings, PadGeometry.NumPadsPerRing, spacing);
    RingPoints(lib, PadGeometry.NumRings, PadGeometry.NumPadsPerRing, spacing)
  }

  /** Among the points of `pads` pads, point `pad · 10 + plane` is that pad's point at that plane. */
  lemma {:induction false} PadPointIn(lib: MathLib, spacing: real, ring: int, pads: nat, pad: nat, plane: nat)
    requires lib.Valid() && pad < pads && plane < NumPlanes
    ensures pad * 10 + plane < |PadPoints(lib, ring, pads, spacing)|
    ensures PadPoints(lib, ring, pads, spacing)[pad * 10 + plane]
         == PlanePoints(PadCentre(lib, ring, pad), spacing, NumPlanes)[plane]
    decreases pads
  {
    if pad < pads - 1 {
      PadPointIn(lib, spacing, ring, pads - 1, pad, plane);
    }
  }

  /** Within one ring's points, point `pad · 10 + plane` is that pad's centre at that plane. */
  lemma PadPointAt(lib: MathLib, spacing: real, ring: int, pad: int, plane: int)
    requires lib.Valid()
    requires PadGeometry.ValidRing(ring) && PadGeometry.ValidPad(pad) && 0 <= plane < NumPlanes as int
    ensures 0 <= pad * 10 + plane < 1220
    ensures var c := GetPadCenter(lib, ring, pad).value;
      PadPoints(lib, ring, PadGeometry.NumPadsPerRing, spacing)[pad * 10 + plane] == Point3(c.x, c.y, plane as real * spacing)
  {
    PadPointIn(lib, spacing, ring, PadGeometry.NumPadsPerRing, pad, plane);
  }

  /** Within the points of `rings` rings, the points of ring `ring` follow those of the rings before it. */
  lemma {:induction false} RingPointAt(lib: MathLib, spacing: real, rings: nat, pads: nat, ring: nat, j: nat)
    requires lib.Valid() && ring < rings && j < |PadPoints(lib, ring, pads, spacing)|
    ensures |RingPoints(lib, ring, pads, spacing)| + j < |RingPoints(lib, rings, pads, spacing)|
    ensures RingPoints(lib, rings, pads, spacing)[|RingPoints(lib, ring, pads, spacing)| + j]
         == PadPoints(lib, ring, pads, spacing)[j]
    decreases rings
  {
    if ring < rings - 1 {
      RingPointAt(lib, spacing, rings - 1, pads, ring, j);
    }
  }

  /** Where the point of pad `pad` of ring `ring` at plane `plane` sits in the background. */
  function PointIndex(ring: int, pad: int, plane: int): int {
    (ring * 122 + pad) * 10 + plane
  }

  /**
   * Point `PointIndex(ring, pad, plane)` of the background is the centre of that pad at
   * z = plane × spacing: the cloud is ordered ring, then pad, then plane.
   */
  lemma BackgroundPointAt(lib: MathLib, spacing: real, ring: int, pad: int, plane: int)
    requires lib.Valid()
    requires PadGeometry.ValidRing(ring) && PadGeometry.ValidPad(pad) && 0 <= plane < NumPlanes as int
    ensures 0 <= PointIndex(ring, pad, plane) < 25620
    ensures var c := GetPadCenter(lib, ring, pad).value;
      Background(lib, spacing)[PointIndex(ring, pad, plane)] == Point3(c.x, c.y, plane as real * spacing)
  {
    var j := pad * 10 + plane;
    ghost var rings: nat, pads: nat := PadGeometry.NumRings, PadGeometry.NumPadsPerRing;
    RingPointsLength(lib, ring, pads, spacing);
    assert PointIndex(ring, pad, plane) == |RingPoints(lib, ring, pads, spacing)| + j;
    PadPointAt(lib, spacing, ring, pad, plane);
    RingPointAt(lib, spacing, rings, pads, ring, j);
    assert Background(lib, spacing) == RingPoints(lib, rings, pads, spacing);
  }

  /** The x, y and z columns of a list of points. */
  function Xs(ps: seq<Point3>): (xs: seq<real>)
    ensures |xs| == |ps| && forall k :: 0 <= k < |ps| ==> xs[k] == ps[k].x
  {
    seq(|ps|, k requires 0 <= k < |ps| => ps[k].x)
  }

  function Ys(ps: seq<Point3>): (ys: seq<real>)
    ensures |ys| == |ps| && forall k :: 0 <= k < |ps| ==> ys[k] == ps[k].y
  {
    seq(|ps|, k requires 0 <= k < |ps| => ps[k].y)
  }

  function Zs(ps: seq<Point3>): (zs: seq<real>)
    ensures |zs| == |ps| && forall k :: 0 <= k < |ps| ==> zs[k] == ps[k].z
  {
    seq(|ps|, k requires 0 <= k < |ps| => ps[k].z)
  }

  lemma ColumnsAppend(ps: seq<Point3>, p: Point3)
    ensures Xs(ps + [p]) == Xs(ps) + [p.x] && Ys(ps + [p]) == Ys(ps) + [p.y] && Zs(ps + [p]) == Zs(ps) + [p.z]
  {
    assert Xs(ps + [p]) == Xs(ps) + [p.x];
    assert Ys(ps + [p]) == Ys(ps) + [p.y];
    assert Zs(ps + [p]) == Zs(ps) + [p.z];
  }

  /** Every index of the background is the point of exactly one ring, pad and plane. */
  lemma PointIndexOnto(k: int) returns (ring: int, pad: int, plane: int)
    requires 0 <= k < 25620
    ensures PadGeometry.ValidRing(ring) && PadGeometry.ValidPad(pad) && 0 <= plane < NumPlanes as int
    ensures PointIndex(ring, pad, plane) == k
  {
    var r := k % 1220;
    ring, pad, plane := k / 1220, r / 10, r % 10;
    assert k == 1220 * ring + r;
    assert r == 10 * pad + plane;
  }

  /** The x and y columns of the background, read at the point of one ring, pad and plane. */
  lemma CentreColumnsAt(lib: MathLib, spacing: real, xs: seq<real>, ys: seq<real>, ring: int, pad: int, plane: int)
    requires lib.Valid()
    requires xs == Xs(Background(lib, spacing)) && ys == Ys(Background(lib, spacing))
    requires PadGeometry.ValidRing(ring) && PadGeometry.ValidPad(pad) && 0 <= plane < NumPlanes as int
    ensures 0 <= PointIndex(ring, pad, plane) < |xs| == |ys| == 25620
    ensures GetPadCenter(lib, ring, pad) == Success(Point2(xs[PointIndex(ring, pad, plane)], ys[PointIndex(ring, pad, plane)]))
  {
    BackgroundPointAt(lib, spacing, ring, pad, plane);
  }

  /** The z column of the background, read at the point of one ring, pad and plane. */
  lemma HeightColumnAt(lib: MathLib, spacing: real, zs: seq<real>, ring: int, pad: int, plane: int)
    requires lib.Valid()
    requires zs == Zs(Background(lib, spacing))
    requires PadGeometry.ValidRing(ring) && PadGeometry.ValidPad(pad) && 0 <= plane < NumPlanes as int
    ensures 0 <= PointIndex(ring, pad, plane) < |zs| == 25620
    ensures zs[PointIndex(ring, pad, plane)] == plane as real * spacing
  {
    BackgroundPointAt(lib, spacing, ring, pad, plane);
  }

  /** The x and y columns of the background hold, at each pad's points, that pad's centre. */
  lemma BackgroundCentres(lib: MathLib, spacing: real, xs: seq<real>, ys: seq<real>)
    requires lib.Valid()
    requires xs == Xs(Background(lib, spacing)) && ys == Ys(Background(lib, spacing))
    ensures |xs| == 25620 && |ys| == 25620
    ensures forall ring, pad, plane ::
      PadGeometry.ValidRing(ring) && PadGeometry.ValidPad(pad) && 0 <= plane < NumPlanes as int ==>
        && 0 <= PointIndex(ring, pad, plane) < 25620
        && GetPadCenter(lib, ring, pad) == Success(Point2(xs[PointIndex(ring, pad, plane)], ys[PointIndex(ring, pad, plane)]))
  {
    forall ring, pad, plane | PadGeometry.ValidRing(ring) && PadGeometry.ValidPad(pad) && 0 <= plane < NumPlanes as int
      ensures 0 <= PointIndex(ring, pad, plane) < 25620
      ensures GetPadCenter(lib, ring, pad) == Success(Point2(xs[PointIndex(ring, pad, plane)], ys[PointIndex(ring, pad, plane)]))
    {
      CentreColumnsAt(lib, spacing, xs, ys, ring, pad, plane);
    }
  }

  /** The z column of the background holds, at the point of plane `plane`, plane × spacing. */
  lemma BackgroundHeights(lib: MathLib, spacing: real, zs: seq<real>)
    requires lib.Valid()
    requires zs == Zs(Background(lib, spacing))
    ensures |zs| == 25620
    ensures forall ring, pad, plane ::
      PadGeometry.ValidRing(ring) && PadGeometry.ValidPad(pad) && 0 <= plane < NumPlanes as int ==>
        && 0 <= PointIndex(ring, pad, plane) < 25620
        && zs[PointIndex(ring, pad, plane)] == plane as real * spacing
  {
    forall ring, pad, plane | PadGeometry.ValidRing(ring) && PadGeometry.ValidPad(pad) && 0 <= plane < NumPlanes as int
      ensures 0 <= PointIndex(ring, pad, plane) < 25620
      ensures zs[PointIndex(ring, pad, plane)] == plane as real * spacing
    {
      HeightColumnAt(lib, spacing, zs, ring, pad, plane);
    }
  }

  /**
   * Three columns that hold the pad cloud with the given plane spacing: 21 · 122 · 10 points,
   * where the point `PointIndex(ring, pad, plane)` is the centre of that pad at z = plane × spacing.
   */
  ghost predicate PadCloud(lib: MathLib, spacing: real, xs: seq<real>, ys: seq<real>, zs: seq<real>)
    requires lib.Valid()
  {
    && |xs| == 25620 && |ys| == 25620 && |zs| == 25620
    && (forall ring, pad, plane ::
          PadGeometry.ValidRing(ring) && PadGeometry.ValidPad(pad) && 0 <= plane < NumPlanes as int ==>
            && 0 <= PointIndex(ring, pad, plane) < 25620
            && GetPadCenter(lib, ring, pad) == Success(Point2(xs[PointIndex(ring, pad, plane)], ys[PointIndex(ring, pad, plane)])))
    && (forall ring, pad, plane ::
          PadGeometry.ValidRing(ring) && PadGeometry.ValidPad(pad) && 0 <= plane < NumPlanes as int ==>
            && 0 <= PointIndex(ring, pad, plane) < 25620
            && zs[PointIndex(ring, pad, plane)] == plane as real * spacing)
  }

  /** The columns of the background are the pad cloud. */
  lemma BackgroundIsPadCloud(lib: MathLib, spacing: real, xs: seq<real>, ys: seq<real>, zs: seq<real>)
    requires lib.Valid()
    requires xs == Xs(Background(lib, spacing)) && ys == Ys(Background(lib, spacing)) && zs == Zs(Background(lib, spacing))
    ensures PadCloud(lib, spacing, xs, ys, zs)
  {
    BackgroundCentres(lib, spacing, xs, ys);
    BackgroundHeights(lib, spacing, zs);
  }

  lemma BackgroundIs(lib: MathLib, spacing: real, rings: nat, pads: nat)
    requires lib.Valid() && rings == PadGeometry.NumRings && pads == PadGeometry.NumPadsPerRing
    ensures Background(lib, spacing) == RingPoints(lib, rings, pads, spacing)
  {
  }

  /** The innermost loop of `prepare_background_geometry`: one point per plane for the centre `c`. */
  method AppendPlanes(c: Point2, spacing: real, xs0: seq<real>, ys0: seq<real>, zs0: seq<real>, ghost pts0: seq<Point3>)
    returns (xs: seq<real>, ys: seq<real>, zs: seq<real>)
    requires xs0 == Xs(pts0) && ys0 == Ys(pts0) && zs0 == Zs(pts0)
    ensures var pts := pts0 + PlanePoints(c, spacing, NumPlanes); xs == Xs(pts) && ys == Ys(pts) && zs == Zs(pts)
  {
    xs, ys, zs := xs0, ys0, zs0;
    ghost var pts := pts0;
    var plane := 0;
    while plane < NumPlanes
      invariant 0 <= plane <= NumPlanes
      invariant pts == pts0 + PlanePoints(c, spacing, plane)
      invariant xs == Xs(pts) && ys == Ys(pts) && zs == Zs(pts)
    {
      var z := plane as real * spacing;
      ColumnsAppend(pts, Point3(c.x, c.y, z));
      xs, ys, zs := xs + [c.x], ys + [c.y], zs + [z];
      pts := pts + [Point3(c.x, c.y, z)];
      PlanePointsStep(c, spacing, plane);
      plane := plane + 1;
    }
  }

  lemma PadPointsStep(lib: MathLib, ring: int, pad: nat, spacing: real, pts0: seq<Point3>, c: Point2)
    requires lib.Valid() && c == PadCentre(lib, ring, pad)
    ensures pts0 + PadPoints(lib, ring, pad + 1, spacing) == pts0 + PadPoints(lib, ring, pad, spacing) + PlanePoints(c, spacing, NumPlanes)
  {
    assert PadPoints(lib, ring, pad + 1, spacing) == PadPoints(lib, ring, pad, spacing) + PlanePoints(c, spacing, NumPlanes);
  }

  /** The pad loop of `prepare_background_geometry` for one ring, over its first `pads` pads. */
  method AppendRing(lib: MathLib, ring: int, pads: nat, spacing: real, xs0: seq<real>, ys0: seq<real>, zs0: seq<real>, ghost pts0: seq<Point3>)
    returns (xs: seq<real>, ys: seq<real>, zs: seq<real>)
    requires lib.Valid() && PadGeometry.ValidRing(ring) && pads <= PadGeometry.NumPadsPerRing
    requires xs0 == Xs(pts0) && ys0 == Ys(pts0) && zs0 == Zs(pts0)
    ensures var pts := pts0 + PadPoints(lib, ring, pads, spacing); xs == Xs(pts) && ys == Ys(pts) && zs == Zs(pts)
  {
    xs, ys, zs := xs0, ys0, zs0;
    ghost var pts := pts0;
    var pad := 0;
    while pad < pads
      invariant 0 <= pad <= pads
      invariant pts == pts0 + PadPoints(lib, ring, pad, spacing)
      invariant xs == Xs(pts) && ys == Ys(pts) && zs == Zs(pts)
    {
      var c := GetPadCenter(lib, ring, pad).value;
      xs, ys, zs := AppendPlanes(c, spacing, xs, ys, zs, pts);
      pts := pts + PlanePoints(c, spacing, NumPlanes);
      PadPointsStep(lib, ring, pad, spacing, pts0, c);
      pad := pad + 1;
    }
  }

  /** The ring loop of `prepare_background_geometry`, over the first `rings` rings of `pads` pads each. */
  method AppendRings(lib: MathLib, rings: nat, pads: nat, spacing: real)
    returns (xs: seq<real>, ys: seq<real>, zs: seq<real>)
    requires lib.Valid() && rings <= PadGeometry.NumRings && pads <= PadGeometry.NumPadsPerRing
    ensures var pts := RingPoints(lib, rings, pads, spacing); xs == Xs(pts) && ys == Ys(pts) && zs == Zs(pts)
  {
    xs, ys, zs := [], [], [];
    ghost var pts: seq<Point3> := [];
    var ring := 0;
    while ring < rings
      invariant 0 <= ring <= rings
      invariant pts == RingPoints(lib, ring, pads, spacing)
      invariant xs == Xs(pts) && ys == Ys(pts) && zs == Zs(pts)
    {
      xs, ys, zs := AppendRing(lib, ring, pads, spacing, xs, ys, zs, pts);
      pts := pts + PadPoints(lib, ring, pads, spacing);
      ring := ring + 1;
    }
  }

  /**
   * `prepare_background_geometry`: loops over rings, pads and planes, appending one point each;
   * the three lists are the columns of the background cloud.
   */
  method PrepareBackgroundGeometry(lib: MathLib, spacing: real) returns (xs: seq<real>, ys: seq<real>, zs: seq<real>)
    requires lib.Valid()
    ensures xs == Xs(Background(lib, spacing)) && ys == Ys(Background(lib, spacing)) && zs == Zs(Background(lib, spacing))
  {
    xs, ys, zs := AppendRings(lib, PadGeometry.NumRings, PadGeometry.NumPadsPerRing, spacing);
    BackgroundIs(lib, spacing, PadGeometry.NumRings, PadGeometry.NumPadsPerRing);
  }
}

/**
 * The per-hit reconstruction of `ReconstructedHitFactory::Execute`: each digitized hit
 * (plane, ring, pad, drift distance to the GEM) becomes one tracker hit with a space point,
 * a diagonal covariance and a packed cell id, and, when the detector surface can project the
 * point, one 2-D measurement on that surface. Lengths are millimetres, times nanoseconds.
 */
module ReconstructedHitFactory {
  import opened Wrappers
  import opened Trig
  import opened PadGeometry

  /** The literal `get_resolution` divides by, standing in for the square root of 12. */
  const Sqrt12: real := 3.4641016151
  /** The z slot of the hit covariance, `1_cm`. */
  const ZCovarianceSlot: real := Cm
  /** The time resolution given to every hit, `1_ns`. */
  const TimeError: real := 1.0
  /** Default of the `acts:use_true_position` parameter. */
  const DefaultUseTruePosition: bool := true
  /** Unsigned 32-bit arithmetic: the cell id is stored as a `uint32_t`. */
  const TwoTo32: int := 0x1_0000_0000

  datatype Vec3 = Vec3(x: real, y: real, z: real)
  datatype Vec2 = Vec2(loc0: real, loc1: real)

  /**
   * A `DigitizedMtpcMcHit`. The true position is `None` when its x coordinate is NaN, the
   * marker the factories test for.
   */
  datatype McHit = McHit(time: real, adc: real, ring: int, pad: int, plane: int, zToGem: real,
                         truePosition: Option<Vec3>)

  /** `edm4eic::CovDiag3f`: the diagonal of a 3x3 covariance. */
  datatype CovDiag3 = CovDiag3(xx: real, yy: real, zz: real)

  /** `edm4eic::TrackerHit`; `rawHit` is the index of the digitized hit it links to, if linked. */
  datatype TrackerHit = TrackerHit(cellId: int, position: Vec3, positionError: CovDiag3,
                                   time: real, timeError: real, edep: real, edepError: real,
                                   rawHit: Option<nat>)

  /** `edm4eic::Cov3f` as filled for a measurement: loc0 variance, loc1 variance, time variance, loc0/loc1 term. */
  datatype Cov3 = Cov3(xx: real, yy: real, tt: real, xy: real)

  /** `edm4eic::Measurement2D`; `hits` holds the indices of the tracker hits it mirrors (parallel to `weights`). */
  datatype Measurement2D = Measurement2D(surface: int, loc: Vec2, time: real, covariance: Cov3,
                                         weights: seq<real>, hits: seq<nat>)

  /**
   * The detector surfaces, seen through the two calls the factory makes on the element of a
   * plane: `globalToLocal` (with zero momentum and a 0.1 um tolerance), whose failure is `None`,
   * and the surface's geometry id.
   */
  datatype Surfaces = Surfaces(globalToLocal: (int, Vec3) -> Option<Vec2>, geometryId: int -> int)

  /** Everything `Execute` reads besides the hits: trig, the plane z positions, the surfaces and the flag. */
  datatype Config = Config(lib: MathLib, planePositions: seq<real>, surfaces: Surfaces, useTruePosition: bool)

  predicate ValidRingPad(mc: McHit) {
    ValidRing(mc.ring) && ValidPad(mc.pad)
  }

  /**
   * The plane table can be indexed by every hit whose pad centre can be computed (the plane
   * lookup `plane_positions[plane]` comes after `getPadCenter`, and is not bounds-checked).
   */
  predicate PlanesIndexable(planePositions: seq<real>, hits: seq<McHit>) {
    forall i :: 0 <= i < |hits| && ValidRingPad(hits[i]) ==> 0 <= hits[i].plane < |planePositions|
  }

  ghost predicate ValidFor(cfg: Config, hits: seq<McHit>) {
    cfg.lib.Valid() && PlanesIndexable(cfg.planePositions, hits)
  }

  /** `get_resolution`: the pixel size divided by (an approximation of) the square root of 12. */
  function GetResolution(pixelSize: real): (res: real)
    ensures res * Sqrt12 == pixelSize
    ensures pixelSize > 0.0 ==> 0.0 < res < pixelSize
  {
    pixelSize / Sqrt12
  }

  /**
   * `get_variance`: the squared resolution, i.e. the variance of a uniform distribution over
   * the pixel, w*w/12, up to the precision of the literal.
   */
  function GetVariance(pixelSize: real): (v: real)
    ensures v >= 0.0
    ensures v * (Sqrt12 * Sqrt12) == pixelSize * pixelSize
    ensures pixelSize * pixelSize <= 12.0 * v <= pixelSize * pixelSize * 1.000000001
  {
    var res := GetResolution(pixelSize);
    VarianceNearUniform(pixelSize, res);
    res * res
  }

  /** The literal's square is just below 12, so the variance sits just above w*w/12. */
  lemma VarianceNearUniform(w: real, res: real)
    requires res * Sqrt12 == w
    ensures w * w <= 12.0 * (res * res) <= w * w * 1.000000001
  {
    var s2 := Sqrt12 * Sqrt12;
    assert 11.99999999 < s2 < 12.0;
    assert w * w == (res * res) * s2;
    assert res * res >= 0.0;
  }

  /**
   * The z of a hit: planes sit back to back, so the drift distance is added on even planes and
   * subtracted on odd ones. (`plane % 2` is non-zero for exactly the odd planes, negative ones
   * included, both with C++'s and with Dafny's remainder.)
   */
  function CalcZ(planeZ: real, plane: int, zToGem: real): (z: real)
    ensures plane % 2 == 0 ==> z - planeZ == zToGem
    ensures plane % 2 != 0 ==> planeZ - z == zToGem
  {
    planeZ + (if plane % 2 != 0 then -zToGem else zToGem)
  }

  /** The hit position: the true position when the flag is set and the truth is present, else the pad centre at the computed z. */
  function SelectPosition(useTruePosition: bool, truePosition: Option<Vec3>, padXY: Point2, calcZ: real): (p: Vec3)
    ensures useTruePosition && truePosition.Some? ==> p == truePosition.value
    ensures !(useTruePosition && truePosition.Some?) ==> p.x == padXY.x && p.y == padXY.y && p.z == calcZ
  {
    if useTruePosition && truePosition.Some? then truePosition.value
    else Vec3(padXY.x, padXY.y, calcZ)
  }

  /** The x and y variance of a hit: the variance of the larger of the pad's approximate width and its height. */
  function XyVariance(lib: MathLib, ring: int): (v: real)
    requires lib.Valid()
    ensures ring >= 0 ==> v == GetVariance(GetPadApproxWidth(lib, ring))
    ensures ring >= 0 ==> v > GetVariance(GetPadHight())
  {
    var w := GetPadApproxWidth(lib, ring);
    var h := GetPadHight();
    var maxDimension := if w >= h then w else h;
    VarianceMonotone(h, w);
    GetVariance(maxDimension)
  }

  /** The variance grows with the pixel size. */
  lemma VarianceMonotone(a: real, b: real)
    ensures 0.0 < a < b ==> GetVariance(a) < GetVariance(b)
  {
    if 0.0 < a < b {
      var s2 := Sqrt12 * Sqrt12;
      assert a * a < b * b;
      assert GetVariance(a) * s2 < GetVariance(b) * s2;
    }
  }

  /**
   * `cell_id = 1000000 * plane + 1000 * ring + pad`, stored in an unsigned 32-bit integer: the
   * value is reduced modulo 2^32.
   */
  function CellId(plane: int, ring: int, pad: int): (id: int)
    ensures 0 <= id < TwoTo32
    ensures 0 <= 1000000 * plane + 1000 * ring + pad < TwoTo32 ==> id == 1000000 * plane + 1000 * ring + pad
  {
    (1000000 * plane + 1000 * ring + pad) % TwoTo32
  }

  /** A cell id of a valid ring and pad decodes back into its plane, ring and pad. */
  lemma CellIdDecode(plane: int, ring: int, pad: int)
    requires 0 <= plane < 4294
    requires ValidRing(ring) && ValidPad(pad)
    ensures CellId(plane, ring, pad) / 1000000 == plane
    ensures CellId(plane, ring, pad) / 1000 % 1000 == ring
    ensures CellId(plane, ring, pad) % 1000 == pad
  {
    var low := 1000 * ring + pad;
    assert 0 <= low < 1000000;
    var id := 1000000 * plane + low;
    assert id < TwoTo32;
    assert CellId(plane, ring, pad) == id;
    DivModUnique(id, 1000000, plane, low);
    DivModUnique(id, 1000, 1000 * plane + ring, pad);
    DivModUnique(1000 * plane + ring, 1000, plane, ring);
  }

  lemma DivModUnique(n: int, d: int, q: int, r: int)
    requires d > 0 && 0 <= r < d && n == q * d + r
    ensures n / d == q && n % d == r
  {
    var q', r' := n / d, n % d;
    assert (q - q') * d == r' - r;
    if q - q' >= 1 {
      MulAtLeast(q - q', d);
    } else if q' - q >= 1 {
      MulAtLeast(q' - q, d);
    }
  }

  lemma MulAtLeast(a: int, d: int)
    requires a >= 1 && d > 0
    ensures a * d >= d
  {
    assert a * d == (a - 1) * d + d;
    assert (a - 1) * d >= 0;
  }

  /** Distinct valid (plane, ring, pad) triples get distinct cell ids. */
  lemma CellIdInjective(p1: int, r1: int, q1: int, p2: int, r2: int, q2: int)
    requires 0 <= p1 < 4294 && ValidRing(r1) && ValidPad(q1)
    requires 0 <= p2 < 4294 && ValidRing(r2) && ValidPad(q2)
    requires CellId(p1, r1, q1) == CellId(p2, r2, q2)
    ensures p1 == p2 && r1 == r2 && q1 == q2
  {
    CellIdDecode(p1, r1, q1);
    CellIdDecode(p2, r2, q2);
  }

  /**
   * The tracker hit created from a digitized hit (not yet linked to it), or the index error of
   * `getPadCenter`, which the factories do not catch.
   */
  function MakeTrackerHit(cfg: Config, mc: McHit): (r: Result<TrackerHit, IndexError>)
    requires cfg.lib.Valid()
    requires ValidRingPad(mc) ==> 0 <= mc.plane < |cfg.planePositions|
    ensures r.Success? <==> ValidRingPad(mc)
    ensures r.Failure? ==> GetPadCenter(cfg.lib, mc.ring, mc.pad) == Failure(r.error)
    ensures r.Success? ==> r.value.rawHit == None && r.value.cellId == CellId(mc.plane, mc.ring, mc.pad)
    ensures r.Success? ==> r.value.time == mc.time && r.value.timeError == TimeError
    ensures r.Success? ==> r.value.edep == mc.adc && r.value.edepError == 0.0
    ensures r.Success? && cfg.useTruePosition && mc.truePosition.Some? ==> r.value.position == mc.truePosition.value
    ensures r.Success? && !(cfg.useTruePosition && mc.truePosition.Some?) ==>
      && Norm2(Point2(r.value.position.x, r.value.position.y)) == Sq(GetRingCenterRadius(mc.ring).value)
      && r.value.position.z == CalcZ(cfg.planePositions[mc.plane], mc.plane, mc.zToGem)
    ensures r.Success? ==> r.value.position == SelectPosition(cfg.useTruePosition, mc.truePosition,
      GetPadCenter(cfg.lib, mc.ring, mc.pad).value, CalcZ(cfg.planePositions[mc.plane], mc.plane, mc.zToGem))
    ensures r.Success? ==> r.value.positionError == CovDiag3(XyVariance(cfg.lib, mc.ring), XyVariance(cfg.lib, mc.ring), ZCovarianceSlot)
  {
    match GetPadCenter(cfg.lib, mc.ring, mc.pad)
    case Failure(e) => Failure(e)
    case Success(padXY) =>
      var planeZ := cfg.planePositions[mc.plane];
      var calcZ := CalcZ(planeZ, mc.plane, mc.zToGem);
      var position := SelectPosition(cfg.useTruePosition, mc.truePosition, padXY, calcZ);
      var v := XyVariance(cfg.lib, mc.ring);
      Success(TrackerHit(CellId(mc.plane, mc.ring, mc.pad), position, CovDiag3(v, v, ZCovarianceSlot),
                         mc.time, TimeError, mc.adc, 0.0, None))
  }

  function Sq(x: real): real { x * x }

  /**
   * The measurement of a tracker hit on its plane's surface. The point projected is the hit's
   * x and y at the plane's own z (not the drift-corrected or true z); a failed projection
   * yields no measurement.
   */
  function MakeMeasurement(cfg: Config, hit: TrackerHit, hitIndex: nat, plane: int, planeZ: real): (m: Option<Measurement2D>)
    ensures m.Some? <==> cfg.surfaces.globalToLocal(plane, Vec3(hit.position.x, hit.position.y, planeZ)).Some?
    ensures m.Some? ==> m.value.loc == cfg.surfaces.globalToLocal(plane, Vec3(hit.position.x, hit.position.y, planeZ)).value
    ensures m.Some? ==> m.value.surface == cfg.surfaces.geometryId(plane) && m.value.time == hit.time
    ensures m.Some? ==> m.value.weights == [1.0] && m.value.hits == [hitIndex]
    ensures m.Some? ==> m.value.covariance == Cov3(hit.positionError.xx, hit.positionError.yy, hit.timeError * hit.timeError, 0.0)
  {
    match cfg.surfaces.globalToLocal(plane, Vec3(hit.position.x, hit.position.y, planeZ))
    case None => None
    case Some(pos) =>
      Some(Measurement2D(cfg.surfaces.geometryId(plane), pos, hit.time,
                         Cov3(hit.positionError.xx, hit.positionError.yy, hit.timeError * hit.timeError, 0.0),
                         [1.0], [hitIndex]))
  }

  datatype Output = Output(trackerHits: seq<TrackerHit>, measurements: seq<Measurement2D>)

  /** The tracker hit of digitized hit number `index`, linked to it as `hit.rawHit(mc_hit)` does. */
  function LinkedHit(cfg: Config, mc: McHit, index: nat): TrackerHit
    requires cfg.lib.Valid()
    requires ValidRingPad(mc) && 0 <= mc.plane < |cfg.planePositions|
  {
    MakeTrackerHit(cfg, mc).value.(rawHit := Some(index))
  }

  /** The measurements (zero or one) contributed by digitized hit number `index`. */
  function MeasurementsOf(cfg: Config, mc: McHit, index: nat): seq<Measurement2D>
    requires cfg.lib.Valid()
    requires ValidRingPad(mc) && 0 <= mc.plane < |cfg.planePositions|
  {
    var hit := LinkedHit(cfg, mc, index);
    match MakeMeasurement(cfg, hit, index, mc.plane, cfg.planePositions[mc.plane])
    case None => []
    case Some(m) => [m]
  }

  /** What `Execute` produces for a list of digitized hits: its two output collections, or the first index error. */
  function Reconstruct(cfg: Config, hits: seq<McHit>): Result<Output, IndexError>
    requires ValidFor(cfg, hits)
    decreases |hits|
  {
    if hits == [] then Success(Output([], []))
    else
      var i := |hits| - 1;
      assert PlanesIndexable(cfg.planePositions, hits[..i]);
      match Reconstruct(cfg, hits[..i])
      case Failure(e) => Failure(e)
      case Success(out) =>
        match MakeTrackerHit(cfg, hits[i])
        case Failure(e) => Failure(e)
        case Success(_) =>
          Success(Output(out.trackerHits + [LinkedHit(cfg, hits[i], i)], out.measurements + MeasurementsOf(cfg, hits[i], i)))
  }

  lemma PrefixIndexable(cfg: Config, hits: seq<McHit>, k: nat)
    requires ValidFor(cfg, hits) && k <= |hits|
    ensures ValidFor(cfg, hits[..k])
  {
  }

  /** Once a prefix fails, every extension fails with the same error. */
  lemma {:induction false} FailureSticks(cfg: Config, hits: seq<McHit>, k: nat)
    requires ValidFor(cfg, hits) && k <= |hits|
    requires ValidFor(cfg, hits[..k])
    requires Reconstruct(cfg, hits[..k]).Failure?
    ensures Reconstruct(cfg, hits) == Reconstruct(cfg, hits[..k])
    decreases |hits| - k
  {
    if k < |hits| {
      PrefixIndexable(cfg, hits, k + 1);
      var p := hits[..k + 1];
      assert p[..k] == hits[..k];
      FailureSticks(cfg, hits, k + 1);
    } else {
      assert hits[..k] == hits;
    }
  }

  /** One more valid hit extends the outputs by its tracker hit and its measurements. */
  lemma ReconstructStep(cfg: Config, hits: seq<McHit>, i: nat, out: Output)
    requires ValidFor(cfg, hits) && i < |hits|
    requires ValidFor(cfg, hits[..i]) && ValidFor(cfg, hits[..i + 1])
    requires Reconstruct(cfg, hits[..i]) == Success(out)
    requires ValidRingPad(hits[i])
    ensures Reconstruct(cfg, hits[..i + 1])
      == Success(Output(out.trackerHits + [LinkedHit(cfg, hits[i], i)],
                        out.measurements + MeasurementsOf(cfg, hits[i], i)))
  {
    assert hits[..i + 1][..i] == hits[..i];
    assert hits[..i + 1][i] == hits[i];
  }

  /** A hit with an invalid ring or pad after a successful prefix makes the extended prefix fail with its error. */
  lemma ReconstructStepFails(cfg: Config, hits: seq<McHit>, i: nat, out: Output)
    requires ValidFor(cfg, hits) && i < |hits|
    requires ValidFor(cfg, hits[..i]) && ValidFor(cfg, hits[..i + 1])
    requires Reconstruct(cfg, hits[..i]) == Success(out)
    requires !ValidRingPad(hits[i])
    ensures Reconstruct(cfg, hits[..i + 1]) == Failure(GetPadCenter(cfg.lib, hits[i].ring, hits[i].pad).error)
  {
    assert hits[..i + 1][..i] == hits[..i];
    assert hits[..i + 1][i] == hits[i];
  }

  /**
   * The body of `Execute`'s loop for a hit whose pad centre `padXY` has been computed: the
   * tracker hit, and the measurement unless `globalToLocal` fails.
   */
  method ReconstructHit(cfg: Config, mc: McHit, i: nat, padXY: Point2) returns (hit: TrackerHit, meas: seq<Measurement2D>)
    requires cfg.lib.Valid() && 0 <= mc.plane < |cfg.planePositions|
    requires GetPadCenter(cfg.lib, mc.ring, mc.pad) == Success(padXY)
    ensures ValidRingPad(mc) && hit == LinkedHit(cfg, mc, i)
    ensures meas == MeasurementsOf(cfg, mc, i)
  {
    var planeZ := cfg.planePositions[mc.plane];
    var calcZ := CalcZ(planeZ, mc.plane, mc.zToGem);
    var position := SelectPosition(cfg.useTruePosition, mc.truePosition, padXY, calcZ);
    var xyVariance := XyVariance(cfg.lib, mc.ring);
    var cov := CovDiag3(xyVariance, xyVariance, ZCovarianceSlot);
    hit := TrackerHit(CellId(mc.plane, mc.ring, mc.pad), position, cov, mc.time, TimeError, mc.adc, 0.0, None);
    hit := hit.(rawHit := Some(i));
    var projected := cfg.surfaces.globalToLocal(mc.plane, Vec3(hit.position.x, hit.position.y, planeZ));
    if projected.None? {
      meas := [];
    } else {
      var pos := projected.value;
      var meas2D := Measurement2D(cfg.surfaces.geometryId(mc.plane), pos, hit.time,
                                  Cov3(cov.xx, cov.yy, hit.timeError * hit.timeError, 0.0), [1.0], [i]);
      meas := [meas2D];
    }
  }

  /**
   * `Execute` of the factory: one pass over the digitized hits, appending a tracker hit for
   * every hit and a measurement for every hit whose projection succeeds; an index error from
   * `getPadCenter` aborts the pass.
   */
  method Execute(cfg: Config, mcHits: seq<McHit>) returns (r: Result<Output, IndexError>)
    requires ValidFor(cfg, mcHits)
    ensures r == Reconstruct(cfg, mcHits)
  {
    var recHits: seq<TrackerHit> := [];
    var measurements: seq<Measurement2D> := [];
    var i := 0;
    assert mcHits[..0] == [];
    while i < |mcHits|
      invariant 0 <= i <= |mcHits|
      invariant ValidFor(cfg, mcHits[..i])
      invariant Reconstruct(cfg, mcHits[..i]) == Success(Output(recHits, measurements))
    {
      var mc := mcHits[i];
      PrefixIndexable(cfg, mcHits, i + 1);
      var center := GetPadCenter(cfg.lib, mc.ring, mc.pad);
      if center.Failure? {
        ReconstructStepFails(cfg, mcHits, i, Output(recHits, measurements));
        FailureSticks(cfg, mcHits, i + 1);
        return Failure(center.error);
      }
      ghost var before := Output(recHits, measurements);
      var hit, meas := ReconstructHit(cfg, mc, i, center.value);
      recHits := recHits + [hit];
      measurements := measurements + meas;
      ReconstructStep(cfg, mcHits, i, before);
      assert recHits == before.trackerHits + [LinkedHit(cfg, mc, i)];
      assert measurements == before.measurements + MeasurementsOf(cfg, mc, i);
      i := i + 1;
    }
    assert mcHits[..i] == mcHits;
    r := Success(Output(recHits, measurements));
  }

  /** `Execute` succeeds exactly when every hit has a valid ring and pad. */
  lemma {:induction false} ReconstructSucceedsIff(cfg: Config, hits: seq<McHit>)
    requires ValidFor(cfg, hits)
    ensures Reconstruct(cfg, hits).Success? <==> forall i :: 0 <= i < |hits| ==> ValidRingPad(hits[i])
    decreases |hits|
  {
    if hits != [] {
      var k := |hits| - 1;
      PrefixIndexable(cfg, hits, k);
      ReconstructSucceedsIff(cfg, hits[..k]);
      assert forall i :: 0 <= i < k ==> hits[..k][i] == hits[i];
    }
  }

  /** A failed `Execute` reports the error of the first hit whose ring or pad is out of range. */
  lemma {:induction false} ReconstructFirstError(cfg: Config, hits: seq<McHit>)
    requires ValidFor(cfg, hits)
    requires Reconstruct(cfg, hits).Failure?
    ensures exists k :: (0 <= k < |hits| && !ValidRingPad(hits[k])
      && (forall j :: 0 <= j < k ==> ValidRingPad(hits[j]))
      && GetPadCenter(cfg.lib, hits[k].ring, hits[k].pad) == Failure(Reconstruct(cfg, hits).error))
    decreases |hits|
  {
    var n := |hits| - 1;
    PrefixIndexable(cfg, hits, n);
    var p := hits[..n];
    assert forall i :: 0 <= i < n ==> p[i] == hits[i];
    if Reconstruct(cfg, p).Failure? {
      ReconstructFirstError(cfg, p);
      var k :| 0 <= k < |p| && !ValidRingPad(p[k]) && (forall j :: 0 <= j < k ==> ValidRingPad(p[j]))
        && GetPadCenter(cfg.lib, p[k].ring, p[k].pad) == Failure(Reconstruct(cfg, p).error);
      assert hits[k] == p[k];
    } else {
      ReconstructSucceedsIff(cfg, p);
      assert !ValidRingPad(hits[n]);
    }
  }

  /** On success there is exactly one tracker hit per digitized hit, in input order, each linked to its source. */
  lemma {:induction false} OneTrackerHitPerInput(cfg: Config, hits: seq<McHit>)
    requires ValidFor(cfg, hits)
    requires Reconstruct(cfg, hits).Success?
    ensures |Reconstruct(cfg, hits).value.trackerHits| == |hits|
    ensures forall i :: 0 <= i < |hits| ==>
      MakeTrackerHit(cfg, hits[i]) == Success(Reconstruct(cfg, hits).value.trackerHits[i].(rawHit := None))
    ensures forall i :: 0 <= i < |hits| ==> Reconstruct(cfg, hits).value.trackerHits[i].rawHit == Some(i)
    decreases |hits|
  {
    if hits != [] {
      var n := |hits| - 1;
      PrefixIndexable(cfg, hits, n);
      var p := hits[..n];
      assert forall i :: 0 <= i < n ==> p[i] == hits[i];
      OneTrackerHitPerInput(cfg, p);
    }
  }

  /** Digitized hit `i` yields a measurement: its tracker hit exists and its projection succeeds. */
  predicate Projects(cfg: Config, mc: McHit, i: nat)
    requires cfg.lib.Valid()
    requires ValidRingPad(mc) ==> 0 <= mc.plane < |cfg.planePositions|
  {
    ValidRingPad(mc) && MeasurementsOf(cfg, mc, i) != []
  }

  /** The indices, in increasing order, of the hits whose projection succeeds. */
  function ProjectedIndices(cfg: Config, hits: seq<McHit>): seq<nat>
    requires ValidFor(cfg, hits)
    decreases |hits|
  {
    if hits == [] then []
    else
      var n := |hits| - 1;
      PrefixIndexable(cfg, hits, n);
      ProjectedIndices(cfg, hits[..n]) + (if Projects(cfg, hits[n], n) then [n] else [])
  }

  /** The hit each measurement links to. */
  function Links(ms: seq<Measurement2D>): seq<nat>
    requires forall k :: 0 <= k < |ms| ==> |ms[k].hits| == 1
  {
    seq(|ms|, k requires 0 <= k < |ms| => ms[k].hits[0])
  }

  /**
   * On success the measurements link, one hit each and with weight 1, to exactly the hits whose
   * projection succeeds, in input order; so there are never more measurements than tracker hits.
   */
  lemma {:induction false} MeasurementsMatchProjections(cfg: Config, hits: seq<McHit>)
    requires ValidFor(cfg, hits)
    requires Reconstruct(cfg, hits).Success?
    ensures var ms := Reconstruct(cfg, hits).value.measurements;
      && (forall k :: 0 <= k < |ms| ==> |ms[k].hits| == 1 && ms[k].weights == [1.0])
      && Links(ms) == ProjectedIndices(cfg, hits)
      && |ms| <= |Reconstruct(cfg, hits).value.trackerHits|
    decreases |hits|
  {
    if hits != [] {
      PrefixIndexable(cfg, hits, |hits| - 1);
      MeasurementsMatchProjections(cfg, hits[..|hits| - 1]);
      MeasurementsStep(cfg, hits);
    }
  }

  /** The three facts `MeasurementsMatchProjections` states, for one list of hits. */
  predicate MeasurementsFit(cfg: Config, hits: seq<McHit>)
    requires ValidFor(cfg, hits)
    requires Reconstruct(cfg, hits).Success?
  {
    var ms := Reconstruct(cfg, hits).value.measurements;
    && (forall k :: 0 <= k < |ms| ==> |ms[k].hits| == 1 && ms[k].weights == [1.0])
    && Links(ms) == ProjectedIndices(cfg, hits)
    && |ms| <= |Reconstruct(cfg, hits).value.trackerHits|
  }

  lemma MeasurementsStep(cfg: Config, hits: seq<McHit>)
    requires ValidFor(cfg, hits) && hits != []
    requires Reconstruct(cfg, hits).Success?
    requires ValidFor(cfg, hits[..|hits| - 1]) && Reconstruct(cfg, hits[..|hits| - 1]).Success?
    requires MeasurementsFit(cfg, hits[..|hits| - 1])
    ensures MeasurementsFit(cfg, hits)
  {
    var n := |hits| - 1;
    var p := hits[..n];
    OneTrackerHitPerInput(cfg, p);
    var before := Reconstruct(cfg, p).value.measurements;
    var extra := MeasurementsOf(cfg, hits[n], n);
    var ms := Reconstruct(cfg, hits).value.measurements;
    assert ms == before + extra;
    assert forall k :: 0 <= k < |extra| ==> |extra[k].hits| == 1 && extra[k].weights == [1.0];
    LinksAppend(before, extra);
    assert Links(extra) == (if Projects(cfg, hits[n], n) then [n] else []);
  }

  lemma LinksAppend(a: seq<Measurement2D>, b: seq<Measurement2D>)
    requires forall k :: 0 <= k < |a| ==> |a[k].hits| == 1
    requires forall k :: 0 <= k < |b| ==> |b[k].hits| == 1
    ensures forall k :: 0 <= k < |a + b| ==> |(a + b)[k].hits| == 1
    ensures Links(a + b) == Links(a) + Links(b)
  {
    assert forall k :: 0 <= k < |a + b| ==> (a + b)[k] == if k < |a| then a[k] else b[k - |a|];
  }

  /** The entries of `ix` are strictly increasing and all below `bound`. */
  predicate IncreasingBelow(ix: seq<nat>, bound: nat) {
    && (forall k :: 0 <= k < |ix| ==> ix[k] < bound)
    && (forall k, l :: 0 <= k < l < |ix| ==> ix[k] < ix[l])
  }

  /** The projected indices are strictly increasing and name existing hits. */
  lemma {:induction false} ProjectedIndicesIncreasing(cfg: Config, hits: seq<McHit>)
    requires ValidFor(cfg, hits)
    ensures IncreasingBelow(ProjectedIndices(cfg, hits), |hits|)
    decreases |hits|
  {
    if hits != [] {
      var n := |hits| - 1;
      PrefixIndexable(cfg, hits, n);
      ProjectedIndicesIncreasing(cfg, hits[..n]);
      var pre := ProjectedIndices(cfg, hits[..n]);
      assert IncreasingBelow(pre, n);
      var ix := ProjectedIndices(cfg, hits);
      assert ix == pre + (if Projects(cfg, hits[n], n) then [n] else []);
    }
  }
}

/**
 * The geometry of the Blender visualisation script (`blender_cylinder_track.py`), in cm: the
 * readout plane as one quad per pad with a (ring, pad) → face-index map, highlighting a pad's
 * face, the first crossing of a sampled trajectory with a cylinder about the x axis, and the
 * inverse lookup from (r, φ) back to (ring, pad). Meshes, materials, modifiers, the curve and
 * the proton integration are Blender and floating-point work and are not modelled.
 */
module BlenderCylinderTrack {
  import opened Wrappers
  import opened Trig
  import PadGeometry
  import PytdisGeometry
  import ScriptGeometry

  // ---------------------------------------------------------------------------------------
  // Real arithmetic as Python does it

  /** Python's `x // m` for floats: the quotient rounded down. */
  function FloorDiv(x: real, m: real): int
    requires m > 0.0
  {
    (x / m).Floor
  }

  /** Python's `x % m` for a positive float modulus: what is left after `x // m` whole moduli, in [0, m). */
  function FloorMod(x: real, m: real): (y: real)
    requires m > 0.0
    ensures 0.0 <= y < m
    ensures x == y + FloorDiv(x, m) as real * m
  {
    var q := x / m;
    var fm := FloorDiv(x, m) as real * m;
    var d := q - FloorDiv(x, m) as real;
    FractionScaled(d, m);
    assert d * m == q * m - fm;
    assert q * m == x;
    x - fm
  }

  /** A fraction of a positive modulus lies in [0, m). */
  lemma FractionScaled(d: real, m: real)
    requires 0.0 <= d < 1.0 && m > 0.0
    ensures 0.0 <= d * m < m
  {
    assert (1.0 - d) * m > 0.0;
  }

  /** `max(min(v, hi), 0)`. */
  function Clamp(v: int, hi: int): (c: int)
    requires hi >= 0
    ensures 0 <= c <= hi
    ensures 0 <= v <= hi ==> c == v
  {
    if v > hi then hi else if v < 0 then 0 else v
  }

  /** A quotient of reals lies between the bounds its dividend lies between, scaled. */
  lemma DivBounds(a: real, w: real, lo: real, hi: real)
    requires w > 0.0 && lo * w <= a < hi * w
    ensures lo <= a / w < hi
  {
    DivAbove(a, w, lo);
    DivBelow(a, w, hi);
  }

  /** Dividing by a positive number keeps a strict upper bound. */
  lemma DivBelow(a: real, w: real, hi: real)
    requires w > 0.0 && a < hi * w
    ensures a / w < hi
  {
    var q := a / w;
    assert q * w == a;
    assert (hi - q) * w == hi * w - a;
  }

  /** Dividing by a positive number keeps a lower bound. */
  lemma DivAbove(a: real, w: real, lo: real)
    requires w > 0.0 && lo * w <= a
    ensures lo <= a / w
  {
    var q := a / w;
    assert q * w == a;
    assert (q - lo) * w == a - lo * w;
  }

  /** A remainder does not change when whole moduli are added to the dividend. */
  lemma FloorModShift(y: real, m: real, k: int)
    requires m > 0.0
    ensures FloorMod(y + k as real * m, m) == FloorMod(y, m)
  {
    var q := y / m;
    assert y == q * m;
    assert (y + k as real * m) / m == q + k as real by {
      assert (q + k as real) * m == y + k as real * m;
    }
    assert FloorDiv(y + k as real * m, m) == FloorDiv(y, m) + k;
    assert (FloorDiv(y, m) + k) as real * m == FloorDiv(y, m) as real * m + k as real * m;
  }

  /** A value already in [0, m) is its own remainder. */
  lemma FloorModOfRemainder(y: real, m: real)
    requires 0.0 <= y < m
    ensures FloorMod(y, m) == y
  {
    DivBounds(y, m, 0.0, 1.0);
  }

  // ---------------------------------------------------------------------------------------
  // The readout plane

  /**
   * The arguments of `create_readout_plane_with_map` (the plane's x position, its radii, the
   * numbers of rings and of pads per ring); `find_ring_pad_for_r_phi` takes the last four.
   */
  datatype Plane = Plane(xLoc: real, innerRadius: real, outerRadius: real, nRings: int, padsPerRing: int)

  /** The defaults, which are also what `main` passes. */
  const DefaultPlane: Plane := Plane(-5.0, 5.0, 15.0, 21, 122)

  /** Both divisions of the script are defined: some rings, some pads, rings of non-zero width. */
  predicate Divisible(g: Plane) {
    g.nRings > 0 && g.padsPerRing > 0 && g.innerRadius != g.outerRadius
  }

  function RingWidth(g: Plane): real
    requires g.nRings > 0
  {
    (g.outerRadius - g.innerRadius) / g.nRings as real
  }

  function DPhi(lib: MathLib, g: Plane): real
    requires g.padsPerRing > 0
  {
    2.0 * lib.pi / g.padsPerRing as real
  }

  function PhiOffset(lib: MathLib, g: Plane, ring: int): real
    requires g.padsPerRing > 0
  {
    if ring % 2 == 1 then 0.5 * DPhi(lib, g) else 0.0
  }

  /** The radial and angular extent of one pad's quad. */
  datatype PadSpan = PadSpan(rIn: real, rOut: real, phi1: real, phi2: real)

  /** The quad of pad `pad` of ring `ring`, as the loop body of the plane builder bounds it. */
  function PadSpanOf(lib: MathLib, g: Plane, ring: int, pad: int): (s: PadSpan)
    requires g.nRings > 0 && g.padsPerRing > 0
    ensures s.rOut - s.rIn == RingWidth(g)
    ensures s.phi2 - s.phi1 == DPhi(lib, g)
  {
    var w := RingWidth(g);
    var dphi := DPhi(lib, g);
    var off := PhiOffset(lib, g, ring);
    assert off + (pad + 1) as real * dphi == off + pad as real * dphi + dphi;
    PadSpan(g.innerRadius + ring as real * w, g.innerRadius + (ring + 1) as real * w,
            off + pad as real * dphi, off + (pad + 1) as real * dphi)
  }

  /**
   * The quads tile the annulus: ring `ring + 1` starts where ring `ring` ends, the rings run
   * from the inner to the outer radius, pad `pad + 1` starts where pad `pad` ends, and the pads
   * of a ring cover one full turn.
   */
  lemma PadSpansTile(lib: MathLib, g: Plane, ring: int, pad: int)
    requires g.nRings > 0 && g.padsPerRing > 0
    ensures PadSpanOf(lib, g, ring, pad).rOut == PadSpanOf(lib, g, ring + 1, pad).rIn
    ensures PadSpanOf(lib, g, ring, pad).phi2 == PadSpanOf(lib, g, ring, pad + 1).phi1
    ensures PadSpanOf(lib, g, 0, pad).rIn == g.innerRadius
    ensures PadSpanOf(lib, g, g.nRings - 1, pad).rOut == g.outerRadius
    ensures PadSpanOf(lib, g, ring, g.padsPerRing - 1).phi2 - PadSpanOf(lib, g, ring, 0).phi1 == 2.0 * lib.pi
  {
    var w := RingWidth(g);
    assert g.nRings as real * w == g.outerRadius - g.innerRadius;
    var dphi := DPhi(lib, g);
    assert g.padsPerRing as real * dphi == 2.0 * lib.pi;
    assert (ring + 1) % 2 == 1 <==> ring % 2 != 1;
  }

  /** With the default arguments the quads are exactly pytdis's ring radii and pad angular bounds. */
  lemma DefaultSpansArePytdis(lib: MathLib, ring: int, pad: int)
    requires PadGeometry.ValidRing(ring) && PadGeometry.ValidPad(pad)
    ensures PytdisGeometry.GetRingRadii(ring).value
         == (PadSpanOf(lib, DefaultPlane, ring, pad).rIn, PadSpanOf(lib, DefaultPlane, ring, pad).rOut)
    ensures PytdisGeometry.GetPadAngularBounds(lib, ring, pad).value
         == (PadSpanOf(lib, DefaultPlane, ring, pad).phi1, PadSpanOf(lib, DefaultPlane, ring, pad).phi2)
  {
    var span := PadSpanOf(lib, DefaultPlane, ring, pad);
    var radii := PytdisGeometry.GetRingRadii(ring);
    assert RingWidth(DefaultPlane) == PytdisGeometry.RingWidth;
    assert radii.Success?;
    assert radii.value.0 == span.rIn && radii.value.1 == span.rOut;
    var d := PadGeometry.DeltaTheta(lib);
    assert DPhi(lib, DefaultPlane) == d;
    assert PhiOffset(lib, DefaultPlane, ring) == PytdisGeometry.ThetaOffset(lib, ring);
    var bounds := PytdisGeometry.GetPadAngularBounds(lib, ring, pad);
    var start := pad as real * d + PytdisGeometry.ThetaOffset(lib, ring);
    assert bounds.Success?;
    assert bounds.value.0 == start && bounds.value.1 == start + d;
    assert span.phi1 == start && span.phi2 == start + d;
  }

  // ---------------------------------------------------------------------------------------
  // The plane's mesh and its face map

  /** A quad face: the indices of its four vertices. */
  datatype Face = Face(v0: int, v1: int, v2: int, v3: int)

  /** The `k`-th face uses the `k`-th run of four vertices. */
  function QuadFace(k: int): Face {
    Face(4 * k, 4 * k + 1, 4 * k + 2, 4 * k + 3)
  }

  /** Where the face of (ring, pad) sits in the face list: row by row, pads within a row. */
  function FaceIndex(g: Plane, ring: int, pad: int): int {
    ring * g.padsPerRing + pad
  }

  /** A (ring, pad) key of the plane. */
  predicate IsPad(g: Plane, key: (int, int)) {
    0 <= key.0 < g.nRings && 0 <= key.1 < g.padsPerRing
  }

  /**
   * The four corners of a pad's quad at `x = xLoc`: inner radius at the start angle, inner at
   * the end angle, outer at the end angle, outer at the start angle.
   */
  function Corners(lib: MathLib, xLoc: real, s: PadSpan): (cs: seq<ScriptGeometry.Point3>)
    requires lib.Valid()
    ensures |cs| == 4
    ensures forall j :: 0 <= j < 4 ==> cs[j].x == xLoc
    ensures forall j :: 0 <= j < 4 ==>
      cs[j].y * cs[j].y + cs[j].z * cs[j].z == (if j < 2 then s.rIn * s.rIn else s.rOut * s.rOut)
  {
    var c1, c2 := Polar(lib, s.rIn, s.phi1), Polar(lib, s.rIn, s.phi2);
    var c3, c4 := Polar(lib, s.rOut, s.phi2), Polar(lib, s.rOut, s.phi1);
    [ScriptGeometry.Point3(xLoc, c1.x, c1.y), ScriptGeometry.Point3(xLoc, c2.x, c2.y),
     ScriptGeometry.Point3(xLoc, c3.x, c3.y), ScriptGeometry.Point3(xLoc, c4.x, c4.y)]
  }

  /** Distinct pads have distinct face indices. */
  lemma FaceIndexInjective(g: Plane, a: (int, int), b: (int, int))
    requires IsPad(g, a) && IsPad(g, b) && FaceIndex(g, a.0, a.1) == FaceIndex(g, b.0, b.1)
    ensures a == b
  {
    if a.0 < b.0 {
      RowsApart(a.0, b.0, g.padsPerRing);
    } else if b.0 < a.0 {
      RowsApart(b.0, a.0, g.padsPerRing);
    }
  }

  /** A later row starts at least a whole row further on. */
  lemma RowsApart(r1: int, r2: int, n: int)
    requires r1 < r2 && n > 0
    ensures r1 * n + n <= r2 * n
  {
    assert (r2 - r1 - 1) * n >= 0;
  }

  /** Every index below the number of pads is the face index of some pad. */
  lemma {:induction false} FaceIndexOnto(g: Plane, k: int) returns (key: (int, int))
    requires g.nRings > 0 && g.padsPerRing > 0 && 0 <= k < g.nRings * g.padsPerRing
    ensures IsPad(g, key) && FaceIndex(g, key.0, key.1) == k
  {
    if k == 0 {
      key := (0, 0);
    } else {
      var prev := FaceIndexOnto(g, k - 1);
      if prev.1 + 1 < g.padsPerRing {
        key := (prev.0, prev.1 + 1);
      } else {
        key := (prev.0 + 1, 0);
        assert FaceIndex(g, key.0, key.1) == k;
        if key.0 >= g.nRings {
          RowsApart(g.nRings - 1, key.0, g.padsPerRing);
        }
      }
    }
  }

  /** The vertices of the first `n` pads of a ring, four per pad. */
  function RingVerts(lib: MathLib, g: Plane, ring: int, n: nat): (vs: seq<ScriptGeometry.Point3>)
    requires lib.Valid() && g.nRings > 0 && g.padsPerRing > 0
    ensures |vs| == 4 * n
  {
    if n == 0 then [] else RingVerts(lib, g, ring, n - 1) + Corners(lib, g.xLoc, PadSpanOf(lib, g, ring, n - 1))
  }

  /** Pad `p`'s corners are the `p`-th run of four in the ring's vertices. */
  lemma {:induction false} RingVertsAt(lib: MathLib, g: Plane, ring: int, n: nat, p: int, j: int)
    requires lib.Valid() && g.nRings > 0 && g.padsPerRing > 0
    requires 0 <= p < n && 0 <= j < 4
    ensures RingVerts(lib, g, ring, n)[4 * p + j] == Corners(lib, g.xLoc, PadSpanOf(lib, g, ring, p))[j]
  {
    if p < n - 1 {
      RingVertsAt(lib, g, ring, n - 1, p, j);
    }
  }

  /** The pad loop for one ring: appends the ring's quads and face-map entries, pad by pad. */
  method BuildRing(lib: MathLib, g: Plane, ring: int, faceMap0: map<(int, int), int>,
                   verts0: seq<ScriptGeometry.Point3>, faces0: seq<Face>)
    returns (faceMap: map<(int, int), int>, verts: seq<ScriptGeometry.Point3>, faces: seq<Face>)
    requires lib.Valid() && g.nRings > 0 && g.padsPerRing > 0
    requires |verts0| == 4 * |faces0|
    ensures |faces| == |faces0| + g.padsPerRing && |verts| == |verts0| + 4 * g.padsPerRing
    ensures faces[..|faces0|] == faces0 && verts[..|verts0|] == verts0
    ensures forall k :: |faces0| <= k < |faces| ==> faces[k] == QuadFace(k)
    ensures forall p, j :: 0 <= p < g.padsPerRing && 0 <= j < 4 ==>
      verts[|verts0| + 4 * p + j] == Corners(lib, g.xLoc, PadSpanOf(lib, g, ring, p))[j]
    ensures forall key :: key in faceMap <==> key in faceMap0 || (key.0 == ring && 0 <= key.1 < g.padsPerRing)
    ensures forall key :: key in faceMap0 && key.0 != ring ==> faceMap[key] == faceMap0[key]
    ensures forall p :: 0 <= p < g.padsPerRing ==> faceMap[(ring, p)] == |faces0| + p
  {
    faceMap, verts, faces := faceMap0, verts0, faces0;
    var faceIndex, vertIndex := |faces0|, |verts0|;
    var pad := 0;
    while pad < g.padsPerRing
      invariant 0 <= pad <= g.padsPerRing
      invariant faceIndex == |faces0| + pad && vertIndex == |verts0| + 4 * pad
      invariant RingBuilt(lib, g, ring, faceMap0, verts0, faces0, pad, faceMap, verts, faces)
    {
      var quad := Corners(lib, g.xLoc, PadSpanOf(lib, g, ring, pad));
      RingBuiltStep(lib, g, ring, faceMap0, verts0, faces0, pad, faceMap, verts, faces);
      verts := verts + quad;
      faces := faces + [Face(vertIndex, vertIndex + 1, vertIndex + 2, vertIndex + 3)];
      faceMap := faceMap[(ring, pad) := faceIndex];
      faceIndex := faceIndex + 1;
      vertIndex := vertIndex + 4;
      pad := pad + 1;
    }
    RingVertsAll(lib, g, ring, verts0, verts);
  }

  /** After the whole ring, the `p`-th run of four new vertices is pad `p`'s corners. */
  lemma RingVertsAll(lib: MathLib, g: Plane, ring: int, verts0: seq<ScriptGeometry.Point3>, verts: seq<ScriptGeometry.Point3>)
    requires lib.Valid() && g.nRings > 0 && g.padsPerRing > 0
    requires verts == verts0 + RingVerts(lib, g, ring, g.padsPerRing)
    ensures forall p, j :: 0 <= p < g.padsPerRing && 0 <= j < 4 ==>
      verts[|verts0| + 4 * p + j] == Corners(lib, g.xLoc, PadSpanOf(lib, g, ring, p))[j]
  {
    forall p, j | 0 <= p < g.padsPerRing && 0 <= j < 4
      ensures verts[|verts0| + 4 * p + j] == Corners(lib, g.xLoc, PadSpanOf(lib, g, ring, p))[j]
    {
      RingVertsAt(lib, g, ring, g.padsPerRing, p, j);
    }
  }

  /** What the pad loop of ring `ring` has built after `pad` pads. */
  ghost predicate RingBuilt(lib: MathLib, g: Plane, ring: int, faceMap0: map<(int, int), int>,
                      verts0: seq<ScriptGeometry.Point3>, faces0: seq<Face>, pad: nat,
                      faceMap: map<(int, int), int>, verts: seq<ScriptGeometry.Point3>, faces: seq<Face>)
    requires lib.Valid() && g.nRings > 0 && g.padsPerRing > 0
  {
    && |faces| == |faces0| + pad && |verts| == |verts0| + 4 * pad
    && faces[..|faces0|] == faces0 && verts[..|verts0|] == verts0
    && (forall k :: |faces0| <= k < |faces| ==> faces[k] == QuadFace(k))
    && verts == verts0 + RingVerts(lib, g, ring, pad)
    && (forall key :: key in faceMap <==> key in faceMap0 || (key.0 == ring && 0 <= key.1 < pad))
    && (forall key :: key in faceMap0 && key.0 != ring ==> faceMap[key] == faceMap0[key])
    && (forall p :: 0 <= p < pad ==> faceMap[(ring, p)] == |faces0| + p)
  }

  /** One pass of the pad loop keeps `RingBuilt`. */
  lemma RingBuiltStep(lib: MathLib, g: Plane, ring: int, faceMap0: map<(int, int), int>,
                      verts0: seq<ScriptGeometry.Point3>, faces0: seq<Face>, pad: nat,
                      faceMap: map<(int, int), int>, verts: seq<ScriptGeometry.Point3>, faces: seq<Face>)
    requires lib.Valid() && g.nRings > 0 && g.padsPerRing > 0
    requires |verts0| == 4 * |faces0|
    requires RingBuilt(lib, g, ring, faceMap0, verts0, faces0, pad, faceMap, verts, faces)
    ensures var v := |verts0| + 4 * pad;
      RingBuilt(lib, g, ring, faceMap0, verts0, faces0, pad + 1, faceMap[(ring, pad) := |faces0| + pad],
                verts + Corners(lib, g.xLoc, PadSpanOf(lib, g, ring, pad)), faces + [Face(v, v + 1, v + 2, v + 3)])
  {
    var quad := Corners(lib, g.xLoc, PadSpanOf(lib, g, ring, pad));
    AppendAssociative(verts0, RingVerts(lib, g, ring, pad), quad);
    var v := |verts0| + 4 * pad;
    var faces' := faces + [Face(v, v + 1, v + 2, v + 3)];
    assert faces'[..|faces0|] == faces[..|faces0|];
    assert (verts + quad)[..|verts0|] == verts[..|verts0|];
  }

  /**
   * `create_readout_plane_with_map`: one quad per pad, ring by ring, and the map from every
   * (ring, pad) of the plane, and nothing else, to the index of its face; the face with that
   * index is the run of four vertices bounding the pad's span.
   */
  method CreateReadoutPlaneWithMap(lib: MathLib, g: Plane)
    returns (faceMap: map<(int, int), int>, verts: seq<ScriptGeometry.Point3>, faces: seq<Face>)
    requires lib.Valid() && g.nRings > 0 && g.padsPerRing > 0
    ensures |faces| == g.nRings * g.padsPerRing && |verts| == 4 * |faces|
    ensures forall k :: 0 <= k < |faces| ==> faces[k] == QuadFace(k)
    ensures forall key :: key in faceMap <==> IsPad(g, key)
    ensures forall key :: key in faceMap ==> faceMap[key] == FaceIndex(g, key.0, key.1) && 0 <= faceMap[key] < |faces|
    ensures forall key, j :: key in faceMap && 0 <= j < 4 ==>
      verts[4 * faceMap[key] + j] == Corners(lib, g.xLoc, PadSpanOf(lib, g, key.0, key.1))[j]
  {
    faceMap, verts, faces := map[], [], [];
    var ring := 0;
    while ring < g.nRings
      invariant 0 <= ring <= g.nRings
      invariant |faces| == ring * g.padsPerRing && |verts| == 4 * |faces|
      invariant forall k :: 0 <= k < |faces| ==> faces[k] == QuadFace(k)
      invariant forall key :: key in faceMap <==> 0 <= key.0 < ring && 0 <= key.1 < g.padsPerRing
      invariant forall key :: key in faceMap ==> faceMap[key] == FaceIndex(g, key.0, key.1) && 0 <= faceMap[key] < |faces|
      invariant forall key, j :: key in faceMap && 0 <= j < 4 ==>
        verts[4 * faceMap[key] + j] == Corners(lib, g.xLoc, PadSpanOf(lib, g, key.0, key.1))[j]
    {
      var faceMap0, verts0, faces0 := faceMap, verts, faces;
      faceMap, verts, faces := BuildRing(lib, g, ring, faceMap0, verts0, faces0);
      RingAppended(lib, g, ring, faceMap0, verts0, faces0, faceMap, verts, faces);
      ring := ring + 1;
    }
  }

  /** The facts the ring loop keeps, carried across one more ring. */
  lemma RingAppended(lib: MathLib, g: Plane, ring: int,
                     faceMap0: map<(int, int), int>, verts0: seq<ScriptGeometry.Point3>, faces0: seq<Face>,
                     faceMap: map<(int, int), int>, verts: seq<ScriptGeometry.Point3>, faces: seq<Face>)
    requires lib.Valid() && g.nRings > 0 && g.padsPerRing > 0 && 0 <= ring
    requires |faces0| == ring * g.padsPerRing && |verts0| == 4 * |faces0|
    requires forall key :: key in faceMap0 <==> 0 <= key.0 < ring && 0 <= key.1 < g.padsPerRing
    requires forall key :: key in faceMap0 ==> faceMap0[key] == FaceIndex(g, key.0, key.1) && 0 <= faceMap0[key] < |faces0|
    requires forall key, j :: key in faceMap0 && 0 <= j < 4 ==>
      verts0[4 * faceMap0[key] + j] == Corners(lib, g.xLoc, PadSpanOf(lib, g, key.0, key.1))[j]
    requires |faces| == |faces0| + g.padsPerRing && |verts| == |verts0| + 4 * g.padsPerRing
    requires verts[..|verts0|] == verts0
    requires forall p, j :: 0 <= p < g.padsPerRing && 0 <= j < 4 ==>
      verts[|verts0| + 4 * p + j] == Corners(lib, g.xLoc, PadSpanOf(lib, g, ring, p))[j]
    requires forall key :: key in faceMap <==> key in faceMap0 || (key.0 == ring && 0 <= key.1 < g.padsPerRing)
    requires forall key :: key in faceMap0 && key.0 != ring ==> faceMap[key] == faceMap0[key]
    requires forall p :: 0 <= p < g.padsPerRing ==> faceMap[(ring, p)] == |faces0| + p
    ensures |faces| == (ring + 1) * g.padsPerRing
    ensures forall key :: key in faceMap <==> 0 <= key.0 < ring + 1 && 0 <= key.1 < g.padsPerRing
    ensures forall key :: key in faceMap ==> faceMap[key] == FaceIndex(g, key.0, key.1) && 0 <= faceMap[key] < |faces|
    ensures forall key, j :: key in faceMap && 0 <= j < 4 ==>
      verts[4 * faceMap[key] + j] == Corners(lib, g.xLoc, PadSpanOf(lib, g, key.0, key.1))[j]
  {
    forall key, j | key in faceMap && 0 <= j < 4
      ensures verts[4 * faceMap[key] + j] == Corners(lib, g.xLoc, PadSpanOf(lib, g, key.0, key.1))[j]
    {
      if key.0 == ring {
        assert verts[4 * faceMap[key] + j] == verts[|verts0| + 4 * key.1 + j];
      } else {
        assert key in faceMap0;
        assert 4 * faceMap[key] + j < |verts0|;
        assert verts[4 * faceMap[key] + j] == verts[..|verts0|][4 * faceMap0[key] + j];
      }
    }
  }

  // ---------------------------------------------------------------------------------------
  // Highlighting a pad

  /** What `highlight_pad` does with a (ring, pad). */
  datatype HighlightOutcome =
    | NoFace                        // the key is not in the face map: a message, nothing else
    | FaceOutOfRange(index: int)    // the face index is at least the number of polygons
    | NegativeIndexError(index: int) // a negative index below minus the count: `IndexError`
    | Highlighted(polygon: int)     // this polygon's material index becomes 1

  /**
   * The outcome for a key; a negative face index counts back from the end of the polygon list,
   * as Blender's collections do, and one further back than its start raises.
   */
  function HighlightOf(count: int, faceMap: map<(int, int), int>, key: (int, int)): (h: HighlightOutcome)
    ensures h == NoFace <==> key !in faceMap
    ensures h.Highlighted? ==> 0 <= h.polygon < count
    ensures h.Highlighted? && key in faceMap && faceMap[key] >= 0 ==> h.polygon == faceMap[key]
    ensures key in faceMap && 0 <= faceMap[key] < count ==> h.Highlighted?
  {
    if key !in faceMap then NoFace
    else
      var faceIndex := faceMap[key];
      if faceIndex >= count then FaceOutOfRange(faceIndex)
      else if faceIndex >= 0 then Highlighted(faceIndex)
      else if faceIndex >= -count then Highlighted(count + faceIndex)
      else NegativeIndexError(faceIndex)
  }

  /** The mesh's polygons, by the material slot each one uses (0 = grey, 1 = highlight). */
  class PlaneMesh {
    var materialIndex: seq<int>

    /** A freshly built plane: every face uses the grey slot. */
    constructor (faces: seq<Face>)
      ensures materialIndex == seq(|faces|, _ => 0)
    {
      materialIndex := seq(|faces|, _ => 0);
    }

    /** `highlight_pad`: switch the pad's face to the highlight slot, or change nothing. */
    method HighlightPad(faceMap: map<(int, int), int>, ring: int, pad: int) returns (outcome: HighlightOutcome)
      modifies this
      ensures outcome == HighlightOf(|old(materialIndex)|, faceMap, (ring, pad))
      ensures outcome.Highlighted? ==> materialIndex == old(materialIndex)[outcome.polygon := 1]
      ensures !outcome.Highlighted? ==> materialIndex == old(materialIndex)
    {
      outcome := HighlightOf(|materialIndex|, faceMap, (ring, pad));
      if outcome.Highlighted? {
        materialIndex := materialIndex[outcome.polygon := 1];
      }
    }
  }

  /**
   * On a plane built by `CreateReadoutPlaneWithMap`, highlighting a valid (ring, pad) switches
   * exactly its own face, and any other key finds no face.
   */
  lemma HighlightOnBuiltPlane(g: Plane, faceMap: map<(int, int), int>, count: int, ring: int, pad: int)
    requires forall key :: key in faceMap <==> IsPad(g, key)
    requires forall key :: key in faceMap ==> faceMap[key] == FaceIndex(g, key.0, key.1) && 0 <= faceMap[key] < count
    ensures IsPad(g, (ring, pad)) ==> HighlightOf(count, faceMap, (ring, pad)) == Highlighted(FaceIndex(g, ring, pad))
    ensures !IsPad(g, (ring, pad)) ==> HighlightOf(count, faceMap, (ring, pad)) == NoFace
  {
  }

  // ---------------------------------------------------------------------------------------
  // Where a sampled trajectory crosses the cylinder

  /** The squared distance of a point from the x axis. */
  function RadiusSq(p: ScriptGeometry.Point3): real {
    p.y * p.y + p.z * p.z
  }

  /** The two squared radii lie strictly on opposite sides of the cylinder's. */
  predicate Crosses(r1Sq: real, r2Sq: real, rSq: real) {
    (r1Sq < rSq && r2Sq > rSq) || (r1Sq > rSq && r2Sq < rSq)
  }

  /** The point a fraction `t` of the way from `p1` to `p2`. */
  function Lerp(p1: ScriptGeometry.Point3, p2: ScriptGeometry.Point3, t: real): ScriptGeometry.Point3 {
    ScriptGeometry.Point3(p1.x + t * (p2.x - p1.x), p1.y + t * (p2.y - p1.y), p1.z + t * (p2.z - p1.z))
  }

  /** The smallest difference of squared radii the search divides by. */
  const MinDenominator: real := 0.000000000001

  /**
   * One step of `find_trajectory_cylinder_intersection`: for a crossing pair whose squared
   * radii differ by at least 10⁻¹², the point interpolated linearly in the squared radius, if its
   * x lies in [xMin, xMax]. The interpolation fraction always lies strictly between 0 and 1, so
   * the script's range test on it never rejects a pair.
   */
  function CrossingAt(p1: ScriptGeometry.Point3, p2: ScriptGeometry.Point3, radius: real, xMin: real, xMax: real)
    : (c: Option<ScriptGeometry.Point3>)
    ensures c.Some? <==>
      && Crosses(RadiusSq(p1), RadiusSq(p2), radius * radius)
      && (RadiusSq(p2) - RadiusSq(p1) >= MinDenominator || RadiusSq(p2) - RadiusSq(p1) <= -MinDenominator)
      && xMin <= Lerp(p1, p2, (radius * radius - RadiusSq(p1)) / (RadiusSq(p2) - RadiusSq(p1))).x <= xMax
    ensures c.Some? ==>
      var t := (radius * radius - RadiusSq(p1)) / (RadiusSq(p2) - RadiusSq(p1));
      0.0 < t < 1.0 && c.value == Lerp(p1, p2, t)
  {
    var rSq := radius * radius;
    var r1Sq, r2Sq := RadiusSq(p1), RadiusSq(p2);
    if !Crosses(r1Sq, r2Sq, rSq) then None
    else
      var denom := r2Sq - r1Sq;
      if -MinDenominator < denom < MinDenominator then None
      else
        var t := (rSq - r1Sq) / denom;
        assert 0.0 < t < 1.0 by { FractionInside(r1Sq, r2Sq, rSq); }
        if t < 0.0 || t > 1.0 then None
        else
          var q := Lerp(p1, p2, t);
          if xMin <= q.x <= xMax then Some(q) else None
  }

  /** Strictly between the two squared radii, the fraction of the way from the first lies in (0, 1). */
  lemma FractionInside(r1Sq: real, r2Sq: real, rSq: real)
    requires Crosses(r1Sq, r2Sq, rSq)
    ensures 0.0 < (rSq - r1Sq) / (r2Sq - r1Sq) < 1.0
  {
    if r1Sq < r2Sq {
      DivBounds(rSq - r1Sq, r2Sq - r1Sq, 0.0, 1.0);
      assert (rSq - r1Sq) / (r2Sq - r1Sq) != 0.0;
    } else {
      DivBounds(r1Sq - rSq, r1Sq - r2Sq, 0.0, 1.0);
      assert (rSq - r1Sq) / (r2Sq - r1Sq) == (r1Sq - rSq) / (r1Sq - r2Sq);
      assert (r1Sq - rSq) / (r1Sq - r2Sq) != 0.0;
    }
  }

  /** The first crossing found scanning the pairs (i, i + 1), (i + 1, i + 2), … in order. */
  function FirstCrossingFrom(points: seq<ScriptGeometry.Point3>, radius: real, xMin: real, xMax: real, i: nat)
    : Option<ScriptGeometry.Point3>
    decreases |points| - i
  {
    if i + 1 >= |points| then None
    else
      var c := CrossingAt(points[i], points[i + 1], radius, xMin, xMax);
      if c.Some? then c else FirstCrossingFrom(points, radius, xMin, xMax, i + 1)
  }

  /**
   * The search result is the crossing of the earliest pair that has one: if it is a point, some
   * pair at `k` yields that point and no earlier pair yields any; if it is nothing, no pair does.
   */
  lemma {:induction false} FirstCrossingIsFirst(points: seq<ScriptGeometry.Point3>, radius: real, xMin: real, xMax: real, i: nat)
    returns (k: nat)
    ensures FirstCrossingFrom(points, radius, xMin, xMax, i).Some? ==>
      && i <= k && k + 1 < |points|
      && CrossingAt(points[k], points[k + 1], radius, xMin, xMax) == FirstCrossingFrom(points, radius, xMin, xMax, i)
      && forall j :: i <= j < k ==> CrossingAt(points[j], points[j + 1], radius, xMin, xMax).None?
    ensures FirstCrossingFrom(points, radius, xMin, xMax, i).None? ==>
      forall j :: i <= j && j + 1 < |points| ==> CrossingAt(points[j], points[j + 1], radius, xMin, xMax).None?
    decreases |points| - i
  {
    if i + 1 >= |points| {
      k := i;
    } else if CrossingAt(points[i], points[i + 1], radius, xMin, xMax).Some? {
      k := i;
    } else {
      k := FirstCrossingIsFirst(points, radius, xMin, xMax, i + 1);
    }
  }

  /**
   * `find_trajectory_cylinder_intersection`: scan consecutive pairs of trajectory points and
   * return the first crossing of the cylinder of `radius` about the x axis within [xMin, xMax].
   */
  method FindTrajectoryCylinderIntersection(trajPoints: seq<ScriptGeometry.Point3>, radius: real, xMin: real, xMax: real)
    returns (result: Option<ScriptGeometry.Point3>)
    ensures result == FirstCrossingFrom(trajPoints, radius, xMin, xMax, 0)
  {
    var i := 0;
    while i < |trajPoints| - 1
      invariant 0 <= i <= |trajPoints|
      invariant FirstCrossingFrom(trajPoints, radius, xMin, xMax, i) == FirstCrossingFrom(trajPoints, radius, xMin, xMax, 0)
    {
      var crossing := CrossingAt(trajPoints[i], trajPoints[i + 1], radius, xMin, xMax);
      if crossing.Some? {
        return crossing;
      }
      i := i + 1;
    }
    return None;
  }

  // ---------------------------------------------------------------------------------------
  // From (r, φ) back to (ring, pad)

  /**
   * `find_ring_pad_for_r_phi`: the ring whose radial band holds `r` and the pad whose angular
   * span holds `phi`, each clamped into range; the result is always a valid (ring, pad).
   */
  function FindRingPadForRPhi(lib: MathLib, g: Plane, r: real, phi: real): (rp: (int, int))
    requires lib.Valid() && Divisible(g)
    ensures 0 <= rp.0 < g.nRings && 0 <= rp.1 < g.padsPerRing
  {
    var ringIdx := Clamp(((r - g.innerRadius) / RingWidth(g)).Floor, g.nRings - 1);
    var phiMod := FloorMod(phi, 2.0 * lib.pi);
    var phiShift := FloorMod(phiMod - PhiOffset(lib, g, ringIdx), 2.0 * lib.pi);
    var padIdx := Clamp((phiShift / DPhi(lib, g)).Floor, g.padsPerRing - 1);
    (ringIdx, padIdx)
  }

  /** A radius inside a ring's band is looked up as that ring. */
  lemma RingOfRadius(g: Plane, ring: int, r: real)
    requires Divisible(g) && g.innerRadius < g.outerRadius && 0 <= ring < g.nRings
    requires g.innerRadius + ring as real * RingWidth(g) <= r < g.innerRadius + (ring + 1) as real * RingWidth(g)
    ensures ((r - g.innerRadius) / RingWidth(g)).Floor == ring
  {
    DivBounds(r - g.innerRadius, RingWidth(g), ring as real, (ring + 1) as real);
  }

  /** An angle inside a pad's span, any whole number of turns round, is looked up as that pad. */
  lemma PadOfAngle(lib: MathLib, g: Plane, ring: int, pad: int, turns: int, phi: real)
    requires lib.Valid() && Divisible(g) && 0 <= pad < g.padsPerRing
    requires PadSpanOf(lib, g, ring, pad).phi1 + turns as real * (2.0 * lib.pi) <= phi
    requires phi < PadSpanOf(lib, g, ring, pad).phi2 + turns as real * (2.0 * lib.pi)
    ensures var off := PhiOffset(lib, g, ring);
      (FloorMod(FloorMod(phi, 2.0 * lib.pi) - off, 2.0 * lib.pi) / DPhi(lib, g)).Floor == pad
  {
    var m := 2.0 * lib.pi;
    var d := DPhi(lib, g);
    var off := PhiOffset(lib, g, ring);
    var y := phi - off - turns as real * m;
    assert pad as real * d <= y < (pad + 1) as real * d;
    assert (pad + 1) as real * d <= g.padsPerRing as real * d == m by {
      assert (g.padsPerRing - pad - 1) as real * d >= 0.0;
    }
    ShiftedRemainder(phi, off, m, turns, y);
    DivBounds(y, d, pad as real, (pad + 1) as real);
  }

  /** Reducing an angle, taking an offset off and reducing again is reducing once, after the offset. */
  lemma ShiftedRemainder(phi: real, off: real, m: real, turns: int, y: real)
    requires m > 0.0 && 0.0 <= y < m && y == phi - off - turns as real * m
    ensures FloorMod(FloorMod(phi, m) - off, m) == y
  {
    var r := FloorMod(phi, m);
    var k := FloorDiv(phi, m);
    Regroup(phi, r, k, off, m, turns, y);
    var z := y + (turns - k) as real * m;
    assert r - off == z;
    FloorModShift(y, m, turns - k);
    FloorModOfRemainder(y, m);
    assert FloorMod(z, m) == y;
  }

  lemma Regroup(phi: real, r: real, k: int, off: real, m: real, turns: int, y: real)
    requires phi == r + k as real * m && y == phi - off - turns as real * m
    ensures r - off == y + (turns - k) as real * m
  {
    assert (turns - k) as real * m == turns as real * m - k as real * m;
  }



  /**
   * The lookup inverts the quads: a point whose radius lies in the radial band of a valid
   * (ring, pad) and whose angle lies in its angular span (any whole number of turns round) is
   * looked up as that (ring, pad).
   */
  lemma LookupInvertsSpans(lib: MathLib, g: Plane, ring: int, pad: int, turns: int, r: real, phi: real)
    requires lib.Valid() && Divisible(g) && g.innerRadius < g.outerRadius
    requires 0 <= ring < g.nRings && 0 <= pad < g.padsPerRing
    requires PadSpanOf(lib, g, ring, pad).rIn <= r < PadSpanOf(lib, g, ring, pad).rOut
    requires PadSpanOf(lib, g, ring, pad).phi1 + turns as real * (2.0 * lib.pi) <= phi
    requires phi < PadSpanOf(lib, g, ring, pad).phi2 + turns as real * (2.0 * lib.pi)
    ensures FindRingPadForRPhi(lib, g, r, phi) == (ring, pad)
  {
    RingOfRadius(g, ring, r);
    PadOfAngle(lib, g, ring, pad, turns, phi);
  }

  /** Radii inside the hole or beyond the plane are clamped to the first or the last ring. */
  lemma RadiiOutsideClamp(lib: MathLib, g: Plane, r: real, phi: real)
    requires lib.Valid() && Divisible(g) && g.innerRadius < g.outerRadius
    ensures r < g.innerRadius ==> FindRingPadForRPhi(lib, g, r, phi).0 == 0
    ensures r >= g.outerRadius ==> FindRingPadForRPhi(lib, g, r, phi).0 == g.nRings - 1
  {
    var w := RingWidth(g);
    var n := g.nRings as real;
    assert n * w == g.outerRadius - g.innerRadius;
    if r < g.innerRadius {
      DivBelow(r - g.innerRadius, w, 0.0);
    }
    if r >= g.outerRadius {
      DivAbove(r - g.innerRadius, w, n - 1.0);
    }
  }

  /** The scripts' pad centre is looked up as its own pad. */
  lemma ScriptCentreFindsItsPad(lib: MathLib, ring: int, pad: int)
    requires lib.Valid() && PadGeometry.ValidRing(ring) && PadGeometry.ValidPad(pad)
    ensures FindRingPadForRPhi(lib, DefaultPlane, ScriptGeometry.CenterRadius(ring),
                               ScriptGeometry.CenterAngle(lib, ring, pad)) == (ring, pad)
  {
    assert DPhi(lib, DefaultPlane) == PadGeometry.DeltaTheta(lib);
    LookupInvertsSpans(lib, DefaultPlane, ring, pad, 0, ScriptGeometry.CenterRadius(ring),
                       ScriptGeometry.CenterAngle(lib, ring, pad));
  }

  /**
   * pytdis's pad centre sits on the end of its pad, so it is looked up as the next pad of the
   * ring (pad 0 after the last one).
   */
  lemma PytdisCentreFindsNextPad(lib: MathLib, ring: int, pad: int)
    requires lib.Valid() && PadGeometry.ValidRing(ring) && PadGeometry.ValidPad(pad)
    ensures FindRingPadForRPhi(lib, DefaultPlane, PytdisGeometry.CenterRadius(ring),
                               PytdisGeometry.CenterAngle(lib, ring, pad))
         == (ring, (pad + 1) % PadGeometry.NumPadsPerRing)
  {
    var d := PadGeometry.DeltaTheta(lib);
    assert DPhi(lib, DefaultPlane) == d;
    var angle := PytdisGeometry.CenterAngle(lib, ring, pad);
    var next := (pad + 1) % PadGeometry.NumPadsPerRing;
    var turns := if pad + 1 == PadGeometry.NumPadsPerRing then 1 else 0;
    assert angle == PadSpanOf(lib, DefaultPlane, ring, next).phi1 + turns as real * (2.0 * lib.pi) by {
      assert 122.0 * d == 2.0 * lib.pi;
    }
    LookupInvertsSpans(lib, DefaultPlane, ring, next, turns, PytdisGeometry.CenterRadius(ring), angle);
  }
}

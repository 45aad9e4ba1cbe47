/**
 * The mTPC detector element: one readout plane seen by ACTS as a cylinder surface with a
 * nominal placement and, optionally, a list of aligned placements indexed by the interval of
 * validity (IOV) carried in the geometry context.
 *
 * The placement, bounds and material are left uninterpreted by this model (type parameters); a
 * `unique_ptr` slot of the aligned list that was never written is `None`.
 */
module MtpcDetectorElement {
  import opened Wrappers

  /** The alignment context a geometry context carries: the interval of validity. */
  datatype AlignmentContext = AlignmentContext(iov: nat)

  /** The cylinder surface the constructor builds; it holds material only when some was given. */
  datatype CylinderSurface<T, B, Mat> = CylinderSurface(placement: T, bounds: B, material: Option<Mat>)

  /** `uint32_t` plane identifiers. */
  const PlaneIdLimit: nat := 0x1_0000_0000

  class DetectorElement<T, B, Mat> {
    const id: nat
    const elementTransform: T
    const cylinderBounds: B
    const elementThickness: real
    const surface: CylinderSurface<T, B, Mat>
    /** `m_alignedTransforms`: slot `iov` holds the placement for that IOV, `None` if never set. */
    var alignedTransforms: seq<Option<T>>

    /**
     * Stores the id, placement, bounds and thickness, builds the surface from the placement
     * and bounds, and assigns the material to it only when one is given.
     */
    constructor (planeId: nat, transform: T, bounds: B, thickness: real, material: Option<Mat>)
      requires planeId < PlaneIdLimit
      ensures id == planeId && elementTransform == transform && cylinderBounds == bounds
      ensures elementThickness == thickness
      ensures surface.placement == transform && surface.bounds == bounds
      ensures surface.material == material
      ensures alignedTransforms == []
    {
      id := planeId;
      elementTransform := transform;
      cylinderBounds := bounds;
      elementThickness := thickness;
      var s := CylinderSurface(transform, bounds, None);
      if material.Some? {
        s := s.(material := material);
      }
      surface := s;
      alignedTransforms := [];
    }

    /** The thickness given to the constructor. */
    function Thickness(): (t: real)
      ensures t == elementThickness
    {
      elementThickness
    }

    /** The nominal placement, whatever the context says. */
    function NominalTransform(ctx: AlignmentContext): (t: T)
      ensures t == elementTransform
    {
      elementTransform
    }

    /**
     * With no aligned placement the nominal one; otherwise the aligned slot of the context's
     * IOV, read without a bounds check, so the caller must ask for a slot that exists and is set.
     */
    function Transform(ctx: AlignmentContext): (t: T)
      reads this
      requires alignedTransforms != [] ==>
        ctx.iov < |alignedTransforms| && alignedTransforms[ctx.iov].Some?
      ensures alignedTransforms == [] ==> t == elementTransform
      ensures alignedTransforms != [] ==> alignedTransforms[ctx.iov] == Some(t)
    {
      if alignedTransforms != [] then alignedTransforms[ctx.iov].value
      else NominalTransform(ctx)
    }

    /**
     * Grows the list to `iov + 1` slots when it is shorter (new slots empty), then stores the
     * placement in slot `iov`; the list never shrinks and no other slot changes.
     */
    method AddAlignedTransform(aligned: T, iov: nat)
      modifies this
      ensures |alignedTransforms| == if iov < |old(alignedTransforms)| then |old(alignedTransforms)| else iov + 1
      ensures |alignedTransforms| >= |old(alignedTransforms)|
      ensures alignedTransforms[iov] == Some(aligned)
      ensures forall k :: 0 <= k < |old(alignedTransforms)| && k != iov ==>
        alignedTransforms[k] == old(alignedTransforms)[k]
      ensures forall k :: |old(alignedTransforms)| <= k < |alignedTransforms| && k != iov ==>
        alignedTransforms[k] == None
      ensures Transform(AlignmentContext(iov)) == aligned
    {
      var size := |alignedTransforms|;
      if iov >= size {
        alignedTransforms := alignedTransforms + seq(iov + 1 - size, _ => None);
      }
      alignedTransforms := alignedTransforms[iov := Some(aligned)];
    }
  }
}

/**
 * The TGeo side of the ACTS geometry service: searches over the ROOT geometry node tree, the
 * global placement of a node (the product of the local matrices from the top node down to
 * it), and the loop of `Init` that turns the readout discs into telescope layer positions.
 *
 * A node is a value tree; object identity is the node's `id`. Placement matrices are an
 * abstract type `M` with a multiplication, an identity and a translation read-out; where the
 * placement is related to a product, those operations are required to form a monoid.
 */
module ActsGeometryService {
  import opened Wrappers
  import opened Text
  import PadGeometry

  /** The shape of a node's volume: a TGeoTube with its radii and half length, or anything else. */
  datatype Shape = Tube(rmin: real, rmax: real, dz: real) | OtherShape(className: string)

  /** A TGeoNode: its name, its volume's name and shape, its local matrix (possibly null) and its daughters. */
  datatype GeoNode<M> = GeoNode(
    id: nat, name: string, volumeName: string, shape: Shape, matrix: Option<M>,
    daughters: seq<GeoNode<M>>)

  /** The operations of TGeoHMatrix the service uses. */
  datatype MatrixOps<!M> = MatrixOps(identity: M, mul: (M, M) -> M, translation: M -> Vec3)

  datatype Vec3 = Vec3(x: real, y: real, z: real)

  /** Multiplication is associative and `identity` is neutral. */
  ghost predicate IsMonoid<M(!new)>(ops: MatrixOps<M>) {
    && (forall a, b, c :: ops.mul(ops.mul(a, b), c) == ops.mul(a, ops.mul(b, c)))
    && (forall a :: ops.mul(ops.identity, a) == a && ops.mul(a, ops.identity) == a)
  }

  // ---------------------------------------------------------------------------------------
  // Pre-order traversal: a node, then each daughter's subtree in daughter order.

  function PreOrder<M>(n: GeoNode<M>): (s: seq<GeoNode<M>>)
    ensures |s| >= 1 && s[0] == n
    decreases n, 1
  {
    [n] + PreOrderFrom(n, 0)
  }

  /** The pre-order sequences of the daughters `i..` of `n`, concatenated. */
  function PreOrderFrom<M>(n: GeoNode<M>, i: nat): seq<GeoNode<M>>
    decreases n, 0, |n.daughters| - i
  {
    if i >= |n.daughters| then [] else PreOrder(n.daughters[i]) + PreOrderFrom(n, i + 1)
  }

  /** The first node of `s` whose volume is called `volumeName`. */
  function FirstWithVolume<M>(s: seq<GeoNode<M>>, volumeName: string): (r: Option<GeoNode<M>>)
    ensures r.None? <==> forall k :: 0 <= k < |s| ==> s[k].volumeName != volumeName
    ensures r.Some? ==> r.value in s && r.value.volumeName == volumeName
  {
    if s == [] then None
    else if s[0].volumeName == volumeName then Some(s[0])
    else FirstWithVolume(s[1..], volumeName)
  }

  lemma {:induction false} FirstWithVolumeAppend<M>(a: seq<GeoNode<M>>, b: seq<GeoNode<M>>, volumeName: string)
    ensures FirstWithVolume(a + b, volumeName)
         == if FirstWithVolume(a, volumeName).Some? then FirstWithVolume(a, volumeName) else FirstWithVolume(b, volumeName)
    decreases |a|
  {
    if a != [] {
      assert (a + b)[1..] == a[1..] + b;
      FirstWithVolumeAppend(a[1..], b, volumeName);
    } else {
      assert a + b == b;
    }
  }

  // ---------------------------------------------------------------------------------------
  // findNodeRecursive

  /** The node itself if its volume has the name, else the first daughter subtree that has one. */
  function FindNodeRecursive<M>(n: GeoNode<M>, volumeName: string): (r: Option<GeoNode<M>>)
    ensures n.volumeName == volumeName ==> r == Some(n)
    ensures r.Some? ==> r.value.volumeName == volumeName && r.value in PreOrder(n)
    decreases n, 1
  {
    if n.volumeName == volumeName then Some(n) else FindInDaughters(n, 0, volumeName)
  }

  /** The daughter loop of `findNodeRecursive` from daughter `i` on. */
  function FindInDaughters<M>(n: GeoNode<M>, i: nat, volumeName: string): (r: Option<GeoNode<M>>)
    ensures r.Some? ==> r.value.volumeName == volumeName && r.value in PreOrderFrom(n, i)
    decreases n, 0, |n.daughters| - i
  {
    if i >= |n.daughters| then None
    else
      var found := FindNodeRecursive(n.daughters[i], volumeName);
      if found.Some? then found else FindInDaughters(n, i + 1, volumeName)
  }

  /**
   * `findNodeRecursive` returns the first node in pre-order whose volume has the name, and
   * null exactly when no node of the subtree has it.
   */
  lemma {:induction false} FindNodeIsFirstInPreOrder<M>(n: GeoNode<M>, volumeName: string)
    ensures FindNodeRecursive(n, volumeName) == FirstWithVolume(PreOrder(n), volumeName)
    ensures FindNodeRecursive(n, volumeName).None? <==>
      forall k :: 0 <= k < |PreOrder(n)| ==> PreOrder(n)[k].volumeName != volumeName
    decreases n, 1
  {
    FindInDaughtersIsFirst(n, 0, volumeName);
    FirstWithVolumeAppend([n], PreOrderFrom(n, 0), volumeName);
  }

  lemma {:induction false} FindInDaughtersIsFirst<M>(n: GeoNode<M>, i: nat, volumeName: string)
    ensures FindInDaughters(n, i, volumeName) == FirstWithVolume(PreOrderFrom(n, i), volumeName)
    decreases n, 0, |n.daughters| - i
  {
    if i < |n.daughters| {
      FindNodeIsFirstInPreOrder(n.daughters[i], volumeName);
      FindInDaughtersIsFirst(n, i + 1, volumeName);
      FirstWithVolumeAppend(PreOrder(n.daughters[i]), PreOrderFrom(n, i + 1), volumeName);
    }
  }

  // ---------------------------------------------------------------------------------------
  // findNodesWithPrefix

  /** The name the search looks at: the volume's name when `searchVolumes`, else the node's own. */
  function SearchedName<M>(n: GeoNode<M>, searchVolumes: bool): string {
    if searchVolumes then n.volumeName else n.name
  }

  /** The nodes of `s` whose searched name starts with `prefix`, in order. */
  function WithPrefix<M>(s: seq<GeoNode<M>>, prefix: string, searchVolumes: bool): (r: seq<GeoNode<M>>)
    ensures |r| <= |s|
  {
    if s == [] then []
    else
      var rest := WithPrefix(s[1..], prefix, searchVolumes);
      if StartsWith(SearchedName(s[0], searchVolumes), prefix) then [s[0]] + rest else rest
  }

  /** Every selected node is in `s` and matches; every matching node of `s` is selected. */
  lemma {:induction false} WithPrefixExactly<M>(s: seq<GeoNode<M>>, prefix: string, searchVolumes: bool)
    ensures var r := WithPrefix(s, prefix, searchVolumes);
      && (forall k :: 0 <= k < |r| ==> r[k] in s && StartsWith(SearchedName(r[k], searchVolumes), prefix))
      && (forall k :: 0 <= k < |s| && StartsWith(SearchedName(s[k], searchVolumes), prefix) ==> s[k] in r)
    decreases |s|
  {
    if s != [] {
      var rest := WithPrefix(s[1..], prefix, searchVolumes);
      WithPrefixExactly(s[1..], prefix, searchVolumes);
      assert forall x :: x in s[1..] ==> x in s;
      assert forall k :: 1 <= k < |s| ==> s[k] == s[1..][k - 1];
      if StartsWith(SearchedName(s[0], searchVolumes), prefix) {
        assert forall k :: 1 <= k < |[s[0]] + rest| ==> ([s[0]] + rest)[k] == rest[k - 1];
      }
    }
  }

  lemma {:induction false} WithPrefixAppend<M>(a: seq<GeoNode<M>>, b: seq<GeoNode<M>>, prefix: string, searchVolumes: bool)
    ensures WithPrefix(a + b, prefix, searchVolumes) == WithPrefix(a, prefix, searchVolumes) + WithPrefix(b, prefix, searchVolumes)
    decreases |a|
  {
    if a == [] {
      assert a + b == b;
    } else {
      assert (a + b)[1..] == a[1..] + b;
      WithPrefixAppend(a[1..], b, prefix, searchVolumes);
    }
  }

  /** The matches of a subtree: the node itself when it matches, then those of its daughters. */
  lemma WithPrefixOfSubtree<M>(n: GeoNode<M>, prefix: string, searchVolumes: bool)
    ensures WithPrefix(PreOrder(n), prefix, searchVolumes)
         == (if StartsWith(SearchedName(n, searchVolumes), prefix) then [n] else [])
          + WithPrefix(PreOrderFrom(n, 0), prefix, searchVolumes)
  {
    WithPrefixAppend([n], PreOrderFrom(n, 0), prefix, searchVolumes);
    assert [n][1..] == [];
  }

  /** The matches of daughters `i..`: those of daughter `i`, then those of the rest. */
  lemma WithPrefixOfDaughters<M>(n: GeoNode<M>, i: nat, prefix: string, searchVolumes: bool)
    ensures WithPrefix(PreOrderFrom(n, i), prefix, searchVolumes)
         == if i < |n.daughters| then WithPrefix(PreOrder(n.daughters[i]), prefix, searchVolumes)
                                    + WithPrefix(PreOrderFrom(n, i + 1), prefix, searchVolumes)
            else []
  {
    if i < |n.daughters| {
      WithPrefixAppend(PreOrder(n.daughters[i]), PreOrderFrom(n, i + 1), prefix, searchVolumes);
    }
  }

  /**
   * `findNodesWithPrefix`: appends to `results`, in pre-order, every node of the subtree whose
   * searched name starts with `prefix`; the entries already present are kept in front.
   */
  method FindNodesWithPrefix<M>(n: GeoNode<M>, prefix: string, results: seq<GeoNode<M>>, searchVolumes: bool)
    returns (out: seq<GeoNode<M>>)
    ensures out == results + WithPrefix(PreOrder(n), prefix, searchVolumes)
    decreases n
  {
    var name := if searchVolumes then n.volumeName else n.name;
    out := results;
    if StartsWith(name, prefix) {
      out := out + [n];
    }
    WithPrefixOfSubtree(n, prefix, searchVolumes);
    var i := 0;
    while i < |n.daughters|
      invariant 0 <= i <= |n.daughters|
      invariant out + WithPrefix(PreOrderFrom(n, i), prefix, searchVolumes)
             == results + WithPrefix(PreOrder(n), prefix, searchVolumes)
    {
      WithPrefixOfDaughters(n, i, prefix, searchVolumes);
      ghost var before := out;
      ghost var here := WithPrefix(PreOrder(n.daughters[i]), prefix, searchVolumes);
      ghost var later := WithPrefix(PreOrderFrom(n, i + 1), prefix, searchVolumes);
      out := FindNodesWithPrefix(n.daughters[i], prefix, out, searchVolumes);
      AppendAssociative(before, here, later);
      i := i + 1;
    }
    WithPrefixOfDaughters(n, i, prefix, searchVolumes);
  }

  // ---------------------------------------------------------------------------------------
  // findNodeGlobalMatrix and getGlobalPosition

  /**
   * The path from `n` down to the node with id `target`, taking the first daughter branch (in
   * daughter order) that contains it; `None` when the subtree does not contain it.
   */
  function PathTo<M>(n: GeoNode<M>, target: nat): (p: Option<seq<GeoNode<M>>>)
    ensures p.Some? ==> |p.value| >= 1 && p.value[0] == n && p.value[|p.value| - 1].id == target
    decreases n, 1
  {
    if n.id == target then Some([n])
    else match PathFrom(n, 0, target)
      case Some(path) => Some([n] + path)
      case None => None
  }

  function PathFrom<M>(n: GeoNode<M>, i: nat, target: nat): (p: Option<seq<GeoNode<M>>>)
    ensures p.Some? ==> |p.value| >= 1 && p.value[|p.value| - 1].id == target
    decreases n, 0, |n.daughters| - i
  {
    if i >= |n.daughters| then None
    else match PathTo(n.daughters[i], target)
      case Some(path) => Some(path)
      case None => PathFrom(n, i + 1, target)
  }

  /** The ids of the nodes of the subtree of `n`. */
  function SubtreeIds<M>(n: GeoNode<M>): set<nat>
    decreases n, 1
  {
    {n.id} + SubtreeIdsFrom(n, 0)
  }

  /** The ids of the subtrees of daughters `i..` of `n`. */
  function SubtreeIdsFrom<M>(n: GeoNode<M>, i: nat): set<nat>
    decreases n, 0, |n.daughters| - i
  {
    if i >= |n.daughters| then {} else SubtreeIds(n.daughters[i]) + SubtreeIdsFrom(n, i + 1)
  }

  /** A node is found exactly when some node of the subtree carries its id. */
  lemma {:induction false} PathToIffInSubtree<M>(n: GeoNode<M>, target: nat)
    ensures PathTo(n, target).Some? <==> target in SubtreeIds(n)
    decreases n, 1
  {
    PathFromIffInSubtree(n, 0, target);
  }

  lemma {:induction false} PathFromIffInSubtree<M>(n: GeoNode<M>, i: nat, target: nat)
    ensures PathFrom(n, i, target).Some? <==> target in SubtreeIdsFrom(n, i)
    decreases n, 0, |n.daughters| - i
  {
    if i < |n.daughters| {
      PathToIffInSubtree(n.daughters[i], target);
      PathFromIffInSubtree(n, i + 1, target);
    }
  }

  /** `globalMatrix.Multiply(localMatrix)` when the node has a local matrix. */
  function ApplyLocal<M>(ops: MatrixOps<M>, g: M, n: GeoNode<M>): M {
    match n.matrix
    case Some(m) => ops.mul(g, m)
    case None => g
  }

  /** `g` multiplied on the right by the local matrices along `path`, in order, skipping null ones. */
  function AlongPath<M>(ops: MatrixOps<M>, g: M, path: seq<GeoNode<M>>): M
    decreases |path|
  {
    if path == [] then g else AlongPath(ops, ApplyLocal(ops, g, path[0]), path[1..])
  }

  /** The product of the local matrices along the path, in path order. */
  function PathProduct<M>(ops: MatrixOps<M>, path: seq<GeoNode<M>>): M
    decreases |path|
  {
    if path == [] then ops.identity
    else match path[0].matrix
      case Some(m) => ops.mul(m, PathProduct(ops, path[1..]))
      case None => PathProduct(ops, path[1..])
  }

  /** Folding the local matrices into `g` is `g` times the product of those matrices. */
  lemma {:induction false} AlongPathIsProduct<M(!new)>(ops: MatrixOps<M>, g: M, path: seq<GeoNode<M>>)
    requires IsMonoid(ops)
    ensures AlongPath(ops, g, path) == ops.mul(g, PathProduct(ops, path))
    decreases |path|
  {
    if path != [] {
      AlongPathIsProduct(ops, ApplyLocal(ops, g, path[0]), path[1..]);
      match path[0].matrix
      case Some(m) =>
        assert ops.mul(ops.mul(g, m), PathProduct(ops, path[1..])) == ops.mul(g, ops.mul(m, PathProduct(ops, path[1..])));
      case None =>
    }
  }

  /**
   * `findNodeGlobalMatrix`: when the target lies below `current`, `global` leaves multiplied by
   * the local matrices on the path to it and the result is true; otherwise `global` is restored
   * to its input value and the result is false. A null node is never found.
   */
  method FindNodeGlobalMatrix<M>(ops: MatrixOps<M>, current: Option<GeoNode<M>>, target: nat, global: M)
    returns (found: bool, globalOut: M)
    ensures current.None? ==> !found
    ensures current.Some? ==> found == PathTo(current.value, target).Some?
    ensures found ==> globalOut == AlongPath(ops, global, PathTo(current.value, target).value)
    ensures !found ==> globalOut == global
    decreases if current.Some? then current.value.daughters else []
  {
    if current.None? {
      return false, global;
    }
    var node := current.value;
    var savedMatrix := global;
    globalOut := global;
    if node.matrix.Some? {
      globalOut := ops.mul(globalOut, node.matrix.value);
    }
    assert globalOut == ApplyLocal(ops, global, node);
    if node.id == target {
      return true, globalOut;
    }
    var i := 0;
    while i < |node.daughters|
      invariant 0 <= i <= |node.daughters|
      invariant PathFrom(node, i, target) == PathFrom(node, 0, target)
      invariant globalOut == ApplyLocal(ops, global, node)
    {
      var daughterGlobal := globalOut;
      var daughterFound;
      daughterFound, daughterGlobal := FindNodeGlobalMatrix(ops, Some(node.daughters[i]), target, daughterGlobal);
      if daughterFound {
        var path := PathTo(node.daughters[i], target).value;
        assert PathTo(node, target).value == [node] + path;
        assert ([node] + path)[1..] == path;
        return true, daughterGlobal;
      }
      i := i + 1;
    }
    globalOut := savedMatrix;
    return false, globalOut;
  }

  /** The global position of `node` seen from `top`, or the error naming it when it is not below `top`. */
  function GlobalPosition<M>(ops: MatrixOps<M>, top: GeoNode<M>, node: GeoNode<M>): (r: Result<Vec3, string>)
    ensures r.Success? <==> node.id in SubtreeIds(top)
  {
    PathToIffInSubtree(top, node.id);
    match PathTo(top, node.id)
    case Some(path) => Success(ops.translation(AlongPath(ops, ops.identity, path)))
    case None => Failure("Node " + node.name + " not found in the geometry tree.")
  }

  /**
   * `getGlobalPosition`: starts from the identity at the top node and reads the translation of
   * the resulting matrix; a node not below the top node is a runtime error.
   */
  method GetGlobalPosition<M(!new)>(ops: MatrixOps<M>, top: GeoNode<M>, node: GeoNode<M>) returns (r: Result<Vec3, string>)
    ensures r == GlobalPosition(ops, top, node)
  {
    var found, globalMatrix := FindNodeGlobalMatrix(ops, Some(top), node.id, ops.identity);
    if found {
      return Success(ops.translation(globalMatrix));
    }
    return Failure("Node " + node.name + " not found in the geometry tree.");
  }

  /** The position is the translation of the product of the local matrices on the path from the top node. */
  lemma GlobalPositionIsPathProduct<M(!new)>(ops: MatrixOps<M>, top: GeoNode<M>, node: GeoNode<M>)
    requires IsMonoid(ops) && GlobalPosition(ops, top, node).Success?
    ensures GlobalPosition(ops, top, node).value == ops.translation(PathProduct(ops, PathTo(top, node.id).value))
  {
    AlongPathIsProduct(ops, ops.identity, PathTo(top, node.id).value);
  }

  // ---------------------------------------------------------------------------------------
  // The readout-disc loop of Init

  /** The prefix `Init` searches node names for. */
  const ReadoutDiscPrefix: string := "mTPCReadoutDisc"

  /** The telescope layout handed to the detector builder. */
  datatype DiscLayout = DiscLayout(positions: seq<real>, stereos: seq<real>, bounds: (real, real), thickness: real)

  /** The defaults before the loop: bounds {25, 100}, thickness 0.1, no layers. */
  const DefaultLayout: DiscLayout := DiscLayout([], [], (25.0, 100.0), 0.1)

  /**
   * One turn of the loop over the discs: the disc's global position is computed first (a
   * failure aborts `Init`); a non-tube disc is then skipped; a tube sets the bounds and the
   * thickness and adds its z (in cm) as a layer position with stereo angle 0.
   */
  function DiscStep<M>(ops: MatrixOps<M>, top: GeoNode<M>, before: Result<DiscLayout, string>, node: GeoNode<M>)
    : Result<DiscLayout, string>
  {
    if before.Failure? then before
    else
      var pos := GlobalPosition(ops, top, node);
      if pos.Failure? then Failure(pos.error)
      else match node.shape
        case OtherShape(_) => before
        case Tube(rmin, rmax, dz) =>
          Success(before.value.(
            positions := before.value.positions + [pos.value.z * PadGeometry.Cm],
            stereos := before.value.stereos + [0.0],
            bounds := (rmin * PadGeometry.Cm, rmax * PadGeometry.Cm),
            thickness := dz * PadGeometry.Cm * 0.1))
  }

  /** The layout after the loop over `discs`, starting from the defaults. */
  function DiscLayoutOf<M>(ops: MatrixOps<M>, top: GeoNode<M>, discs: seq<GeoNode<M>>): Result<DiscLayout, string>
    decreases |discs|
  {
    if discs == [] then Success(DefaultLayout)
    else DiscStep(ops, top, DiscLayoutOf(ops, top, discs[..|discs| - 1]), discs[|discs| - 1])
  }

  lemma DiscLayoutPrefix<M>(ops: MatrixOps<M>, top: GeoNode<M>, discs: seq<GeoNode<M>>, i: nat)
    requires i < |discs|
    ensures DiscLayoutOf(ops, top, discs[..i + 1]) == DiscStep(ops, top, DiscLayoutOf(ops, top, discs[..i]), discs[i])
  {
    assert discs[..i + 1][..i] == discs[..i];
  }

  /** One turn of the disc loop from a successful state, once the node's position is known. */
  lemma DiscLoopStep<M>(ops: MatrixOps<M>, top: GeoNode<M>, discs: seq<GeoNode<M>>, i: nat, layout: DiscLayout)
    requires i < |discs| && DiscLayoutOf(ops, top, discs[..i]) == Success(layout)
    requires GlobalPosition(ops, top, discs[i]).Success?
    ensures !discs[i].shape.Tube? ==> DiscLayoutOf(ops, top, discs[..i + 1]) == Success(layout)
    ensures discs[i].shape.Tube? ==> DiscLayoutOf(ops, top, discs[..i + 1]) == Success(DiscLayout(
      layout.positions + [GlobalPosition(ops, top, discs[i]).value.z * PadGeometry.Cm],
      layout.stereos + [0.0],
      (discs[i].shape.rmin * PadGeometry.Cm, discs[i].shape.rmax * PadGeometry.Cm),
      discs[i].shape.dz * PadGeometry.Cm * 0.1))
  {
    DiscLayoutPrefix(ops, top, discs, i);
  }

  /** The tubes among `discs`, in order. */
  function Tubes<M>(discs: seq<GeoNode<M>>): (r: seq<GeoNode<M>>)
    ensures forall k :: 0 <= k < |r| ==> r[k].shape.Tube?
    decreases |discs|
  {
    if discs == [] then []
    else
      var rest := Tubes(discs[..|discs| - 1]);
      if discs[|discs| - 1].shape.Tube? then rest + [discs[|discs| - 1]] else rest
  }

  /** A successful loop has one layer position and one zero stereo angle per tube, in order. */
  lemma {:induction false} DiscLayoutOneLayerPerTube<M>(ops: MatrixOps<M>, top: GeoNode<M>, discs: seq<GeoNode<M>>)
    requires DiscLayoutOf(ops, top, discs).Success?
    ensures var layout := DiscLayoutOf(ops, top, discs).value;
      && |layout.positions| == |Tubes(discs)| && |layout.stereos| == |Tubes(discs)|
      && forall k :: 0 <= k < |layout.stereos| ==> layout.stereos[k] == 0.0
    decreases |discs|
  {
    if discs != [] {
      DiscLayoutOneLayerPerTube(ops, top, discs[..|discs| - 1]);
    }
  }

  /** The k-th layer position is the z of the k-th tube's global position, in cm. */
  lemma {:induction false} DiscLayoutPositions<M>(ops: MatrixOps<M>, top: GeoNode<M>, discs: seq<GeoNode<M>>)
    requires DiscLayoutOf(ops, top, discs).Success?
    ensures var layout := DiscLayoutOf(ops, top, discs).value;
      |layout.positions| == |Tubes(discs)| &&
      forall k :: 0 <= k < |Tubes(discs)| ==>
        (GlobalPosition(ops, top, Tubes(discs)[k]).Success? &&
         layout.positions[k] == GlobalPosition(ops, top, Tubes(discs)[k]).value.z * PadGeometry.Cm)
    decreases |discs|
  {
    DiscLayoutOneLayerPerTube(ops, top, discs);
    if discs != [] {
      DiscLayoutPositions(ops, top, discs[..|discs| - 1]);
    }
  }

  /** The bounds and thickness are those of the last tube, or the defaults when there is none. */
  lemma {:induction false} DiscLayoutLastTube<M>(ops: MatrixOps<M>, top: GeoNode<M>, discs: seq<GeoNode<M>>)
    requires DiscLayoutOf(ops, top, discs).Success?
    ensures var layout := DiscLayoutOf(ops, top, discs).value;
      && (Tubes(discs) == [] ==> layout.bounds == (25.0, 100.0) && layout.thickness == 0.1)
      && (Tubes(discs) != [] ==>
            var last := Tubes(discs)[|Tubes(discs)| - 1].shape;
            layout.bounds == (last.rmin * PadGeometry.Cm, last.rmax * PadGeometry.Cm)
            && layout.thickness == last.dz * PadGeometry.Cm * 0.1)
    decreases |discs|
  {
    if discs != [] {
      DiscLayoutLastTube(ops, top, discs[..|discs| - 1]);
    }
  }

  /** A disc whose global position cannot be computed makes the loop fail with that error. */
  lemma {:induction false} DiscLayoutFailsOnUnreachable<M>(ops: MatrixOps<M>, top: GeoNode<M>, discs: seq<GeoNode<M>>, k: nat)
    requires k < |discs| && GlobalPosition(ops, top, discs[k]).Failure?
    ensures DiscLayoutOf(ops, top, discs).Failure?
    decreases |discs|
  {
    if k < |discs| - 1 {
      assert discs[..|discs| - 1][k] == discs[k];
      DiscLayoutFailsOnUnreachable(ops, top, discs[..|discs| - 1], k);
    }
  }

  /**
   * The disc part of `Init`: collects the nodes named with the readout-disc prefix in
   * pre-order, then runs the loop over them.
   */
  method ReadoutDiscLayout<M(!new)>(ops: MatrixOps<M>, top: GeoNode<M>) returns (r: Result<DiscLayout, string>)
    ensures r == DiscLayoutOf(ops, top, WithPrefix(PreOrder(top), ReadoutDiscPrefix, false))
  {
    var diskNodes := FindNodesWithPrefix(top, ReadoutDiscPrefix, [], false);
    assert diskNodes == WithPrefix(PreOrder(top), ReadoutDiscPrefix, false);
    r := DiscLoop(ops, top, diskNodes);
  }

  /** The loop of `Init` over the readout discs, in the order given. */
  method DiscLoop<M(!new)>(ops: MatrixOps<M>, top: GeoNode<M>, diskNodes: seq<GeoNode<M>>) returns (r: Result<DiscLayout, string>)
    ensures r == DiscLayoutOf(ops, top, diskNodes)
  {
    var positions: seq<real> := [];
    var stereos: seq<real> := [];
    var bounds := (25.0, 100.0);
    var thickness := 0.1;
    var i := 0;
    assert diskNodes[..0] == [];
    while i < |diskNodes|
      invariant 0 <= i <= |diskNodes|
      invariant DiscLayoutOf(ops, top, diskNodes[..i]) == Success(DiscLayout(positions, stereos, bounds, thickness))
    {
      var node := diskNodes[i];
      DiscLayoutPrefix(ops, top, diskNodes, i);
      var pos := GetGlobalPosition(ops, top, node);
      if pos.Failure? {
        FailureSticksFrom(ops, top, diskNodes, i + 1);
        return Failure(pos.error);
      }
      DiscLoopStep(ops, top, diskNodes, i, DiscLayout(positions, stereos, bounds, thickness));
      i := i + 1;
      if !node.shape.Tube? {
        continue;
      }
      bounds := (node.shape.rmin * PadGeometry.Cm, node.shape.rmax * PadGeometry.Cm);
      thickness := node.shape.dz * PadGeometry.Cm * 0.1;
      positions := positions + [pos.value.z * PadGeometry.Cm];
      stereos := stereos + [0.0];
    }
    assert diskNodes[..i] == diskNodes;
    return Success(DiscLayout(positions, stereos, bounds, thickness));
  }

  /** Once the loop over a prefix has failed, the loop over the whole sequence fails the same way. */
  lemma {:induction false} FailureSticksFrom<M>(ops: MatrixOps<M>, top: GeoNode<M>, discs: seq<GeoNode<M>>, n: nat)
    requires n <= |discs| && DiscLayoutOf(ops, top, discs[..n]).Failure?
    ensures DiscLayoutOf(ops, top, discs) == DiscLayoutOf(ops, top, discs[..n])
    decreases |discs| - n
  {
    if n < |discs| {
      assert discs[..n + 1][..n] == discs[..n];
      FailureSticksFrom(ops, top, discs, n + 1);
    } else {
      assert discs[..n] == discs;
    }
  }
}

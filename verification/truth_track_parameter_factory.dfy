/**
 * `TruthTrackParameterFactory::Execute`: the same per-hit tracker-hit construction as the
 * reconstructed-hit factory, with its own copy of the variance helpers, but producing tracker
 * hits only (no surface measurements).
 */
module TruthTrackParameterFactory {
  import opened Wrappers
  import opened PadGeometry
  import opened ReconstructedHitFactory

  /** The tracker hits the factory produces for a list of digitized hits, or the first index error. */
  function TruthHits(cfg: Config, hits: seq<McHit>): Result<seq<TrackerHit>, IndexError>
    requires ValidFor(cfg, hits)
    decreases |hits|
  {
    if hits == [] then Success([])
    else
      var i := |hits| - 1;
      PrefixIndexable(cfg, hits, i);
      match TruthHits(cfg, hits[..i])
      case Failure(e) => Failure(e)
      case Success(out) =>
        match MakeTrackerHit(cfg, hits[i])
        case Failure(e) => Failure(e)
        case Success(hit) => Success(out + [hit])
  }

  /** Once a prefix fails, every extension fails with the same error. */
  lemma {:induction false} TruthFailureSticks(cfg: Config, hits: seq<McHit>, k: nat)
    requires ValidFor(cfg, hits) && k <= |hits|
    requires ValidFor(cfg, hits[..k])
    requires TruthHits(cfg, hits[..k]).Failure?
    ensures TruthHits(cfg, hits) == TruthHits(cfg, hits[..k])
    decreases |hits| - k
  {
    if k < |hits| {
      PrefixIndexable(cfg, hits, k + 1);
      assert hits[..k + 1][..k] == hits[..k];
      TruthFailureSticks(cfg, hits, k + 1);
    } else {
      assert hits[..k] == hits;
    }
  }

  /** Appending one hit to a prefix whose hits all succeeded. */
  lemma TruthStep(cfg: Config, hits: seq<McHit>, i: nat, out: seq<TrackerHit>)
    requires ValidFor(cfg, hits) && i < |hits|
    requires ValidFor(cfg, hits[..i]) && ValidFor(cfg, hits[..i + 1])
    requires TruthHits(cfg, hits[..i]) == Success(out)
    ensures TruthHits(cfg, hits[..i + 1]) ==
      match MakeTrackerHit(cfg, hits[i])
      case Failure(e) => Failure(e)
      case Success(hit) => Success(out + [hit])
  {
    assert hits[..i + 1][..i] == hits[..i];
    assert hits[..i + 1][i] == hits[i];
  }

  /**
   * `Execute`: one tracker hit per digitized hit, in input order; an index error from
   * `getPadCenter` aborts the pass.
   */
  method Execute(cfg: Config, mcHits: seq<McHit>) returns (r: Result<seq<TrackerHit>, IndexError>)
    requires ValidFor(cfg, mcHits)
    ensures r == TruthHits(cfg, mcHits)
  {
    var recHits: seq<TrackerHit> := [];
    var i := 0;
    assert mcHits[..0] == [];
    while i < |mcHits|
      invariant 0 <= i <= |mcHits|
      invariant ValidFor(cfg, mcHits[..i])
      invariant TruthHits(cfg, mcHits[..i]) == Success(recHits)
    {
      var mc := mcHits[i];
      PrefixIndexable(cfg, mcHits, i + 1);
      TruthStep(cfg, mcHits, i, recHits);
      var center := GetPadCenter(cfg.lib, mc.ring, mc.pad);
      if center.Failure? {
        TruthFailureSticks(cfg, mcHits, i + 1);
        return Failure(center.error);
      }
      var padXY := center.value;
      var planeZ := cfg.planePositions[mc.plane];
      var calcZ := CalcZ(planeZ, mc.plane, mc.zToGem);
      var position := SelectPosition(cfg.useTruePosition, mc.truePosition, padXY, calcZ);
      var xyVariance := XyVariance(cfg.lib, mc.ring);
      var cov := CovDiag3(xyVariance, xyVariance, ZCovarianceSlot);
      var hit := TrackerHit(CellId(mc.plane, mc.ring, mc.pad), position, cov, mc.time, TimeError, mc.adc, 0.0, None);
      assert MakeTrackerHit(cfg, mc) == Success(hit);
      recHits := recHits + [hit];
      i := i + 1;
    }
    assert mcHits[..i] == mcHits;
    r := Success(recHits);
  }

  /**
   * The two factories agree: the truth factory fails exactly when the reconstructed-hit
   * factory fails, with the same error, and otherwise yields the same tracker hits except
   * that none of them is linked back to its digitized hit.
   */
  lemma {:induction false} TruthMatchesReconstructed(cfg: Config, hits: seq<McHit>)
    requires ValidFor(cfg, hits)
    ensures TruthHits(cfg, hits).Success? <==> Reconstruct(cfg, hits).Success?
    ensures TruthHits(cfg, hits).Failure? ==> TruthHits(cfg, hits).error == Reconstruct(cfg, hits).error
    ensures TruthHits(cfg, hits).Success? ==>
      && |TruthHits(cfg, hits).value| == |Reconstruct(cfg, hits).value.trackerHits|
      && forall i :: 0 <= i < |TruthHits(cfg, hits).value| ==>
           TruthHits(cfg, hits).value[i] == Reconstruct(cfg, hits).value.trackerHits[i].(rawHit := None)
    decreases |hits|
  {
    if hits != [] {
      var n := |hits| - 1;
      PrefixIndexable(cfg, hits, n);
      TruthMatchesReconstructed(cfg, hits[..n]);
    }
  }

  /** On success the truth factory yields exactly one tracker hit per input, in input order, none linked to a raw hit. */
  lemma TruthOneHitPerInput(cfg: Config, hits: seq<McHit>)
    requires ValidFor(cfg, hits)
    requires TruthHits(cfg, hits).Success?
    ensures |TruthHits(cfg, hits).value| == |hits|
    ensures forall i :: 0 <= i < |hits| ==> MakeTrackerHit(cfg, hits[i]) == Success(TruthHits(cfg, hits).value[i])
    ensures forall i :: 0 <= i < |hits| ==> TruthHits(cfg, hits).value[i].rawHit == None
  {
    TruthMatchesReconstructed(cfg, hits);
    OneTrackerHitPerInput(cfg, hits);
  }
}

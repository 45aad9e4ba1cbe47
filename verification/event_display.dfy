/**
 * The standalone bokeh event display (`2d_event_display.py`): it reads one event from a text
 * digitization file and turns its hits into plotting columns. Planes are 5.5 cm apart, and
 * the drift distance is always added.
 *
 * Python's `float()` is the parameter `num`; an exception is a `DisplayError`, and line
 * numbers count the stripped non-blank lines.
 */
module EventDisplay {
  import opened Wrappers
  import opened Trig
  import opened Text
  import ScriptGeometry

  /** 55 cm over 10 planes. */
  const PlaneSpacing: real := 55.0 / 10.0

  /** What `read_track_data` returns: the four track parameters and the hit rows. */
  datatype Track = Track(momentum: real, thetaDeg: real, phiDeg: real, zVertex: real, hits: seq<seq<real>>)

  /**
   * Why `read_track_data` raised: no line at index 0 or 1 (IndexError), a number `float()`
   * rejects, or a parameter line that does not unpack into four values (ValueError).
   */
  datatype DisplayError = NoEventLine | NoTrackLine | NotAFloat(line: nat) | TrackParameterCount(got: nat)

  /** The hit rows of content lines `2..n`, or the first line that does not convert. */
  function RowsUpTo(num: NumberSyntax, cs: seq<string>, n: nat): Result<seq<seq<real>>, DisplayError>
    requires 2 <= n <= |cs|
    decreases n
  {
    if n == 2 then Success([])
    else
      var before := RowsUpTo(num, cs, n - 1);
      if before.Failure? then before
      else match Reals(num, Tokens(cs[n - 1]))
        case None => Failure(NotAFloat(n - 1))
        case Some(row) => Success(before.value + [row])
  }

  /** What `read_track_data` returns for the file's lines. */
  function TrackData(num: NumberSyntax, lines: seq<string>): Result<Track, DisplayError> {
    TrackOfContent(num, ContentLines(lines))
  }

  /** What `read_track_data` returns once the content lines are known. */
  function TrackOfContent(num: NumberSyntax, cs: seq<string>): Result<Track, DisplayError> {
    if |cs| == 0 then Failure(NoEventLine)
    else if |cs| == 1 then Failure(NoTrackLine)
    else match Reals(num, Tokens(cs[1]))
      case None => Failure(NotAFloat(1))
      case Some(params) =>
        if |params| != 4 then Failure(TrackParameterCount(|params|))
        else match RowsUpTo(num, cs, |cs|)
          case Failure(e) => Failure(e)
          case Success(hits) => Success(Track(params[0], params[1], params[2], params[3], hits))
  }

  lemma {:induction false} RowsUpToFails(num: NumberSyntax, cs: seq<string>, n: nat, m: nat)
    requires 2 <= n <= m <= |cs| && RowsUpTo(num, cs, n).Failure?
    ensures RowsUpTo(num, cs, m) == RowsUpTo(num, cs, n)
    decreases m - n
  {
    if n < m {
      RowsUpToFails(num, cs, n, m - 1);
    }
  }

  lemma {:induction false} RowsUpToExactly(num: NumberSyntax, cs: seq<string>, n: nat)
    requires 2 <= n <= |cs|
    ensures RowsUpTo(num, cs, n).Success? <==> forall k :: 2 <= k < n ==> Reals(num, Tokens(cs[k])).Some?
    ensures RowsUpTo(num, cs, n).Success? ==>
      var hits := RowsUpTo(num, cs, n).value;
      |hits| == n - 2 && forall k :: 2 <= k < n ==> Reals(num, Tokens(cs[k])) == Some(hits[k - 2])
    decreases n
  {
    if n > 2 {
      RowsUpToExactly(num, cs, n - 1);
    }
  }

  /**
   * Reading succeeds exactly when there are at least two content lines, the second converts to
   * exactly four numbers and every later one converts; the hits are then the later lines, in
   * order, and the first line is never looked at.
   */
  lemma TrackDataExactly(num: NumberSyntax, lines: seq<string>)
    ensures var cs := ContentLines(lines);
      TrackData(num, lines).Success? <==>
        && |cs| >= 2
        && Reals(num, Tokens(cs[1])).Some? && |Reals(num, Tokens(cs[1])).value| == 4
        && forall k :: 2 <= k < |cs| ==> Reals(num, Tokens(cs[k])).Some?
    ensures var cs := ContentLines(lines);
      TrackData(num, lines).Success? ==>
        var t := TrackData(num, lines).value;
        && Reals(num, Tokens(cs[1])) == Some([t.momentum, t.thetaDeg, t.phiDeg, t.zVertex])
        && |t.hits| == |cs| - 2
        && forall k :: 2 <= k < |cs| ==> Reals(num, Tokens(cs[k])) == Some(t.hits[k - 2])
  {
    ContentTrackExactly(num, ContentLines(lines));
  }

  lemma ContentTrackExactly(num: NumberSyntax, cs: seq<string>)
    ensures TrackOfContent(num, cs).Success? <==>
        && |cs| >= 2
        && Reals(num, Tokens(cs[1])).Some? && |Reals(num, Tokens(cs[1])).value| == 4
        && forall k :: 2 <= k < |cs| ==> Reals(num, Tokens(cs[k])).Some?
    ensures TrackOfContent(num, cs).Success? ==>
        var t := TrackOfContent(num, cs).value;
        && Reals(num, Tokens(cs[1])) == Some([t.momentum, t.thetaDeg, t.phiDeg, t.zVertex])
        && |t.hits| == |cs| - 2
        && forall k :: 2 <= k < |cs| ==> Reals(num, Tokens(cs[k])) == Some(t.hits[k - 2])
  {
    if |cs| >= 2 {
      RowsUpToExactly(num, cs, |cs|);
      if TrackOfContent(num, cs).Success? {
        var p := Reals(num, Tokens(cs[1])).value;
        assert p == [p[0], p[1], p[2], p[3]];
      }
    }
  }

  /** Blank lines, wherever they are, change nothing. */
  lemma BlankLinesIgnored(num: NumberSyntax, before: seq<string>, blank: string, after: seq<string>)
    requires Strip(blank) == []
    ensures TrackData(num, before + [blank] + after) == TrackData(num, before + after)
  {
    ContentLinesAppend(before + [blank], after);
    ContentLinesAppend(before, [blank]);
    ContentLinesAppend(before, after);
    assert ContentLines([blank]) == [] by {
      assert [blank][..0] == [];
    }
    assert ContentLines(before + [blank] + after) == ContentLines(before + after);
  }

  /** The first content line is taken as the event line without being checked. */
  lemma EventLineUnchecked(num: NumberSyntax, a: string, b: string, rest: seq<string>)
    requires Strip(a) != [] && Strip(b) != []
    ensures TrackData(num, [a] + rest) == TrackData(num, [b] + rest)
  {
    ContentLinesAppend([a], rest);
    ContentLinesAppend([b], rest);
    assert [a][..0] == [] && [b][..0] == [];
    var ca, cb := ContentLines([a] + rest), ContentLines([b] + rest);
    assert ca[1..] == cb[1..];
    forall k | 1 <= k < |ca|
      ensures ca[k] == cb[k]
    {
      assert ca[k] == ca[1..][k - 1];
      assert cb[k] == cb[1..][k - 1];
    }
    SameAfterEventLine(num, [a] + rest, [b] + rest);
  }

  /** Track data depends on the content lines after the first only. */
  lemma SameAfterEventLine(num: NumberSyntax, l1: seq<string>, l2: seq<string>)
    requires |ContentLines(l1)| == |ContentLines(l2)| >= 1
    requires forall k :: 1 <= k < |ContentLines(l1)| ==> ContentLines(l1)[k] == ContentLines(l2)[k]
    ensures TrackData(num, l1) == TrackData(num, l2)
  {
    var c1, c2 := ContentLines(l1), ContentLines(l2);
    if |c1| >= 2 {
      assert c1[1] == c2[1];
      RowsUpToSame(num, c1, c2, |c1|);
    }
  }

  lemma {:induction false} RowsUpToSame(num: NumberSyntax, cs: seq<string>, ds: seq<string>, n: nat)
    requires 2 <= n <= |cs| == |ds| && forall k :: 1 <= k < |cs| ==> cs[k] == ds[k]
    ensures RowsUpTo(num, cs, n) == RowsUpTo(num, ds, n)
    decreases n
  {
    if n > 2 {
      RowsUpToSame(num, cs, ds, n - 1);
    }
  }

  /** `read_track_data`: the comprehension over the lines, then the loop over the hit lines. */
  method ReadTrackData(num: NumberSyntax, lines: seq<string>) returns (r: Result<Track, DisplayError>)
    ensures r == TrackData(num, lines)
  {
    var content := ContentLines(lines);
    if |content| == 0 {
      return Failure(NoEventLine);
    }
    if |content| == 1 {
      return Failure(NoTrackLine);
    }
    var trackParams := Reals(num, Tokens(content[1]));
    if trackParams.None? {
      return Failure(NotAFloat(1));
    }
    if |trackParams.value| != 4 {
      return Failure(TrackParameterCount(|trackParams.value|));
    }
    var hits := ReadHitRows(num, content);
    if hits.Failure? {
      return Failure(hits.error);
    }
    var p := trackParams.value;
    return Success(Track(p[0], p[1], p[2], p[3], hits.value));
  }

  /** The hit loop of `read_track_data`: content lines from index 2 on, converted one by one. */
  method ReadHitRows(num: NumberSyntax, content: seq<string>) returns (r: Result<seq<seq<real>>, DisplayError>)
    requires |content| >= 2
    ensures r == RowsUpTo(num, content, |content|)
  {
    var hits: seq<seq<real>> := [];
    var i := 2;
    while i < |content|
      invariant 2 <= i <= |content|
      invariant RowsUpTo(num, content, i) == Success(hits)
    {
      var hitData := Reals(num, Tokens(content[i]));
      if hitData.None? {
        RowsUpToFails(num, content, i + 1, |content|);
        return Failure(NotAFloat(i));
      }
      hits := hits + [hitData.value];
      i := i + 1;
    }
    return Success(hits);
  }

  /**
   * `prepare_hits_data`: one plotted hit per row, in order; z is plane × 5.5 cm plus the drift
   * distance in cm, whatever the plane's parity.
   */
  method PrepareHitsData(lib: MathLib, hits: seq<seq<real>>) returns (r: Result<seq<ScriptGeometry.PlotHit>, ScriptGeometry.HitError>)
    requires lib.Valid()
    ensures r == ScriptGeometry.HitPoints(lib, hits, |hits|, PlaneSpacing, false)
    ensures r.Success? ==> |r.value| == |hits|
    ensures r.Success? ==> forall k :: 0 <= k < |hits| ==>
      && |hits[k]| >= 6
      && var plane := ScriptGeometry.Trunc(hits[k][4]);
      && r.value[k].plane == plane
      && r.value[k].z == plane as real * 5.5 + hits[k][5] * 100.0
  {
    r := ScriptGeometry.PrepareHitsData(lib, hits, PlaneSpacing, false);
    ScriptGeometry.HitPointsExactly(lib, hits, |hits|, PlaneSpacing, false);
  }

  /**
   * `prepare_background_geometry`: 21 · 122 · 10 points, the centre of every pad repeated for
   * planes 0..9 at z = plane × 5.5 cm, ring by ring and pad by pad.
   */
  method PrepareBackgroundGeometry(lib: MathLib) returns (xs: seq<real>, ys: seq<real>, zs: seq<real>)
    requires lib.Valid()
    ensures ScriptGeometry.PadCloud(lib, PlaneSpacing, xs, ys, zs)
  {
    xs, ys, zs := ScriptGeometry.PrepareBackgroundGeometry(lib, PlaneSpacing);
    ScriptGeometry.BackgroundIsPadCloud(lib, PlaneSpacing, xs, ys, zs);
  }
}

/**
 * The bokeh server event display (`2d_event_display_server.py`): it reads every "Event N"
 * block of a text digitization file into a dictionary keyed by event number, and turns the
 * hits of one event into plotting columns. Planes are 5 cm apart, and the drift distance is
 * subtracted on odd planes.
 *
 * Python's `float()` and `int()` are the parameter `num`; an exception is a `ReadError` that
 * names the file line it came from.
 */
module EventDisplayServer {
  import opened Wrappers
  import opened Trig
  import opened Text
  import PadGeometry
  import ScriptGeometry

  const PlaneSpacing: real := 5.0

  /** The dictionary value of one event: its track parameters and its hit rows. */
  datatype TrackEvent = TrackEvent(trackParams: seq<real>, hits: seq<seq<real>>)

  /** One `events[event_number] = ...` assignment. */
  datatype Entry = Entry(number: int, event: TrackEvent)

  /**
   * Why `read_track_data` raised: a marker line without a second field (IndexError), an event
   * number `int()` rejects, or a number `float()` rejects (ValueError).
   */
  datatype ReadError = MissingEventNumber(line: nat) | NotAnInteger(line: nat) | NotAFloat(line: nat)

  /** A line that starts an event once stripped. */
  predicate IsMarker(line: string) {
    StartsWith(Strip(line), "Event")
  }

  /** `int(line.split()[1])` for the marker on line `i`. */
  function EventNumber(num: NumberSyntax, line: string, i: nat): (r: Result<int, ReadError>)
    ensures |Tokens(Strip(line))| < 2 <==> r == Failure(MissingEventNumber(i))
    ensures r.Success? <==> |Tokens(Strip(line))| >= 2 && num.toInt(Tokens(Strip(line))[1]).Some?
    ensures r.Success? ==> num.toInt(Tokens(Strip(line))[1]) == Some(r.value)
  {
    var tokens := Tokens(Strip(line));
    if |tokens| < 2 then Failure(MissingEventNumber(i))
    else match num.toInt(tokens[1])
      case None => Failure(NotAnInteger(i))
      case Some(n) => Success(n)
  }

  /** The index of the first marker at or after `i`, or the number of lines when there is none. */
  function NextMarker(lines: seq<string>, i: nat): (j: nat)
    requires i <= |lines|
    ensures i <= j <= |lines|
    ensures j < |lines| ==> IsMarker(lines[j])
    ensures forall k :: i <= k < j ==> !IsMarker(lines[k])
    decreases |lines| - i
  {
    if i == |lines| || IsMarker(lines[i]) then i else NextMarker(lines, i + 1)
  }

  /** `list(map(float, line.split()))` for a stripped line. */
  function LineReals(num: NumberSyntax, line: string): Option<seq<real>> {
    Reals(num, Tokens(Strip(line)))
  }

  /** The hit rows of lines `s..e`: blank lines are passed over, the others converted. */
  function HitsBetween(num: NumberSyntax, lines: seq<string>, s: nat, e: nat): Result<seq<seq<real>>, ReadError>
    requires s <= e <= |lines|
    decreases e - s
  {
    if e == s then Success([])
    else
      var before := HitsBetween(num, lines, s, e - 1);
      if before.Failure? || Strip(lines[e - 1]) == [] then before
      else match LineReals(num, lines[e - 1])
        case None => Failure(NotAFloat(e - 1))
        case Some(row) => Success(before.value + [row])
  }

  /**
   * The assignments `read_track_data` makes from line `i` on, in order, or the exception it
   * raises. A marker on the last line ends the reading without an assignment.
   */
  function EventsFrom(num: NumberSyntax, lines: seq<string>, i: nat): Result<seq<Entry>, ReadError>
    requires i <= |lines|
    decreases |lines| - i
  {
    if i == |lines| then Success([])
    else if !IsMarker(lines[i]) then EventsFrom(num, lines, i + 1)
    else match EventNumber(num, lines[i], i)
      case Failure(e) => Failure(e)
      case Success(n) =>
        if i + 1 == |lines| then Success([])
        else match LineReals(num, lines[i + 1])
          case None => Failure(NotAFloat(i + 1))
          case Some(params) =>
            var end := NextMarker(lines, i + 2);
            match HitsBetween(num, lines, i + 2, end)
            case Failure(e) => Failure(e)
            case Success(hits) =>
              match EventsFrom(num, lines, end)
              case Failure(e) => Failure(e)
              case Success(rest) => Success([Entry(n, TrackEvent(params, hits))] + rest)
  }

  /** The dictionary after the assignments `es`, made in order, to `m`. */
  function UpdateAll(m: map<int, TrackEvent>, es: seq<Entry>): map<int, TrackEvent>
    decreases |es|
  {
    if es == [] then m else UpdateAll(m[es[0].number := es[0].event], es[1..])
  }

  function Finish(m: map<int, TrackEvent>, r: Result<seq<Entry>, ReadError>): Result<map<int, TrackEvent>, ReadError> {
    match r
    case Failure(e) => Failure(e)
    case Success(es) => Success(UpdateAll(m, es))
  }

  /** What `read_track_data` returns for the file's lines. */
  function TrackData(num: NumberSyntax, lines: seq<string>): Result<map<int, TrackEvent>, ReadError> {
    Finish(map[], EventsFrom(num, lines, 0))
  }

  lemma {:induction false} HitsBetweenFails(num: NumberSyntax, lines: seq<string>, s: nat, e: nat, m: nat)
    requires s <= e <= m <= |lines| && HitsBetween(num, lines, s, e).Failure?
    ensures HitsBetween(num, lines, s, m) == HitsBetween(num, lines, s, e)
    decreases m - e
  {
    if e < m {
      HitsBetweenFails(num, lines, s, e, m - 1);
    }
  }

  /** One more line: a blank one changes nothing, another adds its row or fails on it. */
  lemma HitsStep(num: NumberSyntax, lines: seq<string>, s: nat, i: nat)
    requires s <= i < |lines| && HitsBetween(num, lines, s, i).Success?
    ensures HitsBetween(num, lines, s, i + 1)
         == if Strip(lines[i]) == [] then HitsBetween(num, lines, s, i)
            else match LineReals(num, lines[i])
              case None => Failure(NotAFloat(i))
              case Some(row) => Success(HitsBetween(num, lines, s, i).value + [row])
  {
  }

  /** The hits of an event succeed exactly when every non-blank line converts. */
  lemma {:induction false} HitsBetweenSucceeds(num: NumberSyntax, lines: seq<string>, s: nat, e: nat)
    requires s <= e <= |lines|
    ensures HitsBetween(num, lines, s, e).Success? <==>
      forall j :: s <= j < e && Strip(lines[j]) != [] ==> LineReals(num, lines[j]).Some?
    decreases e - s
  {
    if e > s {
      HitsBetweenSucceeds(num, lines, s, e - 1);
    }
  }

  /** Hits that succeed are the converted non-blank lines, one each, in order. */
  lemma {:induction false} HitsBetweenRows(num: NumberSyntax, lines: seq<string>, s: nat, e: nat)
    requires s <= e <= |lines| && HitsBetween(num, lines, s, e).Success?
    ensures var hs := HitsBetween(num, lines, s, e).value;
      var cs := ContentLines(lines[s..e]);
      |hs| == |cs| && forall k :: 0 <= k < |cs| ==> Reals(num, Tokens(cs[k])) == Some(hs[k])
    decreases e - s
  {
    if e > s {
      var before := HitsBetween(num, lines, s, e - 1);
      assert before.Success?;
      HitsBetweenRows(num, lines, s, e - 1);
      ContentLinesStep(lines, s, e);
    }
  }

  /**
   * The hits of an event succeed exactly when every non-blank line converts; they are then
   * the converted non-blank lines, in order.
   */
  lemma HitsBetweenExactly(num: NumberSyntax, lines: seq<string>, s: nat, e: nat)
    requires s <= e <= |lines|
    ensures HitsBetween(num, lines, s, e).Success? <==>
      forall j :: s <= j < e && Strip(lines[j]) != [] ==> LineReals(num, lines[j]).Some?
    ensures HitsBetween(num, lines, s, e).Success? ==>
      var hs := HitsBetween(num, lines, s, e).value;
      var cs := ContentLines(lines[s..e]);
      |hs| == |cs| && forall k :: 0 <= k < |cs| ==> Reals(num, Tokens(cs[k])) == Some(hs[k])
  {
    HitsBetweenSucceeds(num, lines, s, e);
    if HitsBetween(num, lines, s, e).Success? {
      HitsBetweenRows(num, lines, s, e);
    }
  }

  /** A later assignment to the same event number overwrites an earlier one. */
  lemma LastWins(m: map<int, TrackEvent>, es: seq<Entry>)
    ensures forall n :: n in UpdateAll(m, es) <==> n in m || exists k :: 0 <= k < |es| && es[k].number == n
    ensures forall k :: 0 <= k < |es| && (forall l :: k < l < |es| ==> es[l].number != es[k].number) ==>
      UpdateAll(m, es)[es[k].number] == es[k].event
    ensures forall n :: n in m && (forall k :: 0 <= k < |es| ==> es[k].number != n) ==> UpdateAll(m, es)[n] == m[n]
  {
    forall n
      ensures n in UpdateAll(m, es) <==> n in m || exists k :: 0 <= k < |es| && es[k].number == n
    {
      UpdatedKeys(m, es, n);
    }
    forall k | 0 <= k < |es| && (forall l :: k < l < |es| ==> es[l].number != es[k].number)
      ensures UpdateAll(m, es)[es[k].number] == es[k].event
    {
      LastWrite(m, es, k);
    }
    forall n | n in m && (forall k :: 0 <= k < |es| ==> es[k].number != n)
      ensures UpdateAll(m, es)[n] == m[n]
    {
      Untouched(m, es, n);
    }
  }

  lemma {:induction false} UpdatedKeys(m: map<int, TrackEvent>, es: seq<Entry>, n: int)
    ensures n in UpdateAll(m, es) <==> n in m || exists k :: 0 <= k < |es| && es[k].number == n
    decreases |es|
  {
    if es != [] {
      var tail := es[1..];
      UpdatedKeys(m[es[0].number := es[0].event], tail, n);
      if exists k :: 0 <= k < |tail| && tail[k].number == n {
        var k :| 0 <= k < |tail| && tail[k].number == n;
        assert es[k + 1].number == n;
      }
      if exists k :: 0 <= k < |es| && es[k].number == n {
        var k :| 0 <= k < |es| && es[k].number == n;
        if k > 0 {
          assert tail[k - 1].number == n;
        }
      }
    }
  }

  lemma {:induction false} LastWrite(m: map<int, TrackEvent>, es: seq<Entry>, k: nat)
    requires k < |es|
    requires forall l :: k < l < |es| ==> es[l].number != es[k].number
    ensures es[k].number in UpdateAll(m, es) && UpdateAll(m, es)[es[k].number] == es[k].event
    decreases |es|
  {
    var tail := es[1..];
    if k > 0 {
      forall l | k - 1 < l < |tail|
        ensures tail[l].number != tail[k - 1].number
      {
        assert es[l + 1] == tail[l];
      }
      LastWrite(m[es[0].number := es[0].event], tail, k - 1);
    } else {
      forall l | 0 <= l < |tail|
        ensures tail[l].number != es[0].number
      {
        assert es[l + 1] == tail[l];
      }
      Untouched(m[es[0].number := es[0].event], tail, es[0].number);
    }
  }

  lemma {:induction false} Untouched(m: map<int, TrackEvent>, es: seq<Entry>, n: int)
    requires n in m
    requires forall k :: 0 <= k < |es| ==> es[k].number != n
    ensures n in UpdateAll(m, es) && UpdateAll(m, es)[n] == m[n]
    decreases |es|
  {
    if es != [] {
      var tail := es[1..];
      forall k | 0 <= k < |tail|
        ensures tail[k].number != n
      {
        assert es[k + 1] == tail[k];
      }
      Untouched(m[es[0].number := es[0].event], tail, n);
    }
  }

  /** Lines before the first marker (and between events, after the hits) are passed over. */
  lemma {:induction false} NonMarkersSkipped(num: NumberSyntax, lines: seq<string>, i: nat, k: nat)
    requires i <= k <= |lines|
    requires forall j :: i <= j < k ==> !IsMarker(lines[j])
    ensures EventsFrom(num, lines, i) == EventsFrom(num, lines, k)
    decreases k - i
  {
    if i < k {
      NonMarkersSkipped(num, lines, i + 1, k);
    }
  }

  lemma {:induction false} NextMarkerAppend(lines: seq<string>, m: string, i: nat)
    requires i <= |lines| && IsMarker(m)
    ensures NextMarker(lines + [m], i) == NextMarker(lines, i)
    decreases |lines| - i
  {
    if i < |lines| && !IsMarker(lines[i]) {
      NextMarkerAppend(lines, m, i + 1);
    }
  }

  lemma HitsBetweenAppend(num: NumberSyntax, lines: seq<string>, m: string, s: nat, e: nat)
    requires s <= e <= |lines|
    ensures HitsBetween(num, lines + [m], s, e) == HitsBetween(num, lines, s, e)
  {
    forall k | s <= k < e
      ensures (lines + [m])[k] == lines[k]
    {
    }
    HitsBetweenSameLines(num, lines + [m], lines, s, e);
  }

  /** The hits between two lines depend on those lines only. */
  lemma HitsBetweenSameLines(num: NumberSyntax, l1: seq<string>, l2: seq<string>, s: nat, e: nat)
    requires s <= e <= |l1| && e <= |l2|
    requires forall k :: s <= k < e ==> l1[k] == l2[k]
    ensures SameHits(num, l1, l2, s, e)
  {
    var k := s;
    while k < e
      invariant s <= k <= e
      invariant SameHits(num, l1, l2, s, k)
    {
      SameHitsStep(num, l1, l2, s, k);
      k := k + 1;
    }
  }

  predicate SameHits(num: NumberSyntax, l1: seq<string>, l2: seq<string>, s: nat, e: nat)
    requires s <= e <= |l1| && e <= |l2|
  {
    HitsBetween(num, l1, s, e) == HitsBetween(num, l2, s, e)
  }

  lemma SameHitsStep(num: NumberSyntax, l1: seq<string>, l2: seq<string>, s: nat, k: nat)
    requires s <= k < |l1| && k < |l2| && l1[k] == l2[k]
    requires SameHits(num, l1, l2, s, k)
    ensures SameHits(num, l1, l2, s, k + 1)
  {
  }

  lemma {:induction false} EventsFromAppendMarker(num: NumberSyntax, lines: seq<string>, m: string, i: nat)
    requires i <= |lines| && IsMarker(m) && EventNumber(num, m, |lines|).Success?
    requires |lines| == 0 || !IsMarker(lines[|lines| - 1])
    ensures EventsFrom(num, lines + [m], i) == EventsFrom(num, lines, i)
    decreases |lines| - i
  {
    var all := lines + [m];
    if i == |lines| {
      assert all[i] == m;
    } else {
      assert all[i] == lines[i];
      if !IsMarker(lines[i]) {
        EventsFromAppendMarker(num, lines, m, i + 1);
      } else {
        assert i + 1 < |lines|;
        assert all[i + 1] == lines[i + 1];
        NextMarkerAppend(lines, m, i + 2);
        var end := NextMarker(lines, i + 2);
        HitsBetweenAppend(num, lines, m, i + 2, end);
        EventsFromAppendMarker(num, lines, m, end);
      }
    }
  }

  /**
   * A marker on the last line is dropped: appending one (whose event number converts) after a
   * final line that is not itself a marker changes nothing.
   */
  lemma TrailingMarkerDropped(num: NumberSyntax, lines: seq<string>, m: string)
    requires IsMarker(m) && EventNumber(num, m, |lines|).Success?
    requires |lines| == 0 || !IsMarker(lines[|lines| - 1])
    ensures TrackData(num, lines + [m]) == TrackData(num, lines)
  {
    EventsFromAppendMarker(num, lines, m, 0);
  }

  /**
   * One event read from a marker on line `i`: its number is the marker's second field, its
   * parameters the next line, its hits the non-blank lines before the next marker.
   */
  lemma EventAt(num: NumberSyntax, lines: seq<string>, i: nat)
    requires i + 1 < |lines| && IsMarker(lines[i]) && EventsFrom(num, lines, i).Success?
    ensures var es := EventsFrom(num, lines, i).value;
      var end := NextMarker(lines, i + 2);
      && |es| >= 1
      && EventNumber(num, lines[i], i) == Success(es[0].number)
      && LineReals(num, lines[i + 1]) == Some(es[0].event.trackParams)
      && HitsBetween(num, lines, i + 2, end) == Success(es[0].event.hits)
      && EventsFrom(num, lines, end) == Success(es[1..])
  {
  }

  // The branches of `EventsFrom` at a marker on line `i`, one lemma each.

  lemma BadMarker(num: NumberSyntax, lines: seq<string>, i: nat)
    requires i < |lines| && IsMarker(lines[i]) && EventNumber(num, lines[i], i).Failure?
    ensures EventsFrom(num, lines, i) == Failure(EventNumber(num, lines[i], i).error)
  {
  }

  lemma MarkerOnLastLine(num: NumberSyntax, lines: seq<string>, i: nat)
    requires i + 1 == |lines| && IsMarker(lines[i]) && EventNumber(num, lines[i], i).Success?
    ensures EventsFrom(num, lines, i) == Success([])
  {
  }

  lemma BadTrackParams(num: NumberSyntax, lines: seq<string>, i: nat)
    requires i + 1 < |lines| && IsMarker(lines[i]) && EventNumber(num, lines[i], i).Success?
    requires LineReals(num, lines[i + 1]).None?
    ensures EventsFrom(num, lines, i) == Failure(NotAFloat(i + 1))
  {
  }

  lemma BadHits(num: NumberSyntax, lines: seq<string>, i: nat)
    requires i + 1 < |lines| && IsMarker(lines[i]) && EventNumber(num, lines[i], i).Success?
    requires LineReals(num, lines[i + 1]).Some?
    requires HitsBetween(num, lines, i + 2, NextMarker(lines, i + 2)).Failure?
    ensures EventsFrom(num, lines, i) == Failure(HitsBetween(num, lines, i + 2, NextMarker(lines, i + 2)).error)
  {
  }

  lemma EventRead(num: NumberSyntax, lines: seq<string>, i: nat, end: nat, n: int, params: seq<real>, hits: seq<seq<real>>,
                  events: map<int, TrackEvent>)
    requires i + 1 < |lines| && IsMarker(lines[i]) && EventNumber(num, lines[i], i) == Success(n)
    requires LineReals(num, lines[i + 1]) == Some(params)
    requires end == NextMarker(lines, i + 2) && HitsBetween(num, lines, i + 2, end) == Success(hits)
    ensures Finish(events, EventsFrom(num, lines, i)) == Finish(events[n := TrackEvent(params, hits)], EventsFrom(num, lines, end))
  {
  }

  /**
   * The inner loop of `read_track_data`: the rows of the non-blank lines from `start` up to the
   * next marker, stopping at the first that does not convert.
   */
  method ReadHits(num: NumberSyntax, lines: seq<string>, start: nat)
      returns (hits: Result<seq<seq<real>>, ReadError>, i: nat)
    requires start <= |lines|
    ensures hits == HitsBetween(num, lines, start, NextMarker(lines, start))
    ensures hits.Success? ==> i == NextMarker(lines, start)
  {
    i := start;
    var rows: seq<seq<real>> := [];
    while i < |lines| && !StartsWith(Strip(lines[i]), "Event")
      invariant RowsLoop(num, lines, start, i, rows)
      decreases |lines| - i
    {
      var hitLine := Strip(lines[i]);
      ghost var before := rows;
      if hitLine != [] {
        var hitData := Reals(num, Tokens(hitLine));
        if hitData.None? {
          RowsFail(num, lines, start, i, rows);
          return Failure(NotAFloat(i)), i;
        }
        rows := rows + [hitData.value];
      }
      RowsNext(num, lines, start, i, before, rows);
      i := i + 1;
    }
    return Success(rows), i;
  }

  /** What the hits loop knows after reaching line `i`: no marker yet, and the rows so far. */
  predicate RowsLoop(num: NumberSyntax, lines: seq<string>, start: nat, i: nat, rows: seq<seq<real>>) {
    && start <= i <= |lines|
    && i <= NextMarker(lines, start)
    && HitsBetween(num, lines, start, i) == Success(rows)
  }

  /** One turn of the hits loop over a line that is not a marker and converts (or is blank). */
  lemma RowsNext(num: NumberSyntax, lines: seq<string>, start: nat, i: nat, before: seq<seq<real>>, after: seq<seq<real>>)
    requires RowsLoop(num, lines, start, i, before) && i < |lines| && !IsMarker(lines[i])
    requires Strip(lines[i]) == [] ==> after == before
    requires Strip(lines[i]) != [] ==> LineReals(num, lines[i]).Some? && after == before + [LineReals(num, lines[i]).value]
    ensures RowsLoop(num, lines, start, i + 1, after)
  {
    HitsStep(num, lines, start, i);
  }

  /** A non-blank line before the next marker that does not convert is the error of the whole event. */
  lemma RowsFail(num: NumberSyntax, lines: seq<string>, start: nat, i: nat, rows: seq<seq<real>>)
    requires RowsLoop(num, lines, start, i, rows) && i < |lines| && !IsMarker(lines[i])
    requires Strip(lines[i]) != [] && LineReals(num, lines[i]).None?
    ensures HitsBetween(num, lines, start, NextMarker(lines, start)) == Failure(NotAFloat(i))
  {
    BeforeNextMarker(lines, start, i);
    HitsFailAt(num, lines, start, i);
    HitsBetweenFails(num, lines, start, i + 1, NextMarker(lines, start));
  }

  /** A line that is not a marker, reached before the next marker, lies before it. */
  lemma BeforeNextMarker(lines: seq<string>, start: nat, i: nat)
    requires start <= i < |lines| && i <= NextMarker(lines, start) && !IsMarker(lines[i])
    ensures i < NextMarker(lines, start)
  {
    var m := NextMarker(lines, start);
    assert m < |lines| ==> IsMarker(lines[m]);
  }

  /** A non-blank line that does not convert fails the hits with its index. */
  lemma HitsFailAt(num: NumberSyntax, lines: seq<string>, start: nat, i: nat)
    requires start <= i < |lines| && HitsBetween(num, lines, start, i).Success?
    requires Strip(lines[i]) != [] && LineReals(num, lines[i]).None?
    ensures HitsBetween(num, lines, start, i + 1) == Failure(NotAFloat(i))
  {
    HitsStep(num, lines, start, i);
  }

  /** `read_track_data`: the while loop over line indices, writing each event into the dictionary. */
  method ReadTrackData(num: NumberSyntax, lines: seq<string>) returns (r: Result<map<int, TrackEvent>, ReadError>)
    ensures r == TrackData(num, lines)
  {
    ghost var result := TrackData(num, lines);
    var events: map<int, TrackEvent> := map[];
    var i := 0;
    while i < |lines|
      invariant 0 <= i <= |lines|
      invariant Finish(events, EventsFrom(num, lines, i)) == result
      decreases |lines| - i
    {
      var line := Strip(lines[i]);
      if StartsWith(line, "Event") {
        var start := i;
        var tokens := Tokens(line);
        if |tokens| < 2 {
          BadMarker(num, lines, i);
          return Failure(MissingEventNumber(i));
        }
        var number := num.toInt(tokens[1]);
        if number.None? {
          BadMarker(num, lines, i);
          return Failure(NotAnInteger(i));
        }
        i := i + 1;
        if i >= |lines| {
          MarkerOnLastLine(num, lines, start);
          break;
        }
        var trackParams := LineReals(num, lines[i]);
        if trackParams.None? {
          BadTrackParams(num, lines, start);
          return Failure(NotAFloat(i));
        }
        i := i + 1;
        var hits;
        hits, i := ReadHits(num, lines, i);
        if hits.Failure? {
          BadHits(num, lines, start);
          return Failure(hits.error);
        }
        EventRead(num, lines, start, i, number.value, trackParams.value, hits.value, events);
        events := events[number.value := TrackEvent(trackParams.value, hits.value)];
      } else {
        i := i + 1;
      }
    }
    return Success(events);
  }

  /**
   * `prepare_hits_data`: one plotted hit per row, in order; z is plane × 5 cm plus the drift
   * distance in cm on even planes, minus it on odd planes.
   */
  method PrepareHitsData(lib: MathLib, hits: seq<seq<real>>) returns (r: Result<seq<ScriptGeometry.PlotHit>, ScriptGeometry.HitError>)
    requires lib.Valid()
    ensures r == ScriptGeometry.HitPoints(lib, hits, |hits|, PlaneSpacing, true)
    ensures r.Success? ==> |r.value| == |hits|
    ensures r.Success? ==> forall k :: 0 <= k < |hits| ==>
      && |hits[k]| >= 6
      && var plane := ScriptGeometry.Trunc(hits[k][4]);
      && r.value[k].plane == plane
      && r.value[k].z == plane as real * 5.0 + (if plane % 2 == 0 then hits[k][5] else -hits[k][5]) * 100.0
  {
    r := ScriptGeometry.PrepareHitsData(lib, hits, PlaneSpacing, true);
    ScriptGeometry.HitPointsExactly(lib, hits, |hits|, PlaneSpacing, true);
  }

  /**
   * `prepare_background_geometry`: 21 · 122 · 10 points, the centre of every pad repeated for
   * planes 0..9 at z = plane × 5 cm, ring by ring and pad by pad.
   */
  method PrepareBackgroundGeometry(lib: MathLib) returns (xs: seq<real>, ys: seq<real>, zs: seq<real>)
    requires lib.Valid()
    ensures ScriptGeometry.PadCloud(lib, PlaneSpacing, xs, ys, zs)
  {
    xs, ys, zs := ScriptGeometry.PrepareBackgroundGeometry(lib, PlaneSpacing);
    ScriptGeometry.BackgroundIsPadCloud(lib, PlaneSpacing, xs, ys, zs);
  }
}

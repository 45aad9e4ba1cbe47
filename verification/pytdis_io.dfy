/**
 * The Python reader of the text event format (pytdis `io.py`): an event is the non-blank lines
 * after an "Event" marker line; its first line holds exactly four track parameters and every
 * further line exactly nine hit columns (time, adc, true x, y, z, ring, pad, plane, z to GEM).
 * The generator yields the parsable events as numbered tracks, skipping a number of events
 * from the start; the NumPy and pandas readers pad or flatten what it yields.
 *
 * `float()` and `int()` are the partial conversions of a `NumberSyntax`; a failed conversion
 * raises the same ValueError as a wrong column count. A NumPy NaN cell is `None`.
 */
module PytdisIo {
  import opened Wrappers
  import opened Text

  datatype TrackInfo = TrackInfo(momentum: real, theta: real, phi: real, zVertex: real)

  datatype HitRow = HitRow(
    time: real, adc: real, trueX: real, trueY: real, trueZ: real,
    ring: int, pad: int, plane: int, zToGem: real)

  datatype ParsedEvent = ParsedEvent(info: TrackInfo, hits: seq<HitRow>)

  /** The ValueErrors of `parse_event_data`, carrying what their messages report. */
  datatype ParseError =
    | NoData(eventNum: int)
    | TrackParameterCount(eventNum: int, got: nat)
    | HitParameterCount(eventNum: int, hitIndex: nat, got: nat)
    | NotANumber(token: string)

  function Real(num: NumberSyntax, token: string): (r: Result<real, ParseError>)
    ensures r.Success? <==> num.toReal(token).Some?
  {
    match num.toReal(token)
    case Some(v) => Success(v)
    case None => Failure(NotANumber(token))
  }

  function Int(num: NumberSyntax, token: string): (r: Result<int, ParseError>)
    ensures r.Success? <==> num.toInt(token).Some?
  {
    match num.toInt(token)
    case Some(v) => Success(v)
    case None => Failure(NotANumber(token))
  }

  /** The track line: exactly four tokens, each converted with `float()` left to right. */
  function ParseTrackLine(num: NumberSyntax, line: string, eventNum: int): (r: Result<TrackInfo, ParseError>)
    ensures |Tokens(line)| != 4 ==> r == Failure(TrackParameterCount(eventNum, |Tokens(line)|))
    ensures r.Success? ==>
      var t := Tokens(line);
      && |t| == 4
      && num.toReal(t[0]) == Some(r.value.momentum) && num.toReal(t[1]) == Some(r.value.theta)
      && num.toReal(t[2]) == Some(r.value.phi) && num.toReal(t[3]) == Some(r.value.zVertex)
  {
    var t := Tokens(line);
    if |t| != 4 then Failure(TrackParameterCount(eventNum, |t|))
    else
      var a := Real(num, t[0]);
      if a.Failure? then Failure(a.error) else
      var b := Real(num, t[1]);
      if b.Failure? then Failure(b.error) else
      var c := Real(num, t[2]);
      if c.Failure? then Failure(c.error) else
      var d := Real(num, t[3]);
      if d.Failure? then Failure(d.error) else
      Success(TrackInfo(a.value, b.value, c.value, d.value))
  }

  /**
   * Hit line `i` of the event: exactly nine tokens, else an error naming the hit index; the
   * columns 5..7 (ring, pad, plane) go through `int()`, the others through `float()`.
   */
  function ParseHitLine(num: NumberSyntax, line: string, eventNum: int, i: nat): (r: Result<HitRow, ParseError>)
    ensures |Tokens(line)| != 9 ==> r == Failure(HitParameterCount(eventNum, i, |Tokens(line)|))
    ensures r.Success? ==>
      var t := Tokens(line);
      && |t| == 9
      && num.toReal(t[0]) == Some(r.value.time) && num.toReal(t[1]) == Some(r.value.adc)
      && num.toReal(t[2]) == Some(r.value.trueX) && num.toReal(t[3]) == Some(r.value.trueY)
      && num.toReal(t[4]) == Some(r.value.trueZ)
      && num.toInt(t[5]) == Some(r.value.ring) && num.toInt(t[6]) == Some(r.value.pad)
      && num.toInt(t[7]) == Some(r.value.plane) && num.toReal(t[8]) == Some(r.value.zToGem)
  {
    var t := Tokens(line);
    if |t| != 9 then Failure(HitParameterCount(eventNum, i, |t|))
    else
      var time := Real(num, t[0]);
      if time.Failure? then Failure(time.error) else
      var adc := Real(num, t[1]);
      if adc.Failure? then Failure(adc.error) else
      var x := Real(num, t[2]);
      if x.Failure? then Failure(x.error) else
      var y := Real(num, t[3]);
      if y.Failure? then Failure(y.error) else
      var z := Real(num, t[4]);
      if z.Failure? then Failure(z.error) else
      var ring := Int(num, t[5]);
      if ring.Failure? then Failure(ring.error) else
      var pad := Int(num, t[6]);
      if pad.Failure? then Failure(pad.error) else
      var plane := Int(num, t[7]);
      if plane.Failure? then Failure(plane.error) else
      var zToGem := Real(num, t[8]);
      if zToGem.Failure? then Failure(zToGem.error) else
      Success(HitRow(time.value, adc.value, x.value, y.value, z.value,
                     ring.value, pad.value, plane.value, zToGem.value))
  }

  /** The hits of lines `1..n` of the event, or the first error among them. */
  function HitsUpTo(num: NumberSyntax, lines: seq<string>, n: nat, eventNum: int): Result<seq<HitRow>, ParseError>
    requires n <= |lines|
    decreases n
  {
    if n <= 1 then Success([])
    else
      var before := HitsUpTo(num, lines, n - 1, eventNum);
      if before.Failure? then before
      else match ParseHitLine(num, lines[n - 1], eventNum, n - 1)
        case Success(h) => Success(before.value + [h])
        case Failure(e) => Failure(e)
  }

  /** `parse_event_data`: no lines, a bad track line or the first bad hit line is an error. */
  function EventData(num: NumberSyntax, lines: seq<string>, eventNum: int): Result<ParsedEvent, ParseError> {
    if lines == [] then Failure(NoData(eventNum))
    else
      var track := ParseTrackLine(num, lines[0], eventNum);
      if track.Failure? then Failure(track.error)
      else
        var hits := HitsUpTo(num, lines, |lines|, eventNum);
        if hits.Failure? then Failure(hits.error)
        else Success(ParsedEvent(track.value, hits.value))
  }

  lemma {:induction false} HitsUpToFails(num: NumberSyntax, lines: seq<string>, n: nat, m: nat, eventNum: int)
    requires n <= m <= |lines| && HitsUpTo(num, lines, n, eventNum).Failure?
    ensures HitsUpTo(num, lines, m, eventNum) == HitsUpTo(num, lines, n, eventNum)
    decreases m - n
  {
    if n < m {
      HitsUpToFails(num, lines, n, m - 1, eventNum);
    }
  }

  /** Lines `1..n` parse exactly when each of them does, giving one hit per line in order. */
  lemma {:induction false} HitsUpToExactly(num: NumberSyntax, lines: seq<string>, n: nat, eventNum: int)
    requires n <= |lines|
    ensures HitsUpTo(num, lines, n, eventNum).Success? <==>
      forall k :: 1 <= k < n ==> ParseHitLine(num, lines[k], eventNum, k).Success?
    ensures HitsUpTo(num, lines, n, eventNum).Success? ==>
      var hits := HitsUpTo(num, lines, n, eventNum).value;
      && |hits| == (if n == 0 then 0 else n - 1)
      && forall k :: 1 <= k < n ==> hits[k - 1] == ParseHitLine(num, lines[k], eventNum, k).value
    decreases n
  {
    if n > 1 {
      HitsUpToExactly(num, lines, n - 1, eventNum);
    }
  }

  /**
   * `parse_event_data` succeeds exactly when there is a track line with four numbers and every
   * further line is a nine-column hit; it then returns one hit per line, in line order.
   */
  lemma EventDataExactly(num: NumberSyntax, lines: seq<string>, eventNum: int)
    ensures EventData(num, lines, eventNum).Success? <==>
      && lines != []
      && ParseTrackLine(num, lines[0], eventNum).Success?
      && forall k :: 1 <= k < |lines| ==> ParseHitLine(num, lines[k], eventNum, k).Success?
    ensures EventData(num, lines, eventNum).Success? ==>
      var ev := EventData(num, lines, eventNum).value;
      && ev.info == ParseTrackLine(num, lines[0], eventNum).value
      && |ev.hits| == |lines| - 1
      && forall k :: 1 <= k < |lines| ==> ev.hits[k - 1] == ParseHitLine(num, lines[k], eventNum, k).value
  {
    HitsUpToExactly(num, lines, |lines|, eventNum);
  }

  /**
   * With a good track line, the first hit line without nine columns makes the error that names
   * its hit index and column count.
   */
  lemma {:induction false} FirstBadHitNamed(num: NumberSyntax, lines: seq<string>, eventNum: int, k: nat)
    requires 1 <= k < |lines|
    requires ParseTrackLine(num, lines[0], eventNum).Success?
    requires forall j :: 1 <= j < k ==> ParseHitLine(num, lines[j], eventNum, j).Success?
    requires |Tokens(lines[k])| != 9
    ensures EventData(num, lines, eventNum) == Failure(HitParameterCount(eventNum, k, |Tokens(lines[k])|))
  {
    HitsUpToExactly(num, lines, k, eventNum);
    assert HitsUpTo(num, lines, k + 1, eventNum) == Failure(HitParameterCount(eventNum, k, |Tokens(lines[k])|));
    HitsUpToFails(num, lines, k + 1, |lines|, eventNum);
  }

  /** The event number only appears in errors: success and the parsed values do not depend on it. */
  lemma {:induction false} EventNumOnlyInErrors(num: NumberSyntax, lines: seq<string>, a: int, b: int)
    ensures EventData(num, lines, a).Success? == EventData(num, lines, b).Success?
    ensures EventData(num, lines, a).Success? ==> EventData(num, lines, a).value == EventData(num, lines, b).value
  {
    EventDataExactly(num, lines, a);
    EventDataExactly(num, lines, b);
    if lines != [] {
      assert ParseTrackLine(num, lines[0], a).Success? == ParseTrackLine(num, lines[0], b).Success?;
      forall k | 1 <= k < |lines|
        ensures ParseHitLine(num, lines[k], a, k).Success? == ParseHitLine(num, lines[k], b, k).Success?
        ensures ParseHitLine(num, lines[k], a, k).Success? ==>
          ParseHitLine(num, lines[k], a, k).value == ParseHitLine(num, lines[k], b, k).value
      {
      }
      if EventData(num, lines, a).Success? {
        var ea := EventData(num, lines, a).value;
        var eb := EventData(num, lines, b).value;
        forall j | 0 <= j < |ea.hits|
          ensures ea.hits[j] == eb.hits[j]
        {
          assert ea.hits[j] == ParseHitLine(num, lines[j + 1], a, j + 1).value;
        }
      }
    }
  }

  /**
   * `parse_event_data` as a loop: the track line first, then each hit line in turn, stopping
   * at the first error.
   */
  method ParseEventData(num: NumberSyntax, lines: seq<string>, eventNum: int) returns (r: Result<ParsedEvent, ParseError>)
    ensures r == EventData(num, lines, eventNum)
  {
    if |lines| == 0 {
      return Failure(NoData(eventNum));
    }
    var track := ParseTrackLine(num, lines[0], eventNum);
    if track.Failure? {
      return Failure(track.error);
    }
    var hits: seq<HitRow> := [];
    var i := 1;
    while i < |lines|
      invariant 1 <= i <= |lines|
      invariant HitsUpTo(num, lines, i, eventNum) == Success(hits)
    {
      var hit := ParseHitLine(num, lines[i], eventNum, i);
      if hit.Failure? {
        HitsUpToFails(num, lines, i + 1, |lines|, eventNum);
        return Failure(hit.error);
      }
      hits := hits + [hit.value];
      i := i + 1;
    }
    return Success(ParsedEvent(track.value, hits));
  }

  // ---------------------------------------------------------------------------------------
  // Grouping lines into events

  /** A line whose stripped text starts with "Event". */
  predicate IsEventMarker(line: string) {
    StartsWith(Strip(line), "Event")
  }

  /**
   * The events of a file, one per marker line: each is the non-blank, non-marker lines that
   * follow its marker up to the next one. Lines before the first marker belong to no event.
   */
  function Groups(lines: seq<string>): seq<seq<string>>
    decreases |lines|
  {
    if lines == [] then []
    else
      var g := Groups(lines[..|lines| - 1]);
      var line := lines[|lines| - 1];
      if IsEventMarker(line) then g + [[]]
      else if g != [] && Strip(line) != "" then g[..|g| - 1] + [g[|g| - 1] + [line]]
      else g
  }

  /** Each event's lines are non-blank and are not markers. */
  lemma {:induction false} GroupLinesAreContent(lines: seq<string>)
    ensures forall j, k :: 0 <= j < |Groups(lines)| && 0 <= k < |Groups(lines)[j]| ==>
      !IsEventMarker(Groups(lines)[j][k]) && Strip(Groups(lines)[j][k]) != ""
    decreases |lines|
  {
    if lines != [] {
      GroupLinesAreContent(lines[..|lines| - 1]);
    }
  }

  /** Lines before the first marker are ignored. */
  lemma {:induction false} PreambleIgnored(preamble: seq<string>, rest: seq<string>)
    requires forall k :: 0 <= k < |preamble| ==> !IsEventMarker(preamble[k])
    ensures Groups(preamble + rest) == Groups(rest)
    decreases |rest|
  {
    if rest == [] {
      assert preamble + rest == preamble;
      NoMarkerNoGroups(preamble);
    } else {
      var init := rest[..|rest| - 1];
      assert (preamble + rest)[..|preamble + rest| - 1] == preamble + init;
      PreambleIgnored(preamble, init);
    }
  }

  lemma {:induction false} NoMarkerNoGroups(lines: seq<string>)
    requires forall k :: 0 <= k < |lines| ==> !IsEventMarker(lines[k])
    ensures Groups(lines) == []
    decreases |lines|
  {
    if lines != [] {
      NoMarkerNoGroups(lines[..|lines| - 1]);
    }
  }

  // ---------------------------------------------------------------------------------------
  // The event generator

  /** One value the generator yields: the track id, the track parameters and the hits. */
  datatype Yield = Yield(trackId: nat, info: TrackInfo, hits: seq<HitRow>)

  /**
   * Whether the event at 0-based position `index` passes the skip test. As written the test
   * compares the count of markers seen so far, `index + 1`, with `skip`; the intended test
   * compares `index` itself.
   */
  predicate PassesSkip(index: nat, skip: int, asWritten: bool) {
    if asWritten then index + 1 >= skip else index >= skip
  }

  /**
   * What the generator yields for the events `groups`: every non-empty event that passes the
   * skip test and parses, numbered 0, 1, 2, ... in order; the event number used in error
   * messages is the marker count `index + 1`.
   */
  function YieldsOf(num: NumberSyntax, groups: seq<seq<string>>, skip: int, asWritten: bool): (ys: seq<Yield>)
    ensures forall k :: 0 <= k < |ys| ==> ys[k].trackId == k
    ensures |ys| <= |groups|
    decreases |groups|
  {
    if groups == [] then []
    else
      var before := YieldsOf(num, groups[..|groups| - 1], skip, asWritten);
      var index := |groups| - 1;
      var g := groups[index];
      if g != [] && PassesSkip(index, skip, asWritten) then
        match EventData(num, g, index + 1)
        case Success(ev) => before + [Yield(|before|, ev.info, ev.hits)]
        case Failure(_) => before
      else before
  }

  /** The events of a file as the generator yields them with the intended skip test. */
  function ReadEventsSpec(num: NumberSyntax, lines: seq<string>, skip: int): seq<Yield> {
    YieldsOf(num, Groups(lines), skip, false)
  }

  lemma ReadEventsSpecTrackIds(num: NumberSyntax, lines: seq<string>, skip: int)
    ensures forall k :: 0 <= k < |ReadEventsSpec(num, lines, skip)| ==> ReadEventsSpec(num, lines, skip)[k].trackId == k
  {
  }

  /** One line of the generator's loop, on the lines read so far. */
  lemma GroupsStep(lines: seq<string>, i: nat)
    requires i < |lines|
    ensures Groups(lines[..i + 1]) ==
      var g := Groups(lines[..i]);
      var line := lines[i];
      if IsEventMarker(line) then g + [[]]
      else if g != [] && Strip(line) != "" then g[..|g| - 1] + [g[|g| - 1] + [line]]
      else g
  {
    assert lines[..i + 1][..i] == lines[..i];
  }

  /** What the generator has yielded once it has seen the events `g`: all but the open last one. */
  function Closed(num: NumberSyntax, g: seq<seq<string>>, skip: int): seq<Yield> {
    if g == [] then [] else YieldsOf(num, g[..|g| - 1], skip, false)
  }

  /** Closing the open event `current` (the `eventCount`-th): yield it if it is non-empty, passes the skip test and parses. */
  function CloseCurrent(num: NumberSyntax, current: seq<string>, eventCount: nat, skip: int, emitted: seq<Yield>): seq<Yield> {
    if current != [] && eventCount - 1 >= skip then
      match EventData(num, current, eventCount)
      case Success(ev) => emitted + [Yield(|emitted|, ev.info, ev.hits)]
      case Failure(_) => emitted
    else emitted
  }

  /** The generator state after the first `i` lines, in terms of the events read so far. */
  ghost predicate IteratorState(num: NumberSyntax, lines: seq<string>, i: nat, skip: int,
                                eventCount: nat, inEvent: bool, current: seq<string>, emitted: seq<Yield>)
    requires i <= |lines|
  {
    var g := Groups(lines[..i]);
    && eventCount == |g|
    && inEvent == (g != [])
    && current == (if g == [] then [] else g[|g| - 1])
    && emitted == Closed(num, g, skip)
  }

  /** The events so far yield what is closed plus the open event once it is closed. */
  lemma CloseLast(num: NumberSyntax, g: seq<seq<string>>, skip: int)
    requires g != []
    ensures YieldsOf(num, g, skip, false) == CloseCurrent(num, g[|g| - 1], |g|, skip, Closed(num, g, skip))
  {
  }

  lemma MarkerStep(num: NumberSyntax, lines: seq<string>, i: nat, skip: int,
                   eventCount: nat, inEvent: bool, current: seq<string>, emitted: seq<Yield>)
    requires i < |lines| && IsEventMarker(lines[i])
    requires IteratorState(num, lines, i, skip, eventCount, inEvent, current, emitted)
    ensures IteratorState(num, lines, i + 1, skip, eventCount + 1, true, [],
                          CloseCurrent(num, current, eventCount, skip, emitted))
  {
    GroupsStep(lines, i);
    var g := Groups(lines[..i]);
    assert (g + [[]])[..|g|] == g;
    if g != [] {
      CloseLast(num, g, skip);
    }
  }

  lemma ContentStep(num: NumberSyntax, lines: seq<string>, i: nat, skip: int,
                    eventCount: nat, inEvent: bool, current: seq<string>, emitted: seq<Yield>)
    requires i < |lines| && !IsEventMarker(lines[i]) && inEvent && Strip(lines[i]) != ""
    requires IteratorState(num, lines, i, skip, eventCount, inEvent, current, emitted)
    ensures IteratorState(num, lines, i + 1, skip, eventCount, inEvent, current + [lines[i]], emitted)
  {
    GroupsStep(lines, i);
    var g := Groups(lines[..i]);
    assert (g[..|g| - 1] + [g[|g| - 1] + [lines[i]]])[..|g| - 1] == g[..|g| - 1];
  }

  lemma OtherStep(num: NumberSyntax, lines: seq<string>, i: nat, skip: int,
                  eventCount: nat, inEvent: bool, current: seq<string>, emitted: seq<Yield>)
    requires i < |lines| && !IsEventMarker(lines[i]) && !(inEvent && Strip(lines[i]) != "")
    requires IteratorState(num, lines, i, skip, eventCount, inEvent, current, emitted)
    ensures IteratorState(num, lines, i + 1, skip, eventCount, inEvent, current, emitted)
  {
    GroupsStep(lines, i);
  }

  /**
   * `_read_events_iterator`, with the intended skip test: every yielded event has index at
   * least `skip`. The file is the list of its lines.
   */
  method ReadEvents(num: NumberSyntax, lines: seq<string>, skip: int) returns (emitted: seq<Yield>)
    ensures emitted == ReadEventsSpec(num, lines, skip)
  {
    var eventCount: nat := 0;
    var trackId: nat := 0;
    var current: seq<string> := [];
    var inEvent := false;
    emitted := [];
    var i := 0;
    assert lines[..0] == [];
    while i < |lines|
      invariant 0 <= i <= |lines|
      invariant IteratorState(num, lines, i, skip, eventCount, inEvent, current, emitted)
      invariant trackId == |emitted|
    {
      var line := lines[i];
      if StartsWith(Strip(line), "Event") {
        ghost var before := emitted;
        if inEvent && current != [] {
          if eventCount - 1 >= skip {
            var parsed := ParseEventData(num, current, eventCount);
            if parsed.Success? {
              emitted := emitted + [Yield(trackId, parsed.value.info, parsed.value.hits)];
              trackId := trackId + 1;
            }
          }
        }
        assert emitted == CloseCurrent(num, current, eventCount, skip, before);
        MarkerStep(num, lines, i, skip, eventCount, inEvent, current, before);
        eventCount := eventCount + 1;
        current := [];
        inEvent := true;
      } else if inEvent && Strip(line) != "" {
        ContentStep(num, lines, i, skip, eventCount, inEvent, current, emitted);
        current := current + [line];
      } else {
        OtherStep(num, lines, i, skip, eventCount, inEvent, current, emitted);
      }
      i := i + 1;
    }
    assert lines[..i] == lines;
    ghost var before := emitted;
    if inEvent && current != [] && eventCount - 1 >= skip {
      var parsed := ParseEventData(num, current, eventCount);
      if parsed.Success? {
        emitted := emitted + [Yield(trackId, parsed.value.info, parsed.value.hits)];
      }
    }
    assert emitted == CloseCurrent(num, current, eventCount, skip, before);
    if inEvent {
      CloseLast(num, Groups(lines), skip);
    }
  }

  /**
   * As written, asking to skip `skip >= 1` events skips only `skip - 1`: the written test is
   * the intended test with one event fewer.
   */
  lemma {:induction false} SkipAsWrittenSkipsOneFewer(num: NumberSyntax, groups: seq<seq<string>>, skip: int)
    requires skip >= 1
    ensures YieldsOf(num, groups, skip, true) == YieldsOf(num, groups, skip - 1, false)
    decreases |groups|
  {
    if groups != [] {
      SkipAsWrittenSkipsOneFewer(num, groups[..|groups| - 1], skip);
    }
  }

  /**
   * `_read_events_iterator` as written: its skip test compares the number of markers seen so
   * far with `skip`, so it behaves as the intended generator asked to skip one event fewer.
   */
  function ReadEventsAsWritten(num: NumberSyntax, lines: seq<string>, skip: int): (ys: seq<Yield>)
    ensures skip >= 1 ==> ys == ReadEventsSpec(num, lines, skip - 1)
  {
    if skip >= 1 then
      SkipAsWrittenSkipsOneFewer(num, Groups(lines), skip);
      YieldsOf(num, Groups(lines), skip, true)
    else YieldsOf(num, Groups(lines), skip, true)
  }

  /**
   * Counterexample to the documented behaviour: with `skip_events = 1` and a first event that
   * parses, the code as written still yields that first event, as track 0.
   */
  lemma SkipOneYieldsFirstEventAsWritten(num: NumberSyntax, lines: seq<string>)
    requires Groups(lines) != [] && EventData(num, Groups(lines)[0], 1).Success?
    ensures |ReadEventsAsWritten(num, lines, 1)| >= 1
    ensures var ev := EventData(num, Groups(lines)[0], 1).value;
      ReadEventsAsWritten(num, lines, 1)[0] == Yield(0, ev.info, ev.hits)
  {
    FirstYieldIsFirstEvent(num, Groups(lines), 0);
  }

  /** Without skipping, a first event that parses is yielded first. */
  lemma {:induction false} FirstYieldIsFirstEvent(num: NumberSyntax, groups: seq<seq<string>>, skip: int)
    requires skip <= 0 && groups != [] && EventData(num, groups[0], 1).Success?
    ensures |YieldsOf(num, groups, skip, false)| >= 1
    ensures YieldsOf(num, groups, skip, false)[0] == Yield(0, EventData(num, groups[0], 1).value.info, EventData(num, groups[0], 1).value.hits)
    decreases |groups|
  {
    if |groups| > 1 {
      assert groups[..|groups| - 1][0] == groups[0];
      FirstYieldIsFirstEvent(num, groups[..|groups| - 1], skip);
    } else {
      assert groups[..0] == [];
    }
  }

  /** No event before position `skip` is yielded: the events skipped yield nothing. */
  lemma {:induction false} SkippedEventsYieldNothing(num: NumberSyntax, groups: seq<seq<string>>, skip: int)
    requires |groups| <= skip
    ensures YieldsOf(num, groups, skip, false) == []
    decreases |groups|
  {
    if groups != [] {
      SkippedEventsYieldNothing(num, groups[..|groups| - 1], skip);
    }
  }

  /**
   * With the intended test, skipping `skip` events yields what reading from event `skip` on
   * yields: the first `skip` events are dropped and the rest renumbered from 0.
   */
  lemma {:induction false} SkipDropsFirstEvents(num: NumberSyntax, groups: seq<seq<string>>, skip: nat)
    requires skip <= |groups|
    ensures YieldsOf(num, groups, skip, false) == YieldsOf(num, groups[skip..], 0, false)
    decreases |groups|
  {
    if |groups| == skip {
      SkippedEventsYieldNothing(num, groups, skip);
      assert groups[skip..] == [];
    } else {
      var init := groups[..|groups| - 1];
      SkipDropsFirstEvents(num, init, skip);
      var rest := groups[skip..];
      assert rest[..|rest| - 1] == init[skip..];
      assert rest[|rest| - 1] == groups[|groups| - 1];
      EventNumOnlyInErrors(num, groups[|groups| - 1], |groups|, |rest|);
    }
  }

  // ---------------------------------------------------------------------------------------
  // read_tdis_data_numpy and read_tdis_data_pandas

  /** How many yielded events the readers keep: all, or at most `nEvents` (none if it is not positive). */
  function Limit(available: nat, nEvents: Option<int>): (n: nat)
    ensures n <= available
    ensures nEvents.None? ==> n == available
    ensures nEvents.Some? ==> n == if nEvents.value <= 0 then 0 else if nEvents.value < available then nEvents.value else available
  {
    if nEvents.None? then available
    else if nEvents.value <= 0 then 0
    else if nEvents.value < available then nEvents.value
    else available
  }

  /** The longest hit list of the kept events. */
  function MaxHits(ys: seq<Yield>): (m: nat)
    ensures forall k :: 0 <= k < |ys| ==> |ys[k].hits| <= m
    ensures ys == [] ==> m == 0
    ensures ys != [] ==> exists k :: 0 <= k < |ys| && |ys[k].hits| == m
  {
    if ys == [] then 0
    else
      var rest := MaxHits(ys[1..]);
      assert forall k :: 1 <= k < |ys| ==> ys[k] == ys[1..][k - 1];
      if |ys[0].hits| >= rest then |ys[0].hits| else rest
  }

  /**
   * The NumPy arrays: one track row per kept event, and a (tracks, maxHits, 9) hit block whose
   * unused cells are NaN; with no event the shapes are (0, 4) and (0, 0, 9).
   */
  datatype NumpyData = NumpyData(tracks: seq<TrackInfo>, hits: seq<seq<Option<HitRow>>>, maxHits: nat)

  /** A NaN-padded row: the hits, then empty cells up to `width`. */
  function PaddedRow(hits: seq<HitRow>, width: nat): (row: seq<Option<HitRow>>)
    requires |hits| <= width
    ensures |row| == width
    ensures forall j :: 0 <= j < |hits| ==> row[j] == Some(hits[j])
    ensures forall j :: |hits| <= j < width ==> row[j] == None
  {
    seq(width, j requires 0 <= j < width => if j < |hits| then Some(hits[j]) else None)
  }

  /** `read_tdis_data_numpy`. */
  method ReadNumpy(num: NumberSyntax, lines: seq<string>, nEvents: Option<int>, skip: int) returns (data: NumpyData)
    ensures var ys := ReadEventsSpec(num, lines, skip);
      var n := Limit(|ys|, nEvents);
      && |data.tracks| == n && |data.hits| == n
      && (forall i :: 0 <= i < n ==> data.tracks[i] == ys[i].info)
      && data.maxHits == MaxHits(ys[..n])
      && (forall i :: 0 <= i < n ==> data.hits[i] == PaddedRow(ys[i].hits, data.maxHits))
  {
    var events := ReadEvents(num, lines, skip);
    var tracksList: seq<TrackInfo> := [];
    var hitsList: seq<seq<HitRow>> := [];
    var eventsRead := 0;
    var k := 0;
    while k < |events|
      invariant 0 <= k <= |events| && eventsRead == k
      invariant k <= Limit(|events|, nEvents)
      invariant |tracksList| == k && |hitsList| == k
      invariant forall i :: 0 <= i < k ==> tracksList[i] == events[i].info && hitsList[i] == events[i].hits
    {
      if nEvents.Some? && eventsRead >= nEvents.value {
        break;
      }
      tracksList := tracksList + [events[k].info];
      hitsList := hitsList + [events[k].hits];
      eventsRead := eventsRead + 1;
      k := k + 1;
    }
    assert k == Limit(|events|, nEvents);
    var kept := events[..k];
    var maxHits := 0;
    var hitsArray: seq<seq<Option<HitRow>>> := [];
    if |hitsList| > 0 {
      maxHits := MaxHits(kept);
      hitsArray := PadHitLists(hitsList, maxHits);
    } else {
      assert kept == [];
    }
    data := NumpyData(tracksList, hitsArray, maxHits);
  }

  /** The padding loop of `read_tdis_data_numpy`: each hit list written over a row of NaNs. */
  method PadHitLists(hitsList: seq<seq<HitRow>>, maxHits: nat) returns (hitsArray: seq<seq<Option<HitRow>>>)
    requires forall j :: 0 <= j < |hitsList| ==> |hitsList[j]| <= maxHits
    ensures |hitsArray| == |hitsList|
    ensures forall j :: 0 <= j < |hitsList| ==> hitsArray[j] == PaddedRow(hitsList[j], maxHits)
  {
    var k := |hitsList|;
    hitsArray := seq(k, _ => seq(maxHits, _ => None));
    var i := 0;
    while i < k
      invariant 0 <= i <= k && |hitsArray| == k
      invariant forall j :: 0 <= j < i ==> hitsArray[j] == PaddedRow(hitsList[j], maxHits)
      invariant forall j :: i <= j < k ==> hitsArray[j] == seq(maxHits, _ => None)
    {
      var row := hitsArray[i];
      if |hitsList[i]| > 0 {
        row := PaddedRow(hitsList[i], |hitsList[i]|) + row[|hitsList[i]|..];
      }
      PadOverNone(hitsList[i], maxHits, row);
      hitsArray := hitsArray[i := row];
      i := i + 1;
    }
  }

  /** Writing a hit list over the front of a row of NaNs gives the padded row. */
  lemma PadOverNone(hits: seq<HitRow>, width: nat, row: seq<Option<HitRow>>)
    requires |hits| <= width
    requires |hits| > 0 ==> row == PaddedRow(hits, |hits|) + seq(width, _ => None)[|hits|..]
    requires |hits| == 0 ==> row == seq(width, _ => None)
    ensures row == PaddedRow(hits, width)
  {
    assert |row| == width;
    forall j | 0 <= j < width
      ensures row[j] == PaddedRow(hits, width)[j]
    {
      if j < |hits| {
        assert row[j] == PaddedRow(hits, |hits|)[j];
      }
    }
  }

  /** One row of the pandas frame: the index (track id, hit id), the track columns and the hit columns. */
  datatype Record = Record(trackId: nat, hitId: nat, info: TrackInfo, hit: HitRow)

  /** The records of one track: one per hit, the hit id being the hit's index in the track. */
  function TrackRecords(y: Yield): (rs: seq<Record>)
    ensures |rs| == |y.hits|
    ensures forall h :: 0 <= h < |rs| ==> rs[h] == Record(y.trackId, h, y.info, y.hits[h])
  {
    seq(|y.hits|, h requires 0 <= h < |y.hits| => Record(y.trackId, h, y.info, y.hits[h]))
  }

  /** The records of the tracks `ys`, track after track. */
  function RecordsOf(ys: seq<Yield>): seq<Record>
    decreases |ys|
  {
    if ys == [] then [] else RecordsOf(ys[..|ys| - 1]) + TrackRecords(ys[|ys| - 1])
  }

  function TotalHits(ys: seq<Yield>): nat
    decreases |ys|
  {
    if ys == [] then 0 else TotalHits(ys[..|ys| - 1]) + |ys[|ys| - 1].hits|
  }

  /**
   * The flattened records: one per hit of the kept tracks, every record carrying its track's
   * id and parameters and the hit's index within the track; hit-less tracks add nothing.
   */
  lemma {:induction false} RecordsOnePerHit(ys: seq<Yield>)
    ensures |RecordsOf(ys)| == TotalHits(ys)
    ensures forall i, h :: 0 <= i < |ys| && 0 <= h < |ys[i].hits| ==>
      Record(ys[i].trackId, h, ys[i].info, ys[i].hits[h]) in RecordsOf(ys)
    ensures forall r :: r in RecordsOf(ys) ==>
      exists i :: 0 <= i < |ys| && r.trackId == ys[i].trackId && r.hitId < |ys[i].hits|
        && r.info == ys[i].info && r.hit == ys[i].hits[r.hitId]
    decreases |ys|
  {
    if ys != [] {
      var init := ys[..|ys| - 1];
      var last := ys[|ys| - 1];
      RecordsOnePerHit(init);
      var rs := RecordsOf(ys);
      assert rs == RecordsOf(init) + TrackRecords(last);
      forall i, h | 0 <= i < |ys| && 0 <= h < |ys[i].hits|
        ensures Record(ys[i].trackId, h, ys[i].info, ys[i].hits[h]) in rs
      {
        if i < |ys| - 1 {
          assert ys[i] == init[i];
        } else {
          assert TrackRecords(last)[h] == Record(ys[i].trackId, h, ys[i].info, ys[i].hits[h]);
        }
      }
      forall r | r in rs
        ensures exists i :: (0 <= i < |ys| && r.trackId == ys[i].trackId && r.hitId < |ys[i].hits|
          && r.info == ys[i].info && r.hit == ys[i].hits[r.hitId])
      {
        if r in RecordsOf(init) {
          var i :| 0 <= i < |init| && r.trackId == init[i].trackId && r.hitId < |init[i].hits|
            && r.info == init[i].info && r.hit == init[i].hits[r.hitId];
          assert ys[i] == init[i];
        } else {
          var h :| 0 <= h < |TrackRecords(last)| && TrackRecords(last)[h] == r;
          assert ys[|ys| - 1] == last;
        }
      }
    }
  }

  /** `read_tdis_data_pandas`: the records of the kept tracks, before indexing. */
  method ReadPandas(num: NumberSyntax, lines: seq<string>, nEvents: Option<int>, skip: int) returns (records: seq<Record>)
    ensures var ys := ReadEventsSpec(num, lines, skip);
      records == RecordsOf(ys[..Limit(|ys|, nEvents)])
  {
    var events := ReadEvents(num, lines, skip);
    records := [];
    var eventsRead := 0;
    var k := 0;
    assert events[..0] == [];
    while k < |events|
      invariant 0 <= k <= |events| && eventsRead == k
      invariant k <= Limit(|events|, nEvents)
      invariant records == RecordsOf(events[..k])
    {
      if nEvents.Some? && eventsRead >= nEvents.value {
        break;
      }
      var y := events[k];
      var h := 0;
      ghost var before := records;
      while h < |y.hits|
        invariant 0 <= h <= |y.hits|
        invariant records == before + TrackRecords(y)[..h]
      {
        records := records + [Record(y.trackId, h, y.info, y.hits[h])];
        assert TrackRecords(y)[..h + 1] == TrackRecords(y)[..h] + [TrackRecords(y)[h]];
        h := h + 1;
      }
      assert TrackRecords(y)[..h] == TrackRecords(y);
      assert events[..k + 1][..k] == events[..k];
      eventsRead := eventsRead + 1;
      k := k + 1;
    }
    assert k == Limit(|events|, nEvents);
  }
}

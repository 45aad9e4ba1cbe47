/**
 * The plain-text event reader of the C++ reconstruction (`DigitizedDataEventSource`). A file
 * is a sequence of lines; a line starting with "Event" opens an event, the next line is the
 * track header (momentum, theta, phi, vertex z) and the following lines are hits (time, adc,
 * ring, pad, plane, drift distance to the GEM, further columns ignored).
 */
module DigitizedDataEventSource {
  import opened Wrappers
  import opened Text

  /** `SplitDataString`: scans the line once, skipping whitespace runs and cutting out each non-whitespace run. */
  method SplitDataString(line: string) returns (tokens: seq<string>)
    ensures tokens == Tokens(line)
  {
    tokens := [];
    var pos := 0;
    while pos < |line|
      invariant 0 <= pos <= |line|
      invariant tokens + Tokens(line[pos..]) == Tokens(line)
    {
      // Skip leading whitespace
      while pos < |line| && IsSpace(line[pos])
        invariant 0 <= pos <= |line|
        invariant tokens + Tokens(line[pos..]) == Tokens(line)
      {
        TokensSkipSpace(line, pos);
        pos := pos + 1;
      }
      if pos >= |line| {
        break;
      }
      // The token runs up to the next whitespace character or the end of the line
      var tokenStart := pos;
      while pos < |line| && !IsSpace(line[pos])
        invariant tokenStart <= pos <= |line|
        invariant forall j :: tokenStart <= j < pos ==> !IsSpace(line[j])
      {
        pos := pos + 1;
      }
      TokensAtWord(line, tokenStart, pos);
      tokens := tokens + [line[tokenStart..pos]];
    }
  }

  /** A line that opens an event. */
  predicate IsMarker(line: string) {
    StartsWith(line, "Event")
  }

  /**
   * The input stream: the position of the next line to read and whether a read has failed
   * (`!input_file`). Reading past the last line fails and yields an empty line, as
   * `std::getline` does at end of file.
   */
  datatype StreamState = StreamState(pos: nat, failed: bool)

  /** `std::getline` on a stream over `file`: the line read and the new stream state. */
  function Getline(file: seq<string>, st: StreamState): (string, StreamState) {
    if st.pos < |file| then (file[st.pos], StreamState(st.pos + 1, false))
    else ("", StreamState(st.pos, true))
  }

  /** How many reads are left before the stream fails. */
  function ReadsLeft(file: seq<string>, st: StreamState): nat {
    (if st.pos <= |file| then |file| - st.pos else 0) + (if st.failed then 0 else 1)
  }

  /**
   * The loop of `ReadNextEventLines` from stream state `st` with `acc` already collected: stop
   * when the stream has failed; skip a marker while nothing is collected; stop after a marker
   * otherwise; collect any other line (including the empty line of the failing read).
   */
  function ReadGroup(file: seq<string>, st: StreamState, acc: seq<string>): (seq<string>, StreamState)
    decreases ReadsLeft(file, st)
  {
    if st.failed then (acc, st)
    else
      var read := Getline(file, st);
      var line, st' := read.0, read.1;
      if IsMarker(line) then
        if acc == [] then ReadGroup(file, st', acc) else (acc, st')
      else ReadGroup(file, st', acc + [line])
  }

  /** The first index from `k` on that is not a marker line (or the end of the file). */
  function SkipMarkers(file: seq<string>, k: nat): (j: nat)
    requires k <= |file|
    ensures k <= j <= |file|
    ensures forall i :: k <= i < j ==> IsMarker(file[i])
    ensures j == |file| || !IsMarker(file[j])
    decreases |file| - k
  {
    if k == |file| || !IsMarker(file[k]) then k else SkipMarkers(file, k + 1)
  }

  /** The first index from `k` on that is a marker line (or the end of the file). */
  function NextMarker(file: seq<string>, k: nat): (j: nat)
    requires k <= |file|
    ensures k <= j <= |file|
    ensures forall i :: k <= i < j ==> !IsMarker(file[i])
    ensures j == |file| || IsMarker(file[j])
    decreases |file| - k
  {
    if k == |file| || IsMarker(file[k]) then k else NextMarker(file, k + 1)
  }

  /** Collecting after the first line: the group runs to the next marker, which is consumed, or to the end of the file. */
  lemma {:induction false} ReadGroupCollecting(file: seq<string>, p: nat, acc: seq<string>)
    requires p <= |file| && acc != []
    ensures var m := NextMarker(file, p);
      ReadGroup(file, StreamState(p, false), acc) ==
        if m < |file| then (acc + file[p..m], StreamState(m + 1, false))
        else (acc + file[p..] + [""], StreamState(|file|, true))
    decreases |file| - p
  {
    if p == |file| {
      assert file[p..] == [];
      assert ReadGroup(file, StreamState(p, true), acc + [""]) == (acc + [""], StreamState(p, true));
    } else if IsMarker(file[p]) {
      assert Getline(file, StreamState(p, false)) == (file[p], StreamState(p + 1, false));
      assert acc + file[p..p] == acc;
    } else {
      assert Getline(file, StreamState(p, false)) == (file[p], StreamState(p + 1, false));
      ReadGroupCollecting(file, p + 1, acc + [file[p]]);
      var m := NextMarker(file, p);
      assert acc + [file[p]] + file[p + 1..m] == acc + file[p..m];
      assert acc + [file[p]] + file[p + 1..] == acc + file[p..];
    }
  }

  /**
   * `ReadNextEventLines` on a good stream: leading marker lines are skipped; the group is the
   * lines from the first non-marker up to the next marker, which is consumed; at end of file
   * the group ends with the empty line of the failed read and the stream is failed.
   */
  lemma {:induction false} ReadGroupFromGoodStream(file: seq<string>, p: nat)
    requires p <= |file|
    ensures var k := SkipMarkers(file, p); var m := NextMarker(file, k);
      ReadGroup(file, StreamState(p, false), []) ==
        if m < |file| then (file[k..m], StreamState(m + 1, false))
        else (file[k..] + [""], StreamState(|file|, true))
    decreases |file| - p
  {
    if p == |file| {
      assert file[p..] == [];
    } else if IsMarker(file[p]) {
      ReadGroupFromGoodStream(file, p + 1);
    } else {
      assert Getline(file, StreamState(p, false)) == (file[p], StreamState(p + 1, false));
      assert [] + [file[p]] == [file[p]];
      ReadGroupCollecting(file, p + 1, [file[p]]);
      assert SkipMarkers(file, p) == p;
      var m := NextMarker(file, p);
      assert [file[p]] + file[p + 1..m] == file[p..m];
      assert [file[p]] + file[p + 1..] == file[p..];
    }
  }

  /** A group read from a good stream is never empty, and none of its lines is a marker. */
  lemma ReadGroupNonEmptyNoMarkers(file: seq<string>, p: nat)
    requires p <= |file|
    ensures ReadGroup(file, StreamState(p, false), []).0 != []
    ensures forall i :: 0 <= i < |ReadGroup(file, StreamState(p, false), []).0| ==>
      !IsMarker(ReadGroup(file, StreamState(p, false), []).0[i])
  {
    ReadGroupFromGoodStream(file, p);
    var k := SkipMarkers(file, p);
    var m := NextMarker(file, k);
    if m < |file| {
      assert m > k;
    }
  }

  /** POD track and hit records filled by the parsers. */
  datatype ReadoutHit = ReadoutHit(time: real, adc: real, ring: int, pad: int, plane: int, zToGem: real)
  datatype ReadoutTrack = ReadoutTrack(momentum: real, theta: real, phi: real, vertexZ: real, hits: seq<ReadoutHit>)

  /** A parser's outcome: the record, `false` (too few tokens), or an exception from `stod`/`stoi`. */
  datatype Parse<T> = Parsed(value: T) | Rejected | Threw

  /** `ParseTrackHeader`: at least four tokens, the first four read as reals; the rest are ignored. */
  function ParseTrackHeader(ns: NumberSyntax, tokens: seq<string>): (r: Parse<ReadoutTrack>)
    ensures r.Rejected? <==> |tokens| < 4
    ensures r.Threw? <==> |tokens| >= 4 && exists k :: 0 <= k < 4 && ns.toReal(tokens[k]).None?
    ensures r.Parsed? ==> (r.value.hits == []
      && Some(r.value.momentum) == ns.toReal(tokens[0]) && Some(r.value.theta) == ns.toReal(tokens[1])
      && Some(r.value.phi) == ns.toReal(tokens[2]) && Some(r.value.vertexZ) == ns.toReal(tokens[3]))
  {
    if |tokens| < 4 then Rejected
    else
      var momentum, theta, phi, vertexZ :=
        ns.toReal(tokens[0]), ns.toReal(tokens[1]), ns.toReal(tokens[2]), ns.toReal(tokens[3]);
      if momentum.None? || theta.None? || phi.None? || vertexZ.None? then Threw
      else Parsed(ReadoutTrack(momentum.value, theta.value, phi.value, vertexZ.value, []))
  }

  /**
   * `ParseTrackHit`: no tokens or fewer than six is a rejection; tokens 0-5 are read as time,
   * adc (reals), ring, pad, plane (integers) and drift distance (real); the rest are ignored.
   */
  function ParseTrackHit(ns: NumberSyntax, tokens: seq<string>): (r: Parse<ReadoutHit>)
    ensures r.Rejected? <==> |tokens| < 6
    ensures r.Threw? <==> (|tokens| >= 6
      && (|| ns.toReal(tokens[0]).None? || ns.toReal(tokens[1]).None? || ns.toInt(tokens[2]).None?
          || ns.toInt(tokens[3]).None? || ns.toInt(tokens[4]).None? || ns.toReal(tokens[5]).None?))
    ensures r.Parsed? ==>
      && Some(r.value.time) == ns.toReal(tokens[0]) && Some(r.value.adc) == ns.toReal(tokens[1])
      && Some(r.value.ring) == ns.toInt(tokens[2]) && Some(r.value.pad) == ns.toInt(tokens[3])
      && Some(r.value.plane) == ns.toInt(tokens[4]) && Some(r.value.zToGem) == ns.toReal(tokens[5])
  {
    if tokens == [] then Rejected
    else if |tokens| < 6 then Rejected
    else
      var time, adc := ns.toReal(tokens[0]), ns.toReal(tokens[1]);
      var ring, pad, plane := ns.toInt(tokens[2]), ns.toInt(tokens[3]), ns.toInt(tokens[4]);
      var zToGem := ns.toReal(tokens[5]);
      if time.None? || adc.None? || ring.None? || pad.None? || plane.None? || zToGem.None? then Threw
      else Parsed(ReadoutHit(time.value, adc.value, ring.value, pad.value, plane.value, zToGem.value))
  }

  /** The hit loop of `Emit`: rejected lines are skipped, the first exception aborts (`None`). */
  function ParseHits(ns: NumberSyntax, lines: seq<string>): Option<seq<ReadoutHit>>
    decreases |lines|
  {
    if lines == [] then Some([])
    else
      var n := |lines| - 1;
      match ParseHits(ns, lines[..n])
      case None => None
      case Some(hits) =>
        match ParseTrackHit(ns, Tokens(lines[n]))
        case Threw => None
        case Rejected => Some(hits)
        case Parsed(hit) => Some(hits + [hit])
  }

  /** The lines with at least six tokens: the ones the hit parser does not reject. */
  function HitLines(lines: seq<string>): seq<string>
    decreases |lines|
  {
    if lines == [] then []
    else
      var n := |lines| - 1;
      HitLines(lines[..n]) + (if |Tokens(lines[n])| >= 6 then [lines[n]] else [])
  }

  /**
   * When no hit line throws, the parsed hits are, in order, exactly the parses of the lines
   * with at least six tokens; one parsed hit per such line.
   */
  lemma {:induction false} ParseHitsAreHitLines(ns: NumberSyntax, lines: seq<string>)
    requires ParseHits(ns, lines).Some?
    ensures |ParseHits(ns, lines).value| == |HitLines(lines)|
    ensures forall k :: 0 <= k < |HitLines(lines)| ==>
      ParseTrackHit(ns, Tokens(HitLines(lines)[k])) == Parsed(ParseHits(ns, lines).value[k])
    decreases |lines|
  {
    if lines != [] {
      var n := |lines| - 1;
      ParseHitsAreHitLines(ns, lines[..n]);
    }
  }

  /** `Emit`'s verdict on one event. */
  datatype EmitResult = Emitted(track: ReadoutTrack) | FailureTryAgain | FailureFinished | Rethrown

  /** What `Emit` does with the lines of one event group. */
  function EmitResultOf(ns: NumberSyntax, lines: seq<string>): EmitResult {
    if lines == [] then FailureFinished
    else if |lines| == 1 then FailureTryAgain
    else
      match ParseTrackHeader(ns, Tokens(lines[0]))
      case Rejected => FailureFinished
      case Threw => Rethrown
      case Parsed(track) =>
        match ParseHits(ns, lines[1..])
        case None => Rethrown
        case Some(hits) => if hits == [] then FailureFinished else Emitted(track.(hits := hits))
  }

  /** How far `Emit` advances `m_current_line_index` for one event group. */
  function LineIndexAdvance(ns: NumberSyntax, lines: seq<string>): nat {
    if lines == [] then 0
    else if |lines| == 1 then 2
    else if ParseTrackHeader(ns, Tokens(lines[0])).Parsed? && ParseHits(ns, lines[1..]).Some? then 1 + |lines|
    else 1
  }

  /**
   * An emitted track carries the header's four values and at least one hit; its hits are the
   * parses, in order, of the event's hit lines that have at least six tokens.
   */
  lemma EmittedTrack(ns: NumberSyntax, lines: seq<string>)
    requires EmitResultOf(ns, lines).Emitted?
    ensures |lines| >= 2
    ensures ParseTrackHeader(ns, Tokens(lines[0])) == Parsed(EmitResultOf(ns, lines).track.(hits := []))
    ensures 1 <= |EmitResultOf(ns, lines).track.hits| == |HitLines(lines[1..])| <= |lines| - 1
    ensures forall k :: 0 <= k < |HitLines(lines[1..])| ==>
      ParseTrackHit(ns, Tokens(HitLines(lines[1..])[k])) == Parsed(EmitResultOf(ns, lines).track.hits[k])
  {
    ParseHitsAreHitLines(ns, lines[1..]);
    HitLinesBound(lines[1..]);
  }

  lemma {:induction false} HitLinesBound(lines: seq<string>)
    ensures |HitLines(lines)| <= |lines|
    decreases |lines|
  {
    if lines != [] {
      HitLinesBound(lines[..|lines| - 1]);
    }
  }

  /** The run number every emitted event gets. */
  const RunNumber: int := 22

  /**
   * `CheckOpenable`: full confidence for a resource whose name ends in "txt", none otherwise.
   */
  function CheckOpenable(resourceName: string): (confidence: real)
    ensures confidence == 1.0 <==> EndsWith(resourceName, "txt")
    ensures confidence == 0.0 <==> !EndsWith(resourceName, "txt")
  {
    if EndsWith(resourceName, "txt") then 1.0 else 0.0
  }

  /**
   * The function-static `current_event_number` of `Emit`: created once, at 1, and shared by
   * every source of the program, so a second source goes on numbering where the first stopped.
   */
  class EventCounter {
    var next: nat

    constructor ()
      ensures next == 1
    {
      next := 1;
    }
  }

  /**
   * The event source reading one opened file; its `Emit` numbers events from the static
   * counter it shares with every other source.
   */
  class EventSource {
    const file: seq<string>
    var stream: StreamState
    var currentLineIndex: nat
    /** The function-static event counter of `Emit`, shared with every other source. */
    const counter: EventCounter

    ghost predicate Valid()
      reads this
    {
      stream.pos <= |file|
    }

    /** A source over an opened file; `counter` is the program's one static counter, wherever earlier sources left it. */
    constructor (file: seq<string>, counter: EventCounter)
      ensures this.file == file && stream == StreamState(0, false)
      ensures currentLineIndex == 0
      ensures this.counter == counter && counter.next == old(counter.next)
      ensures Valid()
    {
      this.file := file;
      stream := StreamState(0, false);
      currentLineIndex := 0;
      this.counter := counter;
    }

    /** `std::getline` on the source's stream. */
    method ReadLine() returns (line: string)
      requires Valid()
      modifies this`stream
      ensures Valid()
      ensures (line, stream) == Getline(file, old(stream))
    {
      if stream.pos < |file| {
        line := file[stream.pos];
        stream := StreamState(stream.pos + 1, false);
      } else {
        line := "";
        stream := StreamState(stream.pos, true);
      }
    }

    /** `ReadNextEventLines`: the lines of the next event, without its marker line. */
    method ReadNextEventLines() returns (lines: seq<string>)
      requires Valid()
      modifies this`stream
      ensures Valid()
      ensures (lines, stream) == ReadGroup(file, old(stream), [])
    {
      lines := [];
      while true
        invariant Valid()
        invariant ReadGroup(file, stream, lines) == ReadGroup(file, old(stream), [])
        decreases ReadsLeft(file, stream)
      {
        if stream.failed {
          return;
        }
        var line := ReadLine();
        if IsMarker(line) {
          if lines == [] {
            continue;
          }
          return;
        }
        lines := lines + [line];
      }
    }

    /**
     * `Emit`: numbers the event, reads its lines, and decides the result; the tokens of the
     * header and of each hit line are split with `SplitDataString`.
     */
    method Emit(ns: NumberSyntax) returns (result: EmitResult, eventNumber: nat)
      requires Valid()
      modifies this, counter
      ensures Valid()
      ensures eventNumber == old(counter.next) && counter.next == old(counter.next) + 1
      ensures var (group, st) := ReadGroup(file, old(stream), []);
        && stream == st
        && result == EmitResultOf(ns, group)
        && currentLineIndex == old(currentLineIndex) + LineIndexAdvance(ns, group)
    {
      eventNumber := counter.next;
      counter.next := counter.next + 1;
      var lines := ReadNextEventLines();
      if lines == [] {
        return FailureFinished, eventNumber;
      }
      currentLineIndex := currentLineIndex + 1;
      if |lines| == 1 {
        currentLineIndex := currentLineIndex + 1;
        return FailureTryAgain, eventNumber;
      }
      var tokens := SplitDataString(lines[0]);
      var header := ParseTrackHeader(ns, tokens);
      if header.Threw? {
        return Rethrown, eventNumber;
      }
      if header.Rejected? {
        return FailureFinished, eventNumber;
      }
      var track := header.value;
      var hits: seq<ReadoutHit> := [];
      var i := 1;
      ghost var streamAfterRead := stream;
      ghost var lineIndexAtHeader := currentLineIndex;
      while i < |lines|
        invariant 1 <= i <= |lines|
        invariant stream == streamAfterRead && Valid()
        invariant currentLineIndex == lineIndexAtHeader && counter.next == eventNumber + 1
        invariant ParseHits(ns, lines[1..i]) == Some(hits)
      {
        tokens := SplitDataString(lines[i]);
        var hit := ParseTrackHit(ns, tokens);
        assert lines[1..i + 1][..i - 1] == lines[1..i];
        assert lines[1..i + 1][i - 1] == lines[i];
        if hit.Threw? {
          ParseHitsAbort(ns, lines[1..], i);
          return Rethrown, eventNumber;
        }
        if hit.Parsed? {
          hits := hits + [hit.value];
        }
        i := i + 1;
      }
      assert lines[1..i] == lines[1..];
      currentLineIndex := currentLineIndex + |lines|;
      if hits == [] {
        return FailureFinished, eventNumber;
      }
      result := Emitted(track.(hits := hits));
    }
  }

  /** An exception on hit line `i` aborts the whole hit loop. */
  lemma {:induction false} ParseHitsAbort(ns: NumberSyntax, lines: seq<string>, i: nat)
    requires 1 <= i <= |lines|
    requires ParseHits(ns, lines[..i]).None?
    ensures ParseHits(ns, lines).None?
    decreases |lines| - i
  {
    if i < |lines| {
      assert lines[..i + 1][..i] == lines[..i];
      ParseHitsAbort(ns, lines, i + 1);
    } else {
      assert lines[..i] == lines;
    }
  }

  /**
   * The event numbers are program-wide: a source opened after another one has emitted an event
   * numbers its first event 2, not 1.
   */
  method NumberingAcrossSources(ns: NumberSyntax, file1: seq<string>, file2: seq<string>) returns (first: nat, second: nat)
    ensures first == 1 && second == 2
  {
    var counter := new EventCounter();
    var source1 := new EventSource(file1, counter);
    var result1;
    result1, first := source1.Emit(ns);
    var source2 := new EventSource(file2, counter);
    var result2;
    result2, second := source2.Emit(ns);
  }
}

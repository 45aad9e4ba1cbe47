/**
 * The web display's event-file parser (`DataLoader.ts`, `parseEvents`): the text is split at
 * newlines; a trimmed line starting with "Event" opens an event whose number is `parseInt` of
 * the marker's second single-space field, whose track parameters are the next line's
 * whitespace-separated numbers and whose hits are the non-blank lines up to the next marker.
 * Nothing here throws: a field that is not a number becomes NaN, and events are stored in an
 * object under their number, a later one replacing an earlier one with the same number.
 */
module DataLoader {
  import opened Wrappers
  import opened Text
  import EventDisplayServer

  // ---------------------------------------------------------------------------------------
  // `String.prototype.split` with a one-character separator

  /** `s.split(sep)`: the pieces between the separators; always at least one, possibly empty. */
  function Split(s: string, sep: char): (parts: seq<string>)
    ensures |parts| >= 1
    ensures forall k :: 0 <= k < |parts| ==> sep !in parts[k]
    decreases |s|
  {
    if s == [] then [[]]
    else
      var rest := Split(s[1..], sep);
      if s[0] == sep then [[]] + rest
      else [[s[0]] + rest[0]] + rest[1..]
  }

  /** `parts.join(sep)`. */
  function Join(parts: seq<string>, sep: char): string
    requires |parts| >= 1
    decreases |parts|
  {
    if |parts| == 1 then parts[0] else parts[0] + [sep] + Join(parts[1..], sep)
  }

  /** Joining the pieces with the separator gives back the text. */
  lemma {:induction false} JoinSplit(s: string, sep: char)
    ensures Join(Split(s, sep), sep) == s
    decreases |s|
  {
    if s != [] {
      JoinSplit(s[1..], sep);
      JoinSplitStep(s, sep);
    }
  }

  /** Putting the first character back in front of the pieces of the rest. */
  lemma JoinSplitStep(s: string, sep: char)
    requires s != [] && Join(Split(s[1..], sep), sep) == s[1..]
    ensures Join(Split(s, sep), sep) == s
  {
    var rest := Split(s[1..], sep);
    if s[0] != sep {
      JoinPrepend(s[0], rest, sep);
    } else {
      JoinPrependEmpty(rest, sep);
    }
    assert s == [s[0]] + s[1..];
  }

  /** A character put in front of the first piece comes out in front of the join. */
  lemma JoinPrepend(c: char, parts: seq<string>, sep: char)
    requires |parts| >= 1
    ensures Join([[c] + parts[0]] + parts[1..], sep) == [c] + Join(parts, sep)
  {
    var ps := [[c] + parts[0]] + parts[1..];
    assert ps[1..] == parts[1..];
    if |parts| > 1 {
      AppendAssociative([c], parts[0] + [sep], Join(parts[1..], sep));
      AppendAssociative([c], parts[0], [sep]);
    }
  }

  /** An empty first piece puts a separator in front of the join of the others. */
  lemma JoinPrependEmpty(parts: seq<string>, sep: char)
    requires |parts| >= 1
    ensures Join([[]] + parts, sep) == [sep] + Join(parts, sep)
  {
    assert ([[]] + parts)[1..] == parts;
  }

  /** A text without the separator is a single piece. */
  lemma {:induction false} SplitWithoutSeparator(p: string, sep: char)
    requires sep !in p
    ensures Split(p, sep) == [p]
    decreases |p|
  {
    if p != [] {
      SplitWithoutSeparator(p[1..], sep);
      assert [p[0]] + p[1..] == p;
    }
  }

  /** The first separator ends the first piece. */
  lemma {:induction false} SplitAtSeparator(p: string, sep: char, t: string)
    requires sep !in p
    ensures Split(p + [sep] + t, sep) == [p] + Split(t, sep)
    decreases |p|
  {
    var s := p + [sep] + t;
    if p == [] {
      assert s[1..] == t;
    } else {
      assert s[1..] == p[1..] + [sep] + t;
      SplitAtSeparator(p[1..], sep, t);
      assert [p[0]] + p[1..] == p;
    }
  }

  /** Pieces without the separator are recovered by splitting their join. */
  lemma {:induction false} SplitJoin(parts: seq<string>, sep: char)
    requires |parts| >= 1 && forall k :: 0 <= k < |parts| ==> sep !in parts[k]
    ensures Split(Join(parts, sep), sep) == parts
    decreases |parts|
  {
    if |parts| == 1 {
      SplitWithoutSeparator(parts[0], sep);
    } else {
      SplitJoin(parts[1..], sep);
      SplitAtSeparator(parts[0], sep, Join(parts[1..], sep));
      assert [parts[0]] + parts[1..] == parts;
    }
  }

  // ---------------------------------------------------------------------------------------
  // `parseInt(s, 10)`

  predicate IsDigit(c: char) {
    '0' <= c <= '9'
  }

  function DigitValue(c: char): int
    requires IsDigit(c)
  {
    c as int - '0' as int
  }

  /** The length of the run of decimal digits that starts `s`. */
  function DigitLen(s: string): (n: nat)
    ensures n <= |s|
    ensures forall i :: 0 <= i < n ==> IsDigit(s[i])
    ensures n == |s| || !IsDigit(s[n])
  {
    if s == [] || !IsDigit(s[0]) then 0 else 1 + DigitLen(s[1..])
  }

  /** The value of a string of decimal digits, most significant first. */
  function DecimalValue(ds: string): nat
    requires forall i :: 0 <= i < |ds| ==> IsDigit(ds[i])
    decreases |ds|
  {
    if ds == [] then 0 else 10 * DecimalValue(ds[..|ds| - 1]) + DigitValue(ds[|ds| - 1])
  }

  /** `s` without its leading whitespace. */
  function SkipSpaces(s: string): (t: string)
    ensures t == [] || !IsSpace(t[0])
    decreases |s|
  {
    if s != [] && IsSpace(s[0]) then SkipSpaces(s[1..]) else s
  }

  /** `s` without a leading sign. */
  function Unsigned(t: string): string {
    if t != [] && (t[0] == '-' || t[0] == '+') then t[1..] else t
  }

  /**
   * `parseInt(s, 10)`: after leading whitespace and an optional sign, the longest run of
   * decimal digits, whatever follows it; NaN (`None`) when there is no digit there.
   */
  function ParseInt(s: string): (n: Option<int>)
    ensures n.None? <==> DigitLen(Unsigned(SkipSpaces(s))) == 0
  {
    var t := SkipSpaces(s);
    var body := Unsigned(t);
    var len := DigitLen(body);
    if len == 0 then None
    else
      var v: int := DecimalValue(body[..len]);
      Some(if t[0] == '-' then -v else v)
  }

  function DigitChar(d: int): char
    requires 0 <= d < 10
  {
    ('0' as int + d) as char
  }

  /** The decimal digits of a natural number, most significant first. */
  function NatDigits(m: nat): (ds: string)
    ensures |ds| >= 1 && forall i :: 0 <= i < |ds| ==> IsDigit(ds[i])
  {
    if m < 10 then [DigitChar(m)] else NatDigits(m / 10) + [DigitChar(m % 10)]
  }

  /** How JavaScript writes a whole number: a minus sign for a negative one, then its digits. */
  function DecimalString(n: int): string {
    (if n < 0 then "-" else "") + NatDigits(if n < 0 then -n else n)
  }

  lemma {:induction false} NatDigitsValue(m: nat)
    ensures DecimalValue(NatDigits(m)) == m
  {
    if m >= 10 {
      NatDigitsValue(m / 10);
      var ds := NatDigits(m);
      assert ds[..|ds| - 1] == NatDigits(m / 10);
    }
  }

  lemma {:induction false} DigitLenOfDigits(ds: string, rest: string)
    requires forall i :: 0 <= i < |ds| ==> IsDigit(ds[i])
    requires rest == [] || !IsDigit(rest[0])
    ensures DigitLen(ds + rest) == |ds|
    decreases |ds|
  {
    if ds == [] {
      assert ds + rest == rest;
    } else {
      DigitLenOfDigits(ds[1..], rest);
      assert (ds + rest)[1..] == ds[1..] + rest;
    }
  }

  /**
   * `parseInt` reads back a whole number written in decimal, and ignores whatever follows the
   * digits as long as it is not another digit.
   */
  lemma ParseIntOfDecimal(n: int, rest: string)
    requires rest == [] || !IsDigit(rest[0])
    ensures ParseInt(DecimalString(n) + rest) == Some(n)
  {
    var m := if n < 0 then -n else n;
    var ds := NatDigits(m);
    assert DecimalString(n) + rest == Sign(n < 0) + (ds + rest);
    assert (ds + rest)[0] == ds[0];
    NatDigitsValue(m);
    DigitsThenRest(ds, rest);
    ParseIntSigned(n < 0, ds + rest, |ds|, m);
  }

  function Sign(negative: bool): string {
    if negative then "-" else ""
  }

  /** `parseInt` on an optional minus sign followed by `len` digits and a non-digit tail. */
  lemma ParseIntSigned(negative: bool, body: string, len: nat, v: int)
    requires |body| >= 1 && IsDigit(body[0])
    requires len <= |body| && DigitLen(body) == len
    requires DecimalValue(body[..len]) == v
    ensures ParseInt(Sign(negative) + body) == Some(if negative then -v else v)
  {
    SignedDigits(negative, body);
    ParseIntParts(Sign(negative) + body, body, len, v);
  }

  /** The digits of `ds + rest` are those of `ds`. */
  lemma DigitsThenRest(ds: string, rest: string)
    requires forall i :: 0 <= i < |ds| ==> IsDigit(ds[i])
    requires rest == [] || !IsDigit(rest[0])
    ensures DigitLen(ds + rest) == |ds|
    ensures DecimalValue((ds + rest)[..|ds|]) == DecimalValue(ds)
  {
    DigitLenOfDigits(ds, rest);
    assert (ds + rest)[..|ds|] == ds;
  }

  /** A string that starts with a digit, or with a minus sign and then a digit. */
  lemma SignedDigits(negative: bool, body: string)
    requires |body| >= 1 && IsDigit(body[0])
    ensures SkipSpaces(Sign(negative) + body) == Sign(negative) + body
    ensures Unsigned(Sign(negative) + body) == body
    ensures (Sign(negative) + body)[0] == '-' <==> negative
  {
    var s := Sign(negative) + body;
    if negative {
      assert s[0] == '-' && s[1..] == body;
    } else {
      assert s == body;
    }
  }

  /** `parseInt` on a string with no leading whitespace, given its unsigned part and digit count. */
  lemma ParseIntParts(s: string, body: string, len: nat, v: int)
    requires SkipSpaces(s) == s && Unsigned(s) == body && len <= |body| && DigitLen(body) == len && len > 0
    requires DecimalValue(body[..len]) == v
    ensures |s| >= 1
    ensures ParseInt(s) == Some(if s[0] == '-' then -v else v)
  {
  }

  // ---------------------------------------------------------------------------------------
  // The fields of one event

  /** `parseInt(marker.split(' ')[1], 10)`: a missing field is `undefined`, which parses as NaN. */
  function EventNumberOf(marker: string): (r: Option<int>)
    ensures ' ' !in marker ==> r.None?
  {
    var fields := Split(marker, ' ');
    if |fields| < 2 then None
    else
      assert ' ' in marker by {
        if ' ' !in marker {
          SplitWithoutSeparator(marker, ' ');
        }
      }
      ParseInt(fields[1])
  }

  /** A number written in decimal has no whitespace, and starts with a minus sign or a digit. */
  lemma DecimalStringChars(n: int)
    ensures |DecimalString(n)| >= 1
    ensures forall i :: 0 <= i < |DecimalString(n)| ==> !IsSpace(DecimalString(n)[i])
    ensures !IsDigit(DecimalString(n)[0]) ==> DecimalString(n)[0] == '-'
  {
    var ds := NatDigits(if n < 0 then -n else n);
    assert forall i :: 0 <= i < |ds| ==> !IsSpace(ds[i]);
  }

  /**
   * A marker "Event <n>" with a single space before the number, possibly followed by more
   * non-whitespace text that does not start with a digit, gives event number n.
   */
  lemma MarkerNumber(n: int, rest: string)
    requires rest == [] || !IsDigit(rest[0])
    requires forall i :: 0 <= i < |rest| ==> !IsSpace(rest[i])
    ensures EventNumberOf(Strip("Event " + DecimalString(n) + rest)) == Some(n)
  {
    var d := DecimalString(n) + rest;
    assert "Event " + DecimalString(n) + rest == "Event " + d;
    DecimalFieldHasNoSpace(n, rest);
    EventMarkerField(d);
    ParseIntOfDecimal(n, rest);
  }

  lemma EventMarkerField(d: string)
    requires |d| >= 1 && forall i :: 0 <= i < |d| ==> !IsSpace(d[i])
    ensures EventNumberOf(Strip("Event " + d)) == ParseInt(d)
  {
    MarkerLine(d);
    MarkerField("Event", d);
  }

  lemma DecimalFieldHasNoSpace(n: int, rest: string)
    requires forall i :: 0 <= i < |rest| ==> !IsSpace(rest[i])
    ensures |DecimalString(n) + rest| >= 1
    ensures forall i :: 0 <= i < |DecimalString(n) + rest| ==> !IsSpace((DecimalString(n) + rest)[i])
  {
    DecimalStringChars(n);
    NoSpaceConcat(DecimalString(n), rest);
  }

  lemma NoSpaceConcat(a: string, b: string)
    requires forall i :: 0 <= i < |a| ==> !IsSpace(a[i])
    requires forall i :: 0 <= i < |b| ==> !IsSpace(b[i])
    ensures forall i :: 0 <= i < |a + b| ==> !IsSpace((a + b)[i])
  {
    forall i | 0 <= i < |a + b| ensures !IsSpace((a + b)[i]) {
      if i >= |a| {
        assert (a + b)[i] == b[i - |a|];
      }
    }
  }

  lemma MarkerLine(d: string)
    ensures "Event " + d == "Event" + [' '] + d
  {
    var head: string := "Event";
    assert "Event " == head + [' '];
  }

  /** The field after a single space following a marker word, when it holds no whitespace. */
  lemma MarkerField(head: string, d: string)
    requires |head| >= 1 && ' ' !in head && !IsSpace(head[0])
    requires |d| >= 1 && forall i :: 0 <= i < |d| ==> !IsSpace(d[i])
    ensures EventNumberOf(Strip(head + [' '] + d)) == ParseInt(d)
  {
    var line := head + [' '] + d;
    assert line[0] == head[0];
    assert line[|line| - 1] == d[|d| - 1];
    StripTrimmed(line);
    assert ' ' !in d by {
      assert forall i :: 0 <= i < |d| ==> d[i] != ' ';
    }
    SplitAtSeparator(head, ' ', d);
    SplitWithoutSeparator(d, ' ');
  }

  /**
   * Two spaces after "Event" make the second single-space field empty, so the event number is
   * NaN however the number is written.
   */
  lemma DoubleSpaceMarkerIsNaN(n: int)
    ensures EventNumberOf(Strip("Event  " + DecimalString(n))) == None
  {
    var d := DecimalString(n);
    var line := "Event  " + d;
    DecimalStringChars(n);
    assert line[|line| - 1] == d[|d| - 1];
    StripTrimmed(line);
    assert line == "Event" + [' '] + ([] + [' '] + d);
    SplitAtSeparator("Event", ' ', [] + [' '] + d);
    SplitAtSeparator([], ' ', d);
    assert EventNumberOf(line) == ParseInt([]);
  }

  /** What `Number(token)` gives for a token: 0 for the empty string, otherwise the parameter. */
  function JsNumber(number: string -> Option<real>, token: string): Option<real> {
    if token == [] then Some(0.0) else number(token)
  }

  /** `tokens.map(Number)`, NaN written as `None`. */
  function Numbers(number: string -> Option<real>, tokens: seq<string>): seq<Option<real>> {
    seq(|tokens|, k requires 0 <= k < |tokens| => JsNumber(number, tokens[k]))
  }

  /**
   * `line.trim().split(/\s+/).map(Number)`: the numbers of the line's whitespace-separated
   * fields; a blank line still has one, empty, field, which is the number 0.
   */
  function TrackParams(number: string -> Option<real>, line: string): (ps: seq<Option<real>>)
    ensures Strip(line) == [] ==> ps == [Some(0.0)]
    ensures Strip(line) != [] ==>
      var tokens := Tokens(Strip(line));
      && |ps| == |tokens| >= 1
      && forall k :: 0 <= k < |tokens| ==> ps[k] == number(tokens[k])
  {
    var t := Strip(line);
    if t == [] then Numbers(number, [[]])
    else
      TokensEmptyIffBlank(t);
      TokensAreWords(t);
      Numbers(number, Tokens(t))
  }

  /** `hitLine.split(/\s+/).map(Number)` for a trimmed, non-empty line. */
  function HitRow(number: string -> Option<real>, hitLine: string): seq<Option<real>> {
    Numbers(number, Tokens(hitLine))
  }

  /** The hit rows of the given lines: blank lines are passed over, the others trimmed and converted. */
  function HitsOf(number: string -> Option<real>, xs: seq<string>): seq<seq<Option<real>>>
    decreases |xs|
  {
    if xs == [] then []
    else
      var hitLine := Strip(xs[|xs| - 1]);
      HitsOf(number, xs[..|xs| - 1]) + (if hitLine == [] then [] else [HitRow(number, hitLine)])
  }

  /** The hit rows of lines `s..e`. */
  function HitsBetween(number: string -> Option<real>, lines: seq<string>, s: nat, e: nat): seq<seq<Option<real>>>
    requires s <= e <= |lines|
  {
    HitsOf(number, lines[s..e])
  }

  /** One more line: its row, if it has one, joins the hits. */
  lemma HitsStep(number: string -> Option<real>, lines: seq<string>, start: nat, i: nat)
    requires start <= i < |lines|
    ensures HitsBetween(number, lines, start, i + 1) == HitsBetween(number, lines, start, i)
      + (if Strip(lines[i]) == [] then [] else [HitRow(number, Strip(lines[i]))])
  {
    assert lines[start..i + 1] == lines[start..i] + [lines[i]];
    HitsOfSnoc(number, lines[start..i], lines[i]);
  }

  lemma HitsOfSnoc(number: string -> Option<real>, xs: seq<string>, x: string)
    ensures HitsOf(number, xs + [x]) == HitsOf(number, xs)
      + (if Strip(x) == [] then [] else [HitRow(number, Strip(x))])
  {
    assert (xs + [x])[..|xs|] == xs;
  }

  /** One turn of the hits loop: a blank line adds nothing, another adds its row. */
  lemma HitsNext(number: string -> Option<real>, lines: seq<string>, start: nat, i: nat,
                 before: seq<seq<Option<real>>>, after: seq<seq<Option<real>>>)
    requires HitsLoop(number, lines, start, i, before) && i < |lines| && !EventDisplayServer.IsMarker(lines[i])
    requires Strip(lines[i]) == [] ==> after == before
    requires Strip(lines[i]) != [] ==> after == before + [HitRow(number, Strip(lines[i]))]
    ensures HitsLoop(number, lines, start, i + 1, after)
  {
    HitsStep(number, lines, start, i);
    if Strip(lines[i]) == [] {
      assert before + [] == before;
    }
  }

  /** The rows of the given trimmed lines, in order. */
  function HitRows(number: string -> Option<real>, cs: seq<string>): seq<seq<Option<real>>>
    decreases |cs|
  {
    if cs == [] then [] else HitRows(number, cs[..|cs| - 1]) + [HitRow(number, cs[|cs| - 1])]
  }

  /** One row per line, each that line's row. */
  lemma {:induction false} HitRowsExactly(number: string -> Option<real>, cs: seq<string>)
    ensures |HitRows(number, cs)| == |cs|
    ensures forall k :: 0 <= k < |cs| ==> HitRows(number, cs)[k] == HitRow(number, cs[k])
    decreases |cs|
  {
    if cs != [] {
      HitRowsExactly(number, cs[..|cs| - 1]);
    }
  }

  /** The hit rows are the rows of the trimmed non-blank lines, one each, in order. */
  lemma {:induction false} HitsAreContentLines(number: string -> Option<real>, xs: seq<string>)
    ensures HitsOf(number, xs) == HitRows(number, ContentLines(xs))
    decreases |xs|
  {
    if xs != [] {
      var init := xs[..|xs| - 1];
      HitsAreContentLines(number, init);
      var cs := ContentLines(init);
      var last := Strip(xs[|xs| - 1]);
      if last != [] {
        assert (cs + [last])[..|cs|] == cs;
      } else {
        assert HitsOf(number, init) + [] == HitsOf(number, init);
        assert cs + [] == cs;
      }
    }
  }

  // ---------------------------------------------------------------------------------------
  // The events of a file

  datatype EventData = EventData(trackParams: seq<Option<real>>, hits: seq<seq<Option<real>>>)

  /**
   * One event as the loop reads it, under its object key: a whole number, or NaN (`None`).
   * A JavaScript object stores `-0` under the same key as `0`, which whole numbers do too.
   */
  datatype Entry = Entry(key: Option<int>, event: EventData)

  /** The events read from line `i` on, in file order; a marker on the last line ends the file. */
  function EventsFrom(number: string -> Option<real>, lines: seq<string>, i: nat): seq<Entry>
    decreases |lines| - i
  {
    if i >= |lines| then []
    else if !EventDisplayServer.IsMarker(lines[i]) then EventsFrom(number, lines, i + 1)
    else if i + 1 == |lines| then []
    else
      var end := EventDisplayServer.NextMarker(lines, i + 2);
      [Entry(EventNumberOf(Strip(lines[i])),
             EventData(TrackParams(number, lines[i + 1]), HitsBetween(number, lines, i + 2, end)))]
      + EventsFrom(number, lines, end)
  }

  /** `events[eventNumber] = …` for each entry in turn. */
  function UpdateAll(m: map<Option<int>, EventData>, es: seq<Entry>): map<Option<int>, EventData>
    decreases |es|
  {
    if es == [] then m else UpdateAll(m[es[0].key := es[0].event], es[1..])
  }

  /** What `parseEvents` returns for the lines of a file. */
  function EventsOfLines(number: string -> Option<real>, lines: seq<string>): map<Option<int>, EventData> {
    UpdateAll(map[], EventsFrom(number, lines, 0))
  }

  /** What `parseEvents` returns for a text. */
  function ParsedEvents(number: string -> Option<real>, data: string): map<Option<int>, EventData> {
    EventsOfLines(number, Split(data, '\n'))
  }

  /**
   * The object holds exactly the keys written to it; the value under a key is the last event
   * with that key; keys no event writes keep their old value.
   */
  lemma LastWins(m: map<Option<int>, EventData>, es: seq<Entry>)
    ensures forall n :: n in UpdateAll(m, es) <==> n in m || exists k :: 0 <= k < |es| && es[k].key == n
    ensures forall k :: 0 <= k < |es| && (forall l :: k < l < |es| ==> es[l].key != es[k].key) ==>
      UpdateAll(m, es)[es[k].key] == es[k].event
    ensures forall n :: n in m && (forall k :: 0 <= k < |es| ==> es[k].key != n) ==> UpdateAll(m, es)[n] == m[n]
  {
    forall n
      ensures n in UpdateAll(m, es) <==> n in m || exists k :: 0 <= k < |es| && es[k].key == n
    {
      UpdatedKeys(m, es, n);
    }
    forall k | 0 <= k < |es| && (forall l :: k < l < |es| ==> es[l].key != es[k].key)
      ensures UpdateAll(m, es)[es[k].key] == es[k].event
    {
      LastWrite(m, es, k);
    }
    forall n | n in m && (forall k :: 0 <= k < |es| ==> es[k].key != n)
      ensures UpdateAll(m, es)[n] == m[n]
    {
      Untouched(m, es, n);
    }
  }

  lemma {:induction false} UpdatedKeys(m: map<Option<int>, EventData>, es: seq<Entry>, n: Option<int>)
    ensures n in UpdateAll(m, es) <==> n in m || exists k :: 0 <= k < |es| && es[k].key == n
    decreases |es|
  {
    if es != [] {
      var tail := es[1..];
      UpdatedKeys(m[es[0].key := es[0].event], tail, n);
      if exists k :: 0 <= k < |tail| && tail[k].key == n {
        var k :| 0 <= k < |tail| && tail[k].key == n;
        assert es[k + 1].key == n;
      }
      if exists k :: 0 <= k < |es| && es[k].key == n {
        var k :| 0 <= k < |es| && es[k].key == n;
        if k > 0 {
          assert tail[k - 1].key == n;
        }
      }
    }
  }

  lemma {:induction false} LastWrite(m: map<Option<int>, EventData>, es: seq<Entry>, k: nat)
    requires k < |es|
    requires forall l :: k < l < |es| ==> es[l].key != es[k].key
    ensures es[k].key in UpdateAll(m, es) && UpdateAll(m, es)[es[k].key] == es[k].event
    decreases |es|
  {
    var tail := es[1..];
    if k > 0 {
      forall l | k - 1 < l < |tail|
        ensures tail[l].key != tail[k - 1].key
      {
        assert es[l + 1] == tail[l];
      }
      LastWrite(m[es[0].key := es[0].event], tail, k - 1);
    } else {
      forall l | 0 <= l < |tail|
        ensures tail[l].key != es[0].key
      {
        assert es[l + 1] == tail[l];
      }
      Untouched(m[es[0].key := es[0].event], tail, es[0].key);
    }
  }

  lemma {:induction false} Untouched(m: map<Option<int>, EventData>, es: seq<Entry>, n: Option<int>)
    requires n in m
    requires forall k :: 0 <= k < |es| ==> es[k].key != n
    ensures n in UpdateAll(m, es) && UpdateAll(m, es)[n] == m[n]
    decreases |es|
  {
    if es != [] {
      var tail := es[1..];
      forall k | 0 <= k < |tail|
        ensures tail[k].key != n
      {
        assert es[k + 1] == tail[k];
      }
      Untouched(m[es[0].key := es[0].event], tail, n);
    }
  }

  /** Lines that are not markers are passed over, in particular those before the first marker. */
  lemma {:induction false} NonMarkersSkipped(number: string -> Option<real>, lines: seq<string>, i: nat, k: nat)
    requires i <= k <= |lines|
    requires forall j :: i <= j < k ==> !EventDisplayServer.IsMarker(lines[j])
    ensures EventsFrom(number, lines, i) == EventsFrom(number, lines, k)
    decreases k - i
  {
    if i < k {
      NonMarkersSkipped(number, lines, i + 1, k);
    }
  }

  /** Everything before the first marker is ignored. */
  lemma PreambleIgnored(number: string -> Option<real>, lines: seq<string>)
    ensures EventsFrom(number, lines, 0) == EventsFrom(number, lines, EventDisplayServer.NextMarker(lines, 0))
  {
    NonMarkersSkipped(number, lines, 0, EventDisplayServer.NextMarker(lines, 0));
  }

  /**
   * The event opened by a marker on line `i` (not the last line): its key is the marker's
   * number, its parameters are the next line's, even when that line is itself a marker, and its
   * hits are the rows of the trimmed non-blank lines after that, up to the next marker, where
   * reading resumes.
   */
  lemma EventAt(number: string -> Option<real>, lines: seq<string>, i: nat)
    requires i + 1 < |lines| && EventDisplayServer.IsMarker(lines[i])
    ensures var es := EventsFrom(number, lines, i);
      var end := EventDisplayServer.NextMarker(lines, i + 2);
      var cs := ContentLines(lines[i + 2..end]);
      && |es| >= 1
      && es[0].key == EventNumberOf(Strip(lines[i]))
      && es[0].event.trackParams == TrackParams(number, lines[i + 1])
      && |es[0].event.hits| == |cs|
      && (forall k :: 0 <= k < |cs| ==> es[0].event.hits[k] == HitRow(number, cs[k]))
      && es[1..] == EventsFrom(number, lines, end)
  {
    var end := EventDisplayServer.NextMarker(lines, i + 2);
    HitsAreContentLines(number, lines[i + 2..end]);
    HitRowsExactly(number, ContentLines(lines[i + 2..end]));
  }

  lemma HitsBetweenAppend(number: string -> Option<real>, lines: seq<string>, m: string, s: nat, e: nat)
    requires s <= e <= |lines|
    ensures HitsBetween(number, lines + [m], s, e) == HitsBetween(number, lines, s, e)
  {
    assert (lines + [m])[s..e] == lines[s..e];
  }

  lemma {:induction false} EventsFromAppendMarker(number: string -> Option<real>, lines: seq<string>, m: string, i: nat)
    requires i <= |lines| && EventDisplayServer.IsMarker(m)
    requires |lines| == 0 || !EventDisplayServer.IsMarker(lines[|lines| - 1])
    ensures EventsFrom(number, lines + [m], i) == EventsFrom(number, lines, i)
    decreases |lines| - i
  {
    var all := lines + [m];
    if i == |lines| {
      assert all[i] == m;
    } else {
      assert all[i] == lines[i];
      if !EventDisplayServer.IsMarker(lines[i]) {
        EventsFromAppendMarker(number, lines, m, i + 1);
      } else {
        assert i + 1 < |lines|;
        assert all[i + 1] == lines[i + 1];
        EventDisplayServer.NextMarkerAppend(lines, m, i + 2);
        var end := EventDisplayServer.NextMarker(lines, i + 2);
        HitsBetweenAppend(number, lines, m, i + 2, end);
        EventsFromAppendMarker(number, lines, m, end);
      }
    }
  }

  /**
   * A marker on the last line opens no event: appending one to a file whose last line is not
   * a marker changes nothing.
   */
  lemma TrailingMarkerIgnored(number: string -> Option<real>, lines: seq<string>, m: string)
    requires EventDisplayServer.IsMarker(m)
    requires |lines| == 0 || !EventDisplayServer.IsMarker(lines[|lines| - 1])
    ensures EventsOfLines(number, lines + [m]) == EventsOfLines(number, lines)
  {
    EventsFromAppendMarker(number, lines, m, 0);
  }

  lemma MarkerOnLastLine(number: string -> Option<real>, lines: seq<string>, i: nat)
    requires i + 1 == |lines| && EventDisplayServer.IsMarker(lines[i])
    ensures EventsFrom(number, lines, i) == []
  {
  }

  lemma EventRead(number: string -> Option<real>, lines: seq<string>, i: nat, end: nat,
                  hits: seq<seq<Option<real>>>, events: map<Option<int>, EventData>)
    requires i + 1 < |lines| && EventDisplayServer.IsMarker(lines[i])
    requires end == EventDisplayServer.NextMarker(lines, i + 2) && hits == HitsBetween(number, lines, i + 2, end)
    ensures UpdateAll(events, EventsFrom(number, lines, i))
         == UpdateAll(events[EventNumberOf(Strip(lines[i])) := EventData(TrackParams(number, lines[i + 1]), hits)],
                      EventsFrom(number, lines, end))
  {
  }

  /** The hits loop of `parseEvents`: the rows of the lines from `start` up to the next marker. */
  method ReadHits(number: string -> Option<real>, lines: seq<string>, start: nat)
      returns (hits: seq<seq<Option<real>>>, i: nat)
    requires start <= |lines|
    ensures i == EventDisplayServer.NextMarker(lines, start)
    ensures hits == HitsBetween(number, lines, start, i)
  {
    i := start;
    hits := [];
    while i < |lines| && !EventDisplayServer.IsMarker(lines[i])
      invariant HitsLoop(number, lines, start, i, hits)
      decreases |lines| - i
    {
      var hitLine := Strip(lines[i]);
      ghost var before := hits;
      if hitLine != [] {
        var hitData := HitRow(number, hitLine);
        hits := hits + [hitData];
      }
      HitsNext(number, lines, start, i, before, hits);
      i := i + 1;
    }
  }

  /** What the hits loop knows after reaching line `i`: no marker yet, and the rows so far. */
  predicate HitsLoop(number: string -> Option<real>, lines: seq<string>, start: nat, i: nat, hits: seq<seq<Option<real>>>) {
    && start <= i <= |lines|
    && i <= EventDisplayServer.NextMarker(lines, start)
    && hits == HitsBetween(number, lines, start, i)
  }

  /**
   * `parseEvents`: the while loop over line indices, writing each event into the object.
   * `number` is JavaScript's `Number` on a non-empty token, NaN written as `None`.
   */
  method ParseEvents(number: string -> Option<real>, data: string) returns (events: map<Option<int>, EventData>)
    ensures events == ParsedEvents(number, data)
  {
    var lines := Split(data, '\n');
    ghost var result := EventsOfLines(number, lines);
    events := map[];
    var i := 0;
    while i < |lines|
      invariant 0 <= i <= |lines|
      invariant UpdateAll(events, EventsFrom(number, lines, i)) == result
      decreases |lines| - i
    {
      var line := Strip(lines[i]);
      if StartsWith(line, "Event") {
        var start := i;
        var eventNumber := EventNumberOf(line);
        i := i + 1;
        if i >= |lines| {
          MarkerOnLastLine(number, lines, start);
          break;
        }
        var trackParams := TrackParams(number, lines[i]);
        i := i + 1;
        var hits;
        hits, i := ReadHits(number, lines, i);
        EventRead(number, lines, start, i, hits, events);
        events := events[eventNumber := EventData(trackParams, hits)];
      } else {
        i := i + 1;
      }
    }
  }
}

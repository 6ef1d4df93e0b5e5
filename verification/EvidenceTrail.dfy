/** The append-only evidence trail, for any line codec: its parser, one append, and any run of appends. */
module EvidenceTrail {
  import opened Wrappers
  import opened Text
  import Markdown

  const MAX_EVIDENCE_FILE_BYTES := 4 * 1024 * 1024
  const MAX_EVIDENCE_EVENTS := 2048
  const MAX_EVIDENCE_LINE_BYTES := 24 * 1024
  // 9999-12-31T23:59:59.999999, in microseconds since 0001-01-01T00:00:00.
  const MAX_TIME := 315537897599999999

  datatype Reference = Reference(path: string, sha256: Option<string>)

  datatype Event = Event(sequence: nat, time: nat, requirement: string, evidence: string, decision: string,
                         artifact: Option<Reference>, verification: string, verdict: string)

  /** The public fields of an append request. */
  datatype Request = Request(requirement: string, evidence: string, decision: string,
                             artifact: Option<Reference>, verification: string, verdict: string)

  // ---- reading a whole trail ----

  /** A reader of single lines. */
  type Reader = string -> Option<Event>

  /** Lines the reader takes, with contiguous numbers and rising times. */
  function ReadEvents(read: Reader, lines: seq<string>, expected: nat, previous: Option<nat>): (r: Option<seq<Event>>)
    ensures r.Some? ==> |r.value| == |lines|
  {
    if lines == [] then Some([])
    else
      var e :- read(lines[0]);
      if e.sequence != expected || (previous.Some? && e.time <= previous.value) then None
      else
        var rest :- ReadEvents(read, lines[1..], expected + 1, Some(e.time));
        Some([e] + rest)
  }

  predicate InOrder(events: seq<Event>) {
    && (forall i :: 0 <= i < |events| ==> events[i].sequence == i + 1)
    && forall i, j :: 0 <= i < j < |events| ==> events[i].time < events[j].time
  }

  function LastTime(events: seq<Event>, previous: Option<nat>): Option<nat> {
    if events == [] then previous else Some(events[|events| - 1].time)
  }

  /** What reading a list of lines tells about the events. */
  lemma {:induction false} EventsRead(read: Reader, lines: seq<string>, expected: nat, previous: Option<nat>)
    requires ReadEvents(read, lines, expected, previous).Some?
    ensures var events := ReadEvents(read, lines, expected, previous).value;
            && (forall i :: 0 <= i < |events| ==> events[i].sequence == expected + i)
            && (forall i :: 0 <= i < |events| ==> previous.Some? ==> previous.value < events[i].time)
            && (forall i, j :: 0 <= i < j < |events| ==> events[i].time < events[j].time)
            && (forall i :: 0 <= i < |events| ==> read(lines[i]) == Some(events[i]))
  {
    if lines != [] {
      var e := read(lines[0]).value;
      EventsRead(read, lines[1..], expected + 1, Some(e.time));
    }
  }

  /** One more acceptable line at the end is one more event. */
  lemma {:induction false} EventsSnoc(read: Reader, lines: seq<string>, line: string, e: Event,
                                      expected: nat, previous: Option<nat>)
    requires ReadEvents(read, lines, expected, previous).Some? && read(line) == Some(e)
    requires var last := LastTime(ReadEvents(read, lines, expected, previous).value, previous);
             e.sequence == expected + |lines| && (last.Some? ==> last.value < e.time)
    ensures ReadEvents(read, lines + [line], expected, previous)
         == Some(ReadEvents(read, lines, expected, previous).value + [e])
  {
    if lines == [] {
      assert lines + [line] == [line] && [line][1..] == [] && [] + [e] == [e] + [] == [e];
    } else {
      var first := read(lines[0]).value;
      var rest := ReadEvents(read, lines[1..], expected + 1, Some(first.time)).value;
      assert LastTime(rest, Some(first.time)) == LastTime([first] + rest, previous);
      EventsSnoc(read, lines[1..], line, e, expected + 1, Some(first.time));
      assert (lines + [line])[1..] == lines[1..] + [line];
      assert [first] + (rest + [e]) == [first] + rest + [e];
    }
  }

  function ReadTrail(read: Reader, data: string): Option<seq<Event>> {
    if data == "" then Some([])
    else if !EndsWithNewline(data) then None
    else
      var lines := Split(data[..|data| - 1], '\n');
      if |lines| > MAX_EVIDENCE_EVENTS then None else ReadEvents(read, lines, 1, None)
  }

  /** Appending an acceptable line to a trail that reads gives a trail that reads, with that event added. */
  lemma TrailSnoc(read: Reader, data: string, line: string, e: Event)
    requires ReadTrail(read, data).Some? && |ReadTrail(read, data).value| < MAX_EVIDENCE_EVENTS
    requires read(line) == Some(e) && '\n' !in line
    requires var events := ReadTrail(read, data).value;
             e.sequence == |events| + 1 && (events != [] ==> events[|events| - 1].time < e.time)
    ensures ReadTrail(read, data + line + "\n") == Some(ReadTrail(read, data).value + [e])
  {
    var updated := data + line + "\n";
    SplitOfFree(line, '\n');
    assert updated[..|updated| - 1] == data + line;
    if data == "" {
      assert data + line == line;
      EventsSnoc(read, [], line, e, 1, None);
      assert [] + [line] == [line];
    } else {
      var body := data[..|data| - 1];
      assert data == body + ['\n'] && data + line == body + ['\n'] + line;
      Markdown.SplitConcat(body, line);
      EventsSnoc(read, Split(body, '\n'), line, e, 1, None);
    }
  }

  lemma TrailInOrder(read: Reader, data: string)
    requires ReadTrail(read, data).Some?
    ensures InOrder(ReadTrail(read, data).value)
  {
    if data != "" {
      EventsRead(read, Split(data[..|data| - 1], '\n'), 1, None);
    }
  }

  // ---- the reading loop ----

  method ParseTrail(read: Reader, data: string) returns (r: Option<seq<Event>>)
    ensures r == ReadTrail(read, data)
  {
    if data == "" {
      return Some([]);
    }
    if !EndsWithNewline(data) {
      return None;
    }
    var lines := Split(data[..|data| - 1], '\n');
    if |lines| > MAX_EVIDENCE_EVENTS {
      return None;
    }
    r := ReadLines(read, lines);
  }

  /** The loop over the lines, with the time of the one before. */
  method ReadLines(read: Reader, lines: seq<string>) returns (r: Option<seq<Event>>)
    ensures r == ReadEvents(read, lines, 1, None)
  {
    var events: seq<Event>, previous: Option<nat> := [], None;
    assert lines[0..] == lines;
    PrependUnits(events, ReadEvents(read, lines, 1, None));
    var i := 0;
    while i < |lines|
      invariant 0 <= i <= |lines|
      invariant ReadEvents(read, lines, 1, None) == Prepend(events, ReadEvents(read, lines[i..], i + 1, previous))
    {
      var e := read(lines[i]);
      assert lines[i..][0] == lines[i] && lines[i..][1..] == lines[i + 1..];
      if e.None? || e.value.sequence != i + 1 || (previous.Some? && e.value.time <= previous.value) {
        return None;
      }
      PrependJoins(events, [e.value], ReadEvents(read, lines[i + 1..], i + 2, Some(e.value.time)));
      events, previous := events + [e.value], Some(e.value.time);
      i := i + 1;
    }
    PrependUnits(events, None);
    return Some(events);
  }

  // ---- one append ----

  /** How a line is read and written, and how an event is made from a number, a time and a request. */
  datatype Codec = Codec(read: Reader, write: Event -> string, make: (nat, nat, Request) -> Option<Event>)

  /** The event holds what was asked for, each text stripped and under its own name. */
  predicate Recounts(e: Event, r: Request) {
    && e.requirement == Markdown.Strip(r.requirement) && e.evidence == Markdown.Strip(r.evidence)
    && e.decision == Markdown.Strip(r.decision) && e.verification == Markdown.Strip(r.verification)
    && e.verdict == r.verdict
    && match r.artifact
       case None => e.artifact == None
       case Some(a) => e.artifact == Some(Reference(Markdown.Strip(a.path), a.sha256))
  }

  predicate WritesBack(c: Codec, n: nat, t: nat, r: Request, e: Event) {
    && e.sequence == n && e.time == t && Recounts(e, r)
    && '\n' !in c.write(e)
    && (Utf8Size(c.write(e)) + 1 <= MAX_EVIDENCE_LINE_BYTES ==> c.read(c.write(e)) == Some(e))
  }

  /** What is made has the given number, time and contents, takes one line, and reads back from it. */
  ghost predicate Sound(c: Codec) {
    forall n: nat, t: nat, r: Request ::
      n >= 1 && t <= MAX_TIME && c.make(n, t, r).Some? ==> WritesBack(c, n, t, r, c.make(n, t, r).value)
  }

  /** The moment recorded: now, or one microsecond after the last event if the clock has not passed it. */
  function NextTime(events: seq<Event>, now: nat): (time: nat)
    ensures events == [] || events[|events| - 1].time < now ==> time == now
    ensures events != [] && now <= events[|events| - 1].time ==> time == events[|events| - 1].time + 1
  {
    if events == [] || events[|events| - 1].time < now then now else events[|events| - 1].time + 1
  }

  /** The bytes of the trail; a missing file is an empty trail, an empty file is an error. */
  function Data(file: Option<string>): Option<string> {
    if file.None? then Some("")
    else if file.value == "" || Utf8Size(file.value) > MAX_EVIDENCE_FILE_BYTES then None
    else file
  }

  predicate LineFits(line: string, data: string) {
    && Utf8Size(line) + 1 <= MAX_EVIDENCE_LINE_BYTES
    && Utf8Size(data + line + "\n") <= MAX_EVIDENCE_FILE_BYTES
  }

  function MakeNext(c: Codec, events: seq<Event>, r: Request, now: nat): Option<Event> {
    var time := NextTime(events, now);
    if time > MAX_TIME then None else c.make(|events| + 1, time, r)
  }

  /** There is room for one more event, at a time the calendar can still name. */
  predicate Fits(c: Codec, data: string, events: seq<Event>, r: Request, now: nat) {
    && |events| < MAX_EVIDENCE_EVENTS
    && MakeNext(c, events, r, now).Some?
    && LineFits(c.write(MakeNext(c, events, r, now).value), data)
  }

  /** The trail as it stands reads. */
  predicate TrailOk(c: Codec, file: Option<string>) {
    Data(file).Some? && ReadTrail(c.read, Data(file).value).Some?
  }

  function Bytes(file: Option<string>): string
    requires Data(file).Some?
  {
    Data(file).value
  }

  function Events(c: Codec, file: Option<string>): seq<Event>
    requires TrailOk(c, file)
  {
    ReadTrail(c.read, Bytes(file)).value
  }

  /** The trail reads, the request is in order, and every bound has room. */
  predicate InBounds(c: Codec, file: Option<string>, r: Request, now: nat, found: bool) {
    && found && c.make(1, now, r).Some?
    && TrailOk(c, file)
    && Fits(c, Bytes(file), Events(c, file), r, now)
  }

  function NewEvent(c: Codec, file: Option<string>, r: Request, now: nat): Event
    requires TrailOk(c, file) && MakeNext(c, Events(c, file), r, now).Some?
  {
    MakeNext(c, Events(c, file), r, now).value
  }

  function Updated(c: Codec, file: Option<string>, r: Request, now: nat): string
    requires TrailOk(c, file) && MakeNext(c, Events(c, file), r, now).Some?
  {
    Bytes(file) + c.write(NewEvent(c, file, r, now)) + "\n"
  }

  lemma {:induction false} LineSize(line: string)
    ensures Utf8Size(line + "\n") == Utf8Size(line) + 1
  {
    if line == "" {
      assert line + "\n" == "\n";
    } else {
      LineSize(line[1..]);
      assert (line + "\n")[1..] == line[1..] + "\n";
    }
  }

  /** The room there is: 2048 events, 24 KiB for a line with its newline, 4 MiB in all, and no moment after the last. */
  lemma RoomExactly(c: Codec, file: Option<string>, r: Request, now: nat, found: bool)
    requires TrailOk(c, file) && MakeNext(c, Events(c, file), r, now).Some?
    ensures InBounds(c, file, r, now, found)
            <==> && found && c.make(1, now, r).Some? && |Events(c, file)| + 1 <= 2_048
                 && Utf8Size(c.write(NewEvent(c, file, r, now)) + "\n") <= 24_576
                 && Utf8Size(Updated(c, file, r, now)) <= 4_194_304
    ensures NextTime(Events(c, file), now) <= 315_537_897_599_999_999
  {
    LineSize(c.write(NewEvent(c, file, r, now)));
  }

  /** A trail that reads is missing, or has some bytes and at most 4 MiB and 2048 events. */
  lemma TrailIsBounded(c: Codec, file: Option<string>)
    requires TrailOk(c, file)
    ensures file.Some? ==> file.value != "" && Utf8Size(file.value) <= 4_194_304
    ensures |Events(c, file)| <= 2_048 && (file.None? ==> Events(c, file) == [])
  {
  }

  /** The parse of the new bytes, before they are written, never refuses an append that is in bounds. */
  lemma ReparseAccepts(c: Codec, file: Option<string>, r: Request, now: nat)
    requires Sound(c) && InBounds(c, file, r, now, true)
    ensures ReadTrail(c.read, Updated(c, file, r, now)) == Some(Events(c, file) + [NewEvent(c, file, r, now)])
    ensures Data(Some(Updated(c, file, r, now))) == Some(Updated(c, file, r, now))
  {
    var events, e := Events(c, file), NewEvent(c, file, r, now);
    assert WritesBack(c, |events| + 1, NextTime(events, now), r, e);
    TrailSnoc(c.read, Bytes(file), c.write(e), e);
  }

  lemma NewEventIs(c: Codec, file: Option<string>, r: Request, now: nat)
    requires Sound(c) && TrailOk(c, file) && MakeNext(c, Events(c, file), r, now).Some?
    ensures var before, e := Events(c, file), NewEvent(c, file, r, now);
            e.sequence == |before| + 1 && e.time == NextTime(before, now) && Recounts(e, r)
  {
    var before := Events(c, file);
    assert WritesBack(c, |before| + 1, NextTime(before, now), r, NewEvent(c, file, r, now));
  }

  /** The log file, replaced as a whole under its lock. */
  class Trail {
    var file: Option<string>

    constructor ()
      ensures file == None
    {
      file := None;
    }

    /** Appends one event; found says that the artifact, if one is named, is there with its hash. */
    method Append(c: Codec, r: Request, now: nat, found: bool) returns (parsed: Option<seq<Event>>)
      requires Sound(c) && now <= MAX_TIME
      modifies this
      ensures parsed.Some? <==> InBounds(c, old(file), r, now, found)
      ensures parsed.Some? ==> file == Some(Updated(c, old(file), r, now))
                               && parsed.value == Events(c, old(file)) + [NewEvent(c, old(file), r, now)]
      ensures parsed.None? ==> file == old(file)
      // The last event is numbered next, says what was asked, and is dated now if the clock has passed the one before.
      ensures parsed.Some? ==>
                && var before, e := parsed.value[..|parsed.value| - 1], parsed.value[|parsed.value| - 1];
                && e.sequence == |before| + 1 && Recounts(e, r)
                && (before == [] || before[|before| - 1].time < now ==> e.time == now)
                && (before != [] && now <= before[|before| - 1].time ==> e.time == before[|before| - 1].time + 1)
    {
      if !found || c.make(1, now, r).None? || Data(file).None? {
        return None;
      }
      var data := Data(file).value;
      var events := ParseTrail(c.read, data);
      if events.None? || |events.value| >= MAX_EVIDENCE_EVENTS {
        return None;
      }
      var e := MakeNext(c, events.value, r, now);
      if e.None? {
        return None;
      }
      var line := c.write(e.value);
      if Utf8Size(line) + 1 > MAX_EVIDENCE_LINE_BYTES {
        return None;
      }
      var updated := data + line + "\n";
      if Utf8Size(updated) > MAX_EVIDENCE_FILE_BYTES {
        return None;
      }
      parsed := ParseTrail(c.read, updated);
      ReparseAccepts(c, file, r, now);
      NewEventIs(c, file, r, now);
      if parsed.Some? {
        file := Some(updated);
      }
    }
  }

  // ---- many appends ----

  /** One try to append: its request, the clock, and whether its artifact is found. */
  datatype Attempt = Attempt(request: Request, now: nat, found: bool)

  function After(c: Codec, file: Option<string>, a: Attempt): Option<string> {
    if InBounds(c, file, a.request, a.now, a.found) then Some(Updated(c, file, a.request, a.now)) else file
  }

  function AfterAll(c: Codec, file: Option<string>, attempts: seq<Attempt>): Option<string>
    decreases |attempts|
  {
    if attempts == [] then file else AfterAll(c, After(c, file, attempts[0]), attempts[1..])
  }

  /** Any run of appends, with any clock, only adds bytes and events at the end and keeps both in order. */
  lemma {:induction false} HistoryOnlyGrows(c: Codec, file: Option<string>, attempts: seq<Attempt>)
    requires Sound(c) && TrailOk(c, file)
    ensures TrailOk(c, AfterAll(c, file, attempts))
    ensures Bytes(file) <= Bytes(AfterAll(c, file, attempts))
    ensures Events(c, file) <= Events(c, AfterAll(c, file, attempts))
    ensures InOrder(Events(c, AfterAll(c, file, attempts)))
    decreases |attempts|
  {
    if attempts == [] {
      TrailInOrder(c.read, Bytes(file));
    } else {
      var a := attempts[0];
      if InBounds(c, file, a.request, a.now, a.found) {
        ReparseAccepts(c, file, a.request, a.now);
      }
      HistoryOnlyGrows(c, After(c, file, a), attempts[1..]);
    }
  }

  predicate FromOne(e: Event, attempts: seq<Attempt>) {
    exists k :: 0 <= k < |attempts| && Recounts(e, attempts[k].request)
  }

  /** Every event a run of appends adds says what one of its requests asked for. */
  lemma {:induction false} NewEventsRecount(c: Codec, file: Option<string>, attempts: seq<Attempt>, i: nat)
    requires Sound(c) && TrailOk(c, file) && TrailOk(c, AfterAll(c, file, attempts))
    requires |Events(c, file)| <= i < |Events(c, AfterAll(c, file, attempts))|
    ensures FromOne(Events(c, AfterAll(c, file, attempts))[i], attempts)
    decreases |attempts|
  {
    var a, next := attempts[0], After(c, file, attempts[0]);
    var last := Events(c, AfterAll(c, file, attempts))[i];
    if InBounds(c, file, a.request, a.now, a.found) {
      ReparseAccepts(c, file, a.request, a.now);
      NewEventIs(c, file, a.request, a.now);
    }
    HistoryOnlyGrows(c, next, attempts[1..]);
    if i < |Events(c, next)| {
      assert last == Events(c, next)[i] && Recounts(last, attempts[0].request);
    } else {
      NewEventsRecount(c, next, attempts[1..], i);
      var k :| 0 <= k < |attempts| - 1 && Recounts(last, attempts[1..][k].request);
      assert attempts[k + 1] == attempts[1..][k];
    }
  }
}

/** Reading a unified patch: lines into hunks, checked against the counts the headers announce. */
module UnifiedPatch {
  import opened Wrappers
  import opened Text
  import opened HunkHeader

  // ---- one line ----

  /** What one line of a patch is: the reader tries the forms in this order. */
  datatype PatchLine =
    | HunkLine(header: Header)
    | Marker
    | Content(prefix: char, text: string)
    | Unreadable

  const NO_NEWLINE := "\\ No newline at end of file"

  predicate IsPrefix(c: char) {
    c == ' ' || c == '+' || c == '-'
  }

  function Classify(line: string): PatchLine {
    var header := ParseHeader(line);
    if header.Some? then HunkLine(header.value)
    else if line == NO_NEWLINE then Marker
    else if line != "" && IsPrefix(line[0]) then Content(line[0], line[1..])
    else Unreadable
  }

  function ClassifyAll(lines: seq<string>): seq<PatchLine> {
    seq(|lines|, i requires 0 <= i < |lines| => Classify(lines[i]))
  }

  lemma ClassifyContent(prefix: char, text: string)
    requires IsPrefix(prefix)
    ensures Classify([prefix] + text) == Content(prefix, text)
  {
    var line := [prefix] + text;
    assert line[0] == prefix && line[1..] == text;
    assert ParseHeader(line).None?;
    assert NO_NEWLINE[0] == '\\';
  }

  lemma ClassifyMarker()
    ensures Classify(NO_NEWLINE) == Marker
  {
    assert NO_NEWLINE[0] == '\\';
    assert ParseHeader(NO_NEWLINE).None?;
  }

  lemma ClassifyHeaderLine(line: string, header: Header)
    requires ParseHeader(line) == Some(header)
    ensures ClassifyAll([line]) == [HunkLine(header)]
  {
  }

  // ---- hunks and their counts ----

  datatype Hunk = Hunk(header: Header, lines: seq<PatchLine>)

  predicate IsBody(lines: seq<PatchLine>) {
    forall i :: 0 <= i < |lines| ==> Readable(lines[i])
  }

  predicate Readable(line: PatchLine) {
    line.Marker? || (line.Content? && IsPrefix(line.prefix))
  }

  predicate Starts(line: PatchLine, c: char) {
    line.Content? && line.prefix == c
  }

  /** How many lines carry the given prefix. */
  function Count(lines: seq<PatchLine>, c: char): nat {
    if lines == [] then 0
    else Count(lines[..|lines| - 1], c) + (if Starts(lines[|lines| - 1], c) then 1 else 0)
  }

  function OldCount(lines: seq<PatchLine>): nat {
    Count(lines, ' ') + Count(lines, '-')
  }

  function NewCount(lines: seq<PatchLine>): nat {
    Count(lines, ' ') + Count(lines, '+')
  }

  function Total(hunks: seq<Hunk>, c: char): nat {
    if hunks == [] then 0
    else Total(hunks[..|hunks| - 1], c) + Count(hunks[|hunks| - 1].lines, c)
  }

  lemma CountSnoc(lines: seq<PatchLine>, line: PatchLine, c: char)
    ensures Count(lines + [line], c) == Count(lines, c) + (if Starts(line, c) then 1 else 0)
  {
    assert (lines + [line])[..|lines|] == lines;
  }

  lemma {:induction false} CountConcat(a: seq<PatchLine>, b: seq<PatchLine>, c: char)
    ensures Count(a + b, c) == Count(a, c) + Count(b, c)
  {
    if b == [] {
      assert a + b == a;
    } else {
      assert (a + b)[..|a + b| - 1] == a + b[..|b| - 1];
      CountConcat(a, b[..|b| - 1], c);
    }
  }

  lemma TotalSnoc(hunks: seq<Hunk>, hunk: Hunk, c: char)
    ensures Total(hunks + [hunk], c) == Total(hunks, c) + Count(hunk.lines, c)
  {
    assert (hunks + [hunk])[..|hunks|] == hunks;
  }

  lemma {:induction false} TotalConcat(a: seq<Hunk>, b: seq<Hunk>, c: char)
    ensures Total(a + b, c) == Total(a, c) + Total(b, c)
  {
    if b == [] {
      assert a + b == a;
    } else {
      assert (a + b)[..|a + b| - 1] == a + b[..|b| - 1];
      TotalConcat(a, b[..|b| - 1], c);
    }
  }

  // ---- the grammar ----

  /** How many lines stand before the next header. */
  function BodyRun(lines: seq<PatchLine>): (n: nat)
    ensures n <= |lines|
    ensures forall i :: 0 <= i < n ==> !lines[i].HunkLine?
    ensures n < |lines| ==> lines[n].HunkLine?
  {
    if lines == [] || lines[0].HunkLine? then 0 else 1 + BodyRun(lines[1..])
  }

  /** Whether a body has the shape and the line counts its header announces. */
  predicate Fits(header: Header, body: seq<PatchLine>) {
    && IsBody(body)
    && OldCount(body) == header.oldCount
    && NewCount(body) == header.newCount
  }

  /** The hunks that lines consist of: each a header and the fitting body that follows it. */
  function ReadHunks(lines: seq<PatchLine>): Option<seq<Hunk>> {
    if lines == [] then Some([])
    else if !lines[0].HunkLine? then None
    else
      var header, n := lines[0].header, BodyRun(lines[1..]);
      var body := lines[1..][..n];
      if !Fits(header, body) then None
      else Prepend([Hunk(header, body)], ReadHunks(lines[1..][n..]))
  }

  /** What reading the rest of the lines adds to hunks read before. */
  predicate Malformed(patch: string) {
    patch == "" || !Plain(patch)
  }

  /** What classified lines say when they agree with the counts reported beside them. */
  function ReadLines(lines: seq<PatchLine>, additions: nat, deletions: nat): Option<seq<Hunk>> {
    if lines == [] then None
    else
      var hunks :- ReadHunks(lines);
      if Total(hunks, '+') == additions && Total(hunks, '-') == deletions then Some(hunks) else None
  }

  function ReadPatch(patch: string, additions: nat, deletions: nat): Option<seq<Hunk>> {
    if Malformed(patch) then None
    else ReadLines(ClassifyAll(SplitLines(patch)), additions, deletions)
  }

  // ---- the reader with running counts ----

  /** lines[s..k] is a header followed by k - s - 1 lines that are no headers. */
  predicate OpenHunk(lines: seq<PatchLine>, s: nat, k: nat) {
    && s < k <= |lines|
    && lines[s].HunkLine?
    && forall i :: s < i < k ==> !lines[i].HunkLine?
  }

  /** A hunk that is complete where the next header stands is the one the grammar reads. */
  lemma HunkEnds(lines: seq<PatchLine>, s: nat, k: nat)
    requires OpenHunk(lines, s, k)
    requires k < |lines| ==> lines[k].HunkLine?
    ensures var header, body := lines[s].header, lines[s + 1..k];
            ReadHunks(lines[s..])
            == if Fits(header, body) then Prepend([Hunk(header, body)], ReadHunks(lines[k..]))
               else None
  {
    var rest := lines[s..][1..];
    assert rest == lines[s + 1..];
    assert BodyRun(rest) == k - s - 1;
    assert rest[..k - s - 1] == lines[s + 1..k];
    assert rest[k - s - 1..] == lines[k..];
  }

  /** Once a body has a bad line or too many lines, no continuation repairs it. */
  lemma HunkRejected(lines: seq<PatchLine>, s: nat, k: nat)
    requires OpenHunk(lines, s, k)
    requires var header, seen := lines[s].header, lines[s + 1..k];
             !IsBody(seen) || OldCount(seen) > header.oldCount || NewCount(seen) > header.newCount
    ensures ReadHunks(lines[s..]).None?
  {
    var rest := lines[s..][1..];
    assert rest == lines[s + 1..];
    var n := BodyRun(rest);
    assert n >= k - s - 1;
    var body, seen := rest[..n], lines[s + 1..k];
    BodyGrows(seen, body);
    assert !Fits(lines[s].header, body);
  }

  lemma BodyGrows(seen: seq<PatchLine>, body: seq<PatchLine>)
    requires seen <= body
    ensures IsBody(body) ==> IsBody(seen)
    ensures OldCount(seen) <= OldCount(body) && NewCount(seen) <= NewCount(body)
  {
    var more := body[|seen|..];
    assert body == seen + more;
    CountConcat(seen, more, ' ');
    CountConcat(seen, more, '+');
    CountConcat(seen, more, '-');
  }

  /** What the one-pass reader holds between two lines. */
  datatype Reading = Reading(hunks: seq<Hunk>, header: Option<Header>, body: seq<PatchLine>,
                             consumedOld: nat, consumedNew: nat, additions: nat, deletions: nat)

  const FIRST := Reading([], None, [], 0, 0, 0, 0)

  function One(b: bool): nat {
    if b then 1 else 0
  }

  /** append_hunk: closes the hunk in hand, which must be complete. */
  function CloseHunk(r: Reading): Option<Reading> {
    if r.header.None? || r.consumedOld != r.header.value.oldCount
       || r.consumedNew != r.header.value.newCount then None
    else Some(r.(hunks := r.hunks + [Hunk(r.header.value, r.body)]))
  }

  function TakeHeader(r: Reading, header: Header): Option<Reading> {
    var closed :- if r.header.Some? then CloseHunk(r) else Some(r);
    Some(closed.(header := Some(header), body := [], consumedOld := 0, consumedNew := 0))
  }

  function TakeBodyLine(r: Reading, line: PatchLine): Option<Reading> {
    if r.header.None? || !Readable(line) then None
    else
      var next := r.(body := r.body + [line],
                     consumedOld := r.consumedOld + One(Starts(line, ' ') || Starts(line, '-')),
                     consumedNew := r.consumedNew + One(Starts(line, ' ') || Starts(line, '+')),
                     additions := r.additions + One(Starts(line, '+')),
                     deletions := r.deletions + One(Starts(line, '-')));
      if next.consumedOld > r.header.value.oldCount || next.consumedNew > r.header.value.newCount
      then None else Some(next)
  }

  function TakeLine(r: Reading, line: PatchLine): Option<Reading> {
    if line.HunkLine? then TakeHeader(r, line.header) else TakeBodyLine(r, line)
  }

  /** The reader after k lines, None once it has refused one. */
  function ReadingAfter(lines: seq<PatchLine>, k: nat): Option<Reading>
    requires k <= |lines|
  {
    if k == 0 then Some(FIRST)
    else
      var r :- ReadingAfter(lines, k - 1);
      TakeLine(r, lines[k - 1])
  }

  /** A reading after k lines says where the open hunk began and counts what came since. */
  ghost predicate Counted(lines: seq<PatchLine>, k: nat, s: nat, r: Reading) {
    && OpenHunk(lines, s, k)
    && r.header == Some(lines[s].header) && r.body == lines[s + 1..k] && IsBody(r.body)
    && r.consumedOld == OldCount(r.body) && r.consumedNew == NewCount(r.body)
    && r.additions == Total(r.hunks, '+') + Count(r.body, '+')
    && r.deletions == Total(r.hunks, '-') + Count(r.body, '-')
  }

  lemma CountedBodyLine(lines: seq<PatchLine>, k: nat, s: nat, r: Reading)
    requires k < |lines| && Counted(lines, k, s, r) && !lines[k].HunkLine?
    ensures var next := TakeBodyLine(r, lines[k]);
            if next.Some? then next.value.hunks == r.hunks && Counted(lines, k + 1, s, next.value)
            else ReadHunks(lines[s..]).None?
  {
    var line, body := lines[k], r.body + [lines[k]];
    assert body == lines[s + 1..k + 1];
    CountSnoc(r.body, line, ' ');
    CountSnoc(r.body, line, '+');
    CountSnoc(r.body, line, '-');
    if TakeBodyLine(r, line).None? {
      assert !IsBody(body) || OldCount(body) > r.header.value.oldCount
             || NewCount(body) > r.header.value.newCount by {
        assert body[k - s - 1] == line;
      }
      HunkRejected(lines, s, k + 1);
    }
  }

  lemma CountedClose(lines: seq<PatchLine>, k: nat, s: nat, r: Reading)
    requires Counted(lines, k, s, r) && (k < |lines| ==> lines[k].HunkLine?)
    ensures var closed := CloseHunk(r);
            if closed.None? then ReadHunks(lines[s..]).None?
            else && ReadHunks(lines[s..]) == Prepend([Hunk(r.header.value, r.body)], ReadHunks(lines[k..]))
                 && r.additions == Total(closed.value.hunks, '+')
                 && r.deletions == Total(closed.value.hunks, '-')
  {
    HunkEnds(lines, s, k);
    TotalSnoc(r.hunks, Hunk(r.header.value, r.body), '+');
    TotalSnoc(r.hunks, Hunk(r.header.value, r.body), '-');
  }

  /** What was read is in r.hunks, and the rest is still to be read from s on. */
  ghost predicate Agrees(lines: seq<PatchLine>, k: nat, s: nat, r: Reading) {
    && Counted(lines, k, s, r)
    && ReadHunks(lines) == Prepend(r.hunks, ReadHunks(lines[s..]))
  }

  lemma AgreesAtHeader(lines: seq<PatchLine>, k: nat, s: nat, r: Reading)
    requires k < |lines| && lines[k].HunkLine? && Agrees(lines, k, s, r)
    ensures var next := TakeLine(r, lines[k]);
            if next.None? then ReadHunks(lines).None? else Agrees(lines, k + 1, k, next.value)
  {
    CountedClose(lines, k, s, r);
    PrependJoins(r.hunks, [Hunk(r.header.value, r.body)], ReadHunks(lines[k..]));
    assert lines[k + 1..k + 1] == [];
  }

  /** The running reader and the grammar agree after every line. */
  lemma {:induction false} ReadingAgrees(lines: seq<PatchLine>, k: nat) returns (s: nat)
    requires 0 < k <= |lines|
    ensures var r := ReadingAfter(lines, k);
            if r.None? then ReadHunks(lines).None? else Agrees(lines, k, s, r.value)
  {
    s := 0;
    if k == 1 {
      assert ReadingAfter(lines, 0) == Some(FIRST);
      ReadingFirst(lines);
    } else {
      s := ReadingAgrees(lines, k - 1);
      var before := ReadingAfter(lines, k - 1);
      if before.Some? {
        if lines[k - 1].HunkLine? {
          AgreesAtHeader(lines, k - 1, s, before.value);
          s := k - 1;
        } else {
          CountedBodyLine(lines, k - 1, s, before.value);
        }
      }
    }
  }

  lemma ReadingFirst(lines: seq<PatchLine>)
    requires |lines| > 0
    ensures var r := TakeLine(FIRST, lines[0]);
            if r.None? then ReadHunks(lines).None?
            else Counted(lines, 1, 0, r.value)
                 && ReadHunks(lines) == Prepend(r.value.hunks, ReadHunks(lines[0..]))
  {
    assert lines[0..] == lines && lines[1..1] == [];
    PrependUnits([], ReadHunks(lines));
  }

  /** What the one-pass reader returns. */
  function Scanned(lines: seq<PatchLine>, additions: nat, deletions: nat): Option<seq<Hunk>> {
    var r :- ReadingAfter(lines, |lines|);
    var closed :- CloseHunk(r);
    if r.additions == additions && r.deletions == deletions then Some(closed.hunks) else None
  }

  /** The one-pass reader accepts exactly what the grammar reads, with the same hunks. */
  lemma RunningReaderIsGrammar(lines: seq<PatchLine>, additions: nat, deletions: nat)
    ensures Scanned(lines, additions, deletions) == ReadLines(lines, additions, deletions)
  {
    if lines != [] {
      var s := ReadingAgrees(lines, |lines|);
      var last := ReadingAfter(lines, |lines|);
      if last.Some? {
        var r := last.value;
        CountedClose(lines, |lines|, s, r);
        if CloseHunk(r).Some? {
          var hunk := Hunk(r.header.value, r.body);
          PrependJoins(r.hunks, [hunk], ReadHunks(lines[|lines|..]));
          PrependUnits(r.hunks + [hunk], None);
        }
      }
    }
  }

  lemma {:induction false} ReadingRefused(lines: seq<PatchLine>, k: nat)
    requires k <= |lines| && ReadingAfter(lines, k).None?
    ensures ReadingAfter(lines, |lines|).None?
    decreases |lines| - k
  {
    if k < |lines| {
      ReadingRefused(lines, k + 1);
    }
  }

  method ParseUnifiedPatch(patch: string, additions: nat, deletions: nat)
    returns (r: Option<seq<Hunk>>)
    ensures r == ReadPatch(patch, additions, deletions)
  {
    if Malformed(patch) {
      return None;
    }
    var lines := ClassifyAll(SplitLines(patch));
    r := ParseLines(lines, additions, deletions);
    RunningReaderIsGrammar(lines, additions, deletions);
  }

  /** One pass that counts as it goes and stops at the first fault. */
  method ParseLines(lines: seq<PatchLine>, additions: nat, deletions: nat)
    returns (r: Option<seq<Hunk>>)
    ensures r == Scanned(lines, additions, deletions)
  {
    var expectedOld: nat, expectedNew: nat := 0, 0;
    var consumedOld: nat, consumedNew: nat := 0, 0;
    var actualAdditions: nat, actualDeletions: nat := 0, 0;
    var body, hunks := [], [];
    var header: Option<Header> := None;
    for k := 0 to |lines|
      invariant ReadingAfter(lines, k)
                == Some(Reading(hunks, header, body, consumedOld, consumedNew,
                                actualAdditions, actualDeletions))
      invariant header.Some? ==> expectedOld == header.value.oldCount
                                 && expectedNew == header.value.newCount
    {
      var line := lines[k];
      if ReadingAfter(lines, k + 1).None? {
        ReadingRefused(lines, k + 1);
      }
      if line.HunkLine? {
        if header.Some? {
          if consumedOld != expectedOld || consumedNew != expectedNew {
            return None;
          }
          hunks := hunks + [Hunk(header.value, body)];
        }
        header := Some(line.header);
        expectedOld, expectedNew := line.header.oldCount, line.header.newCount;
        consumedOld, consumedNew, body := 0, 0, [];
      } else {
        if header.None? || !Readable(line) {
          return None;
        }
        consumedOld := consumedOld + One(Starts(line, ' ') || Starts(line, '-'));
        consumedNew := consumedNew + One(Starts(line, ' ') || Starts(line, '+'));
        actualAdditions := actualAdditions + One(Starts(line, '+'));
        actualDeletions := actualDeletions + One(Starts(line, '-'));
        if consumedOld > expectedOld || consumedNew > expectedNew {
          return None;
        }
        body := body + [line];
      }
    }
    if header.None? || consumedOld != expectedOld || consumedNew != expectedNew {
      return None;
    }
    hunks := hunks + [Hunk(header.value, body)];
    if actualAdditions != additions || actualDeletions != deletions {
      return None;
    }
    r := Some(hunks);
  }
}

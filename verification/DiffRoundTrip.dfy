/** Printing, reading and replaying a patch undo each other, and exactly when. */
module DiffRoundTrip {
  import opened Wrappers
  import opened Text
  import opened HunkHeader
  import opened UnifiedPatch
  import opened PatchReplay
  import opened EditScript

  // ---- reading back what was printed ----

  function HeaderOf(c: Chunk): Header
    requires Ordered(c)
  {
    HeaderFor(c.oldStart, c.oldStop, c.newStart, c.newStop)
  }

  function HunkOf(c: Chunk): Hunk
    requires Ordered(c)
  {
    Hunk(HeaderOf(c), EventItems(c.events))
  }

  function HunksOf(chunks: seq<Chunk>): seq<Hunk>
    requires AllOrdered(chunks)
  {
    if chunks == [] then [] else [HunkOf(chunks[0])] + HunksOf(chunks[1..])
  }

  function ChunkItems(c: Chunk): seq<PatchLine>
    requires Ordered(c)
  {
    [HunkLine(HeaderOf(c))] + EventItems(c.events)
  }

  function ChunksItems(chunks: seq<Chunk>): seq<PatchLine>
    requires AllOrdered(chunks)
  {
    if chunks == [] then [] else ChunkItems(chunks[0]) + ChunksItems(chunks[1..])
  }

  predicate Prefixed(events: seq<Event>) {
    forall k :: 0 <= k < |events| ==> IsPrefix(events[k].prefix)
  }

  predicate AllPrefixed(chunks: seq<Chunk>) {
    forall k :: 0 <= k < |chunks| ==> Prefixed(chunks[k].events)
  }

  lemma ClassifyConcat(a: seq<string>, b: seq<string>)
    ensures ClassifyAll(a + b) == ClassifyAll(a) + ClassifyAll(b)
  {
  }

  lemma ClassifyToken(e: Event)
    requires IsPrefix(e.prefix)
    ensures ClassifyAll(TokenLines(e)) == TokenItems(e)
  {
    ClassifyContent(e.prefix, e.token.line);
    ClassifyMarker();
  }

  lemma {:induction false} ClassifyEvents(events: seq<Event>)
    requires Prefixed(events)
    ensures ClassifyAll(EventLines(events)) == EventItems(events)
  {
    if events != [] {
      ClassifyToken(events[0]);
      ClassifyEvents(events[1..]);
      ClassifyConcat(TokenLines(events[0]), EventLines(events[1..]));
    }
  }

  lemma ClassifyHeader(c: Chunk)
    requires Ordered(c)
    ensures ClassifyAll([HeaderLine(c)]) == [HunkLine(HeaderOf(c))]
  {
    HeaderRoundTrip(c.oldStart, c.oldStop, c.newStart, c.newStop);
    ClassifyHeaderLine(HeaderLine(c), HeaderOf(c));
  }

  lemma ClassifyChunk(c: Chunk)
    requires Ordered(c) && Prefixed(c.events)
    ensures ClassifyAll(ChunkLines(c)) == ChunkItems(c)
  {
    ClassifyHeader(c);
    ClassifyEvents(c.events);
    ClassifyConcat([HeaderLine(c)], EventLines(c.events));
  }

  lemma {:induction false} ClassifyChunks(chunks: seq<Chunk>)
    requires AllOrdered(chunks) && AllPrefixed(chunks)
    ensures ClassifyAll(ChunksLines(chunks)) == ChunksItems(chunks)
  {
    if chunks != [] {
      ClassifyChunk(chunks[0]);
      ClassifyChunks(chunks[1..]);
      ClassifyConcat(ChunkLines(chunks[0]), ChunksLines(chunks[1..]));
    }
  }

  // ---- counts ----

  lemma CountToken(e: Event, c: char)
    ensures Count(TokenItems(e), c) == if e.prefix == c then 1 else 0
  {
    var items := [Content(e.prefix, e.token.line)];
    assert [] + items == items;
    CountSnoc([], Content(e.prefix, e.token.line), c);
    CountSnoc(items, Marker, c);
  }

  lemma {:induction false} CountEvents(events: seq<Event>, c: char)
    ensures Count(EventItems(events), c) == Shown(events, c)
  {
    if events != [] {
      CountEvents(events[1..], c);
      CountToken(events[0], c);
      CountConcat(TokenItems(events[0]), EventItems(events[1..]), c);
    }
  }

  lemma {:induction false} TotalChunks(chunks: seq<Chunk>, c: char)
    requires AllOrdered(chunks)
    ensures Total(HunksOf(chunks), c) == ShownInAll(chunks, c)
  {
    if chunks != [] {
      var hunk := HunkOf(chunks[0]);
      TotalChunks(chunks[1..], c);
      CountEvents(chunks[0].events, c);
      TotalSnoc([], hunk, c);
      assert [] + [hunk] == [hunk];
      TotalConcat([hunk], HunksOf(chunks[1..]), c);
    }
  }

  lemma {:induction false} WalkCounts(events: seq<Event>, i: nat, j: nat, iEnd: nat, jEnd: nat,
                                      before: seq<Token>, after: seq<Token>)
    requires Walks(events, i, j, iEnd, jEnd, before, after)
    ensures Prefixed(events)
    ensures Shown(events, ' ') + Shown(events, '-') == iEnd - i
    ensures Shown(events, ' ') + Shown(events, '+') == jEnd - j
    decreases |events|
  {
    if events != [] {
      WalkCounts(events[1..], if events[0].prefix != '+' then i + 1 else i,
                 if events[0].prefix != '-' then j + 1 else j, iEnd, jEnd, before, after);
      assert forall k :: 0 < k < |events| ==> events[k] == events[1..][k - 1];
    }
  }

  lemma {:induction false} EventItemsAreBody(events: seq<Event>)
    requires Prefixed(events)
    ensures IsBody(EventItems(events))
  {
    if events != [] {
      EventItemsAreBody(events[1..]);
    }
  }

  /** The body printed for a chunk has the counts its header announces. */
  lemma ChunkFits(c: Chunk, before: seq<Token>, after: seq<Token>)
    requires ValidChunk(c, before, after)
    ensures Prefixed(c.events) && Fits(HeaderOf(c), EventItems(c.events))
  {
    HeaderRoundTrip(c.oldStart, c.oldStop, c.newStart, c.newStop);
    WalkCounts(c.events, c.oldStart, c.newStart, c.oldStop, c.newStop, before, after);
    EventItemsAreBody(c.events);
    CountEvents(c.events, ' ');
    CountEvents(c.events, '+');
    CountEvents(c.events, '-');
  }

  predicate AtHunk(rest: seq<PatchLine>) {
    rest == [] || rest[0].HunkLine?
  }

  lemma ReadHunkThen(header: Header, body: seq<PatchLine>, rest: seq<PatchLine>)
    requires Fits(header, body) && AtHunk(rest)
    ensures ReadHunks([HunkLine(header)] + body + rest)
            == Prepend([Hunk(header, body)], ReadHunks(rest))
  {
    var lines := [HunkLine(header)] + body + rest;
    var k := 1 + |body|;
    assert lines[0..] == lines;
    assert lines[1..k] == body && lines[k..] == rest;
    assert forall i :: 0 < i < k ==> lines[i] == body[i - 1];
    HunkEnds(lines, 0, k);
  }

  predicate AllFit(chunks: seq<Chunk>) {
    && AllOrdered(chunks)
    && forall k :: 0 <= k < |chunks| ==>
         Prefixed(chunks[k].events) && Fits(HeaderOf(chunks[k]), EventItems(chunks[k].events))
  }

  lemma ItemsAtHunk(chunks: seq<Chunk>, rest: seq<PatchLine>)
    requires AllOrdered(chunks) && AtHunk(rest)
    ensures AtHunk(ChunksItems(chunks) + rest)
  {
    if chunks == [] {
      assert ChunksItems(chunks) + rest == rest;
    }
  }

  /** The printed chunks read back as their hunks, whatever hunks follow. */
  lemma {:induction false} ReadChunksThen(chunks: seq<Chunk>, rest: seq<PatchLine>)
    requires AllFit(chunks) && AtHunk(rest)
    ensures ReadHunks(ChunksItems(chunks) + rest) == Prepend(HunksOf(chunks), ReadHunks(rest))
    decreases |chunks|
  {
    if chunks == [] {
      assert ChunksItems(chunks) + rest == rest;
      PrependUnits([], ReadHunks(rest));
    } else {
      var c, more := chunks[0], ChunksItems(chunks[1..]) + rest;
      ReadChunksThen(chunks[1..], rest);
      ItemsAtHunk(chunks[1..], rest);
      ReadHunkThen(HeaderOf(c), EventItems(c.events), more);
      ChunkThenItems(chunks, rest);
      PrependJoins([HunkOf(c)], HunksOf(chunks[1..]), ReadHunks(rest));
    }
  }

  lemma ChunkThenItems(chunks: seq<Chunk>, rest: seq<PatchLine>)
    requires AllOrdered(chunks) && chunks != []
    ensures ChunksItems(chunks) + rest
            == [HunkLine(HeaderOf(chunks[0]))] + EventItems(chunks[0].events) + (ChunksItems(chunks[1..]) + rest)
  {
  }

  // ---- replaying what was read ----

  /** The last line lacks its newline. */
  predicate Unended(l: Lines) {
    l.lines != [] && !l.finalNewline
  }

  /** A replay that has turned the first i old tokens into the first j new ones. */
  ghost predicate At(blob: Lines, goal: Lines, st: Replay, i: nat, j: nat) {
    && st.cursor == i <= |blob.lines|
    && j <= |goal.lines| && st.output == goal.lines[..j]
    && (st.oldMark <==> i == |blob.lines| && Unended(blob))
    && st.newMark == if j == |goal.lines| && Unended(goal) then Some(j) else None
  }

  function NextOld(e: Event, i: nat): nat {
    if e.prefix != '+' then i + 1 else i
  }

  function NextNew(e: Event, j: nat): nat {
    if e.prefix != '-' then j + 1 else j
  }

  /** The event shows the token at (i, j). */
  predicate Fitting(e: Event, i: nat, j: nat, blob: Lines, goal: Lines) {
    && IsPrefix(e.prefix)
    && (e.prefix != '+' ==> i < |blob.lines| && Tokens(blob)[i] == e.token)
    && (e.prefix != '-' ==> j < |goal.lines| && Tokens(goal)[j] == e.token)
  }

  lemma ReplayShownLine(blob: Lines, goal: Lines, st: Replay, i: nat, j: nat, e: Event)
    requires At(blob, goal, st, i, j) && Fitting(e, i, j, blob, goal)
    ensures var next := ReplayContent(blob, st, e.prefix, e.token.line);
            && next.Some?
            && next.value.cursor == NextOld(e, i)
            && next.value.output == goal.lines[..NextNew(e, j)]
            && next.value.prev == Some(e.prefix)
            && next.value.oldMark == st.oldMark && next.value.newMark == st.newMark
  {
    if e.prefix != '-' {
      assert goal.lines[..j + 1] == goal.lines[..j] + [goal.lines[j]];
    }
  }

  /** One token with its marker moves the replay one token on. */
  lemma ReplayToken(blob: Lines, goal: Lines, st: Replay, i: nat, j: nat, e: Event)
    requires At(blob, goal, st, i, j) && Fitting(e, i, j, blob, goal)
    ensures var next := ReplayLines(blob, st, TokenItems(e));
            next.Some? && At(blob, goal, next.value, NextOld(e, i), NextNew(e, j))
  {
    ReplayShownLine(blob, goal, st, i, j, e);
    var shown := ReplayContent(blob, st, e.prefix, e.token.line).value;
    var items := TokenItems(e);
    if e.token.newline {
      assert items[1..] == [];
    } else {
      assert items[1..] == [Marker] && items[1..][1..] == [];
      assert ReplayLines(blob, shown, [Marker]) == ReplayMarker(blob, shown) by {
        assert [Marker][1..] == [];
      }
    }
  }

  lemma {:induction false} ReplayConcat(blob: Lines, st: Replay, a: seq<PatchLine>, b: seq<PatchLine>)
    ensures ReplayLines(blob, st, a + b)
            == var mid := ReplayLines(blob, st, a);
               if mid.None? then None else ReplayLines(blob, mid.value, b)
    decreases |a|
  {
    if a == [] {
      assert a + b == b;
    } else {
      assert (a + b)[1..] == a[1..] + b;
      var next := ReplayLine(blob, st, a[0]);
      if next.Some? {
        ReplayConcat(blob, next.value, a[1..], b);
      }
    }
  }

  /** Replaying the events of a walk follows the walk. */
  lemma {:induction false} ReplayWalk(blob: Lines, goal: Lines, st: Replay, events: seq<Event>,
                                      i: nat, j: nat, iEnd: nat, jEnd: nat)
    requires At(blob, goal, st, i, j)
    requires Walks(events, i, j, iEnd, jEnd, Tokens(blob), Tokens(goal))
    ensures var end := ReplayLines(blob, st, EventItems(events));
            end.Some? && At(blob, goal, end.value, iEnd, jEnd)
    decreases |events|
  {
    if events != [] {
      var e := events[0];
      ReplayToken(blob, goal, st, i, j, e);
      var next := ReplayLines(blob, st, TokenItems(e)).value;
      ReplayWalk(blob, goal, next, events[1..], NextOld(e, i), NextNew(e, j), iEnd, jEnd);
      ReplayConcat(blob, st, TokenItems(e), EventItems(events[1..]));
    }
  }

  lemma GapLines(blob: Lines, goal: Lines, i: nat, iEnd: nat, j: nat, jEnd: nat)
    requires SameRange(Tokens(blob), i, iEnd, Tokens(goal), j, jEnd)
    ensures blob.lines[i..iEnd] == goal.lines[j..jEnd] && iEnd - i == jEnd - j
    ensures i < iEnd ==> (iEnd == |blob.lines| && Unended(blob) <==> jEnd == |goal.lines| && Unended(goal))
  {
    var gap := Tokens(blob)[i..iEnd];
    assert gap == Tokens(goal)[j..jEnd];
    assert |gap| == iEnd - i == jEnd - j;
    forall k | 0 <= k < iEnd - i
      ensures blob.lines[i..iEnd][k] == goal.lines[j..jEnd][k]
    {
      assert gap[k] == Tokens(blob)[i + k];
      assert gap[k] == Tokens(goal)[j..jEnd][k] == Tokens(goal)[j + k];
      assert blob.lines[i + k] == goal.lines[j + k];
    }
    assert blob.lines[i..iEnd] == goal.lines[j..jEnd];
    if i < iEnd {
      assert gap[iEnd - i - 1] == Tokens(blob)[iEnd - 1] == Tokens(goal)[jEnd - 1];
    }
  }

  /** Skipping the gap before a chunk lands where the chunk starts, with nothing marked too early. */
  lemma ReplayGap(blob: Lines, goal: Lines, st: Replay, i: nat, j: nat, c: Chunk)
    requires At(blob, goal, st, i, j)
    requires ValidChunk(c, Tokens(blob), Tokens(goal))
    requires SameRange(Tokens(blob), i, c.oldStart, Tokens(goal), j, c.newStart)
    ensures var entered := EnterHunk(blob, st, HeaderOf(c));
            entered.Some? && At(blob, goal, entered.value, c.oldStart, c.newStart)
  {
    HeaderRoundTrip(c.oldStart, c.oldStop, c.newStart, c.newStop);
    GapLines(blob, goal, i, c.oldStart, j, c.newStart);
    assert goal.lines[..c.newStart] == goal.lines[..j] + goal.lines[j..c.newStart];
  }

  lemma ReplayChunk(blob: Lines, goal: Lines, st: Replay, i: nat, j: nat, c: Chunk)
    requires At(blob, goal, st, i, j)
    requires ValidChunk(c, Tokens(blob), Tokens(goal))
    requires SameRange(Tokens(blob), i, c.oldStart, Tokens(goal), j, c.newStart)
    ensures var next := ReplayHunk(blob, st, HunkOf(c));
            next.Some? && At(blob, goal, next.value, c.oldStop, c.newStop)
  {
    ReplayGap(blob, goal, st, i, j, c);
    var entered := EnterHunk(blob, st, HeaderOf(c)).value;
    ReplayWalk(blob, goal, entered, c.events, c.oldStart, c.newStart, c.oldStop, c.newStop);
  }

  lemma {:induction false} ValidChunksFit(chunks: seq<Chunk>, i: nat, j: nat, iEnd: nat, jEnd: nat,
                                          before: seq<Token>, after: seq<Token>)
    requires ValidChunks(chunks, i, j, iEnd, jEnd, before, after)
    ensures AllFit(chunks)
    ensures forall k :: 0 <= k < |chunks| ==> ValidChunk(chunks[k], before, after)
    decreases |chunks|
  {
    if chunks != [] {
      ChunkFits(chunks[0], before, after);
      ValidChunksFit(chunks[1..], chunks[0].oldStop, chunks[0].newStop, iEnd, jEnd, before, after);
      assert forall k :: 0 < k < |chunks| ==> chunks[k] == chunks[1..][k - 1];
    }
  }

  /** Replaying all hunks leaves only an equal tail to copy. */
  lemma {:induction false} ReplayChunks(blob: Lines, goal: Lines, st: Replay, chunks: seq<Chunk>,
                                        i: nat, j: nat, iEnd: nat, jEnd: nat)
    returns (m: nat, n: nat)
    requires At(blob, goal, st, i, j)
    requires ValidChunks(chunks, i, j, iEnd, jEnd, Tokens(blob), Tokens(goal))
    requires AllOrdered(chunks)
    ensures var end := ReplayHunks(blob, st, HunksOf(chunks));
            && end.Some? && At(blob, goal, end.value, m, n)
            && SameRange(Tokens(blob), m, iEnd, Tokens(goal), n, jEnd)
    decreases |chunks|
  {
    m, n := i, j;
    if chunks != [] {
      var c := chunks[0];
      ReplayChunk(blob, goal, st, i, j, c);
      var next := ReplayHunk(blob, st, HunkOf(c)).value;
      m, n := ReplayChunks(blob, goal, next, chunks[1..], c.oldStop, c.newStop, iEnd, jEnd);
      assert HunksOf(chunks)[1..] == HunksOf(chunks[1..]);
    }
  }

  /** Copying the equal tail and ending the last line as marked gives the goal. */
  lemma FinishAtGoal(blob: Lines, goal: Lines, st: Replay, m: nat, n: nat)
    requires At(blob, goal, st, m, n)
    requires SameRange(Tokens(blob), m, |blob.lines|, Tokens(goal), n, |goal.lines|)
    requires goal.lines == [] ==> !goal.finalNewline
    requires blob.lines == [] ==> !blob.finalNewline
    ensures FinishReplay(blob, st)
            == if Utf8Size(LinesText(goal)) > MAX_TEXT_BLOB_BYTES then None else Some(LinesText(goal))
  {
    GapLines(blob, goal, m, |blob.lines|, n, |goal.lines|);
    assert goal.lines == goal.lines[..n] + goal.lines[n..];
    assert goal.lines[n..] == goal.lines[n..|goal.lines|];
    assert blob.lines[m..] == blob.lines[m..|blob.lines|];
    if goal.lines == [] {
      assert st.output + blob.lines[m..] == [];
    }
  }

  // ---- the printed patch as text ----

  predicate GoodLine(line: string) {
    line != "" && Unbroken(line)
  }

  predicate AllGood(lines: seq<string>) {
    forall i :: 0 <= i < |lines| ==> GoodLine(lines[i])
  }

  lemma HeaderLineGood(c: Chunk)
    requires Ordered(c)
    ensures GoodLine(HeaderLine(c)) && Plain(HeaderLine(c))
  {
    RenderHeaderPrintable(c.oldStart, c.oldStop, c.newStart, c.newStop);
    HeaderRoundTrip(c.oldStart, c.oldStop, c.newStart, c.newStop);
  }

  lemma MarkerGood()
    ensures GoodLine(NO_NEWLINE) && Plain(NO_NEWLINE)
  {
    assert Printable(NO_NEWLINE);
  }

  lemma {:induction false} EventLinesGood(events: seq<Event>)
    requires Prefixed(events)
    requires forall k :: 0 <= k < |events| ==> Unbroken(events[k].token.line)
    ensures AllGood(EventLines(events))
  {
    if events != [] {
      MarkerGood();
      EventLinesGood(events[1..]);
    }
  }

  lemma {:induction false} EventLinesPlain(events: seq<Event>)
    requires Prefixed(events)
    requires forall k :: 0 <= k < |events| ==> Plain(events[k].token.line)
    ensures AllPlain(EventLines(events))
  {
    if events != [] {
      MarkerGood();
      EventLinesPlain(events[1..]);
    }
  }

  /** No token shown in the chunk holds a line boundary. */
  predicate CleanChunk(c: Chunk) {
    forall k :: 0 <= k < |c.events| ==> Unbroken(c.events[k].token.line)
  }

  predicate PlainChunk(c: Chunk) {
    forall k :: 0 <= k < |c.events| ==> Plain(c.events[k].token.line)
  }

  /** No token shown in any hunk holds a line boundary of splitlines(). */
  predicate Clean(chunks: seq<Chunk>) {
    forall k :: 0 <= k < |chunks| ==> CleanChunk(chunks[k])
  }

  lemma {:induction false} ChunksLinesGood(chunks: seq<Chunk>)
    requires AllOrdered(chunks) && AllPrefixed(chunks) && Clean(chunks)
    ensures AllGood(ChunksLines(chunks))
  {
    if chunks != [] {
      HeaderLineGood(chunks[0]);
      EventLinesGood(chunks[0].events);
      ChunksLinesGood(chunks[1..]);
    }
  }

  lemma {:induction false} ChunksLinesPlain(chunks: seq<Chunk>)
    requires AllOrdered(chunks) && AllPrefixed(chunks)
    requires forall k :: 0 <= k < |chunks| ==> PlainChunk(chunks[k])
    ensures AllPlain(ChunksLines(chunks))
  {
    if chunks != [] {
      HeaderLineGood(chunks[0]);
      EventLinesPlain(chunks[0].events);
      ChunksLinesPlain(chunks[1..]);
    }
  }

  lemma {:induction false} WalkTokensPlain(events: seq<Event>, i: nat, j: nat, iEnd: nat, jEnd: nat,
                                           blob: Lines, goal: Lines)
    requires Walks(events, i, j, iEnd, jEnd, Tokens(blob), Tokens(goal))
    requires AllPlain(blob.lines) && AllPlain(goal.lines)
    ensures forall k :: 0 <= k < |events| ==> Plain(events[k].token.line)
    decreases |events|
  {
    if events != [] {
      WalkTokensPlain(events[1..], NextOld(events[0], i), NextNew(events[0], j), iEnd, jEnd, blob, goal);
      assert forall k :: 0 < k < |events| ==> events[k] == events[1..][k - 1];
    }
  }

  /** A patch printed for two reviewable texts is well-formed text itself. */
  lemma RenderedNotMalformed(oldText: string, newText: string, chunks: seq<Chunk>)
    requires Plain(oldText) && Plain(newText) && chunks != []
    requires AllFit(chunks)
    requires forall k :: 0 <= k < |chunks| ==>
      ValidChunk(chunks[k], Tokens(TextLines(oldText)), Tokens(TextLines(newText)))
    ensures !Malformed(RenderPatch(chunks))
  {
    TextLinesPlain(oldText);
    TextLinesPlain(newText);
    forall k | 0 <= k < |chunks|
      ensures PlainChunk(chunks[k])
    {
      var c := chunks[k];
      WalkTokensPlain(c.events, c.oldStart, c.newStart, c.oldStop, c.newStop,
                      TextLines(oldText), TextLines(newText));
    }
    ChunksLinesPlain(chunks);
    JoinPlain(ChunksLines(chunks));
    HeaderLineGood(chunks[0]);
  }

  /** The chunks are the hunks of an edit script between the two texts. */
  predicate ScriptFor(chunks: seq<Chunk>, oldText: string, newText: string) {
    var before, after := Tokens(TextLines(oldText)), Tokens(TextLines(newText));
    ValidChunks(chunks, 0, 0, |before|, |after|, before, after)
  }

  /** What the reader and the replay make of the printed patch and its reported counts. */
  function Replayed(oldText: string, chunks: seq<Chunk>): Option<string>
    requires AllOrdered(chunks)
  {
    Patched(oldText, RenderPatch(chunks), ShownInAll(chunks, '+'), ShownInAll(chunks, '-'))
  }

  /** Reading a clean printed patch succeeds, with the reported counts. */
  lemma ReadRendered(oldText: string, newText: string, chunks: seq<Chunk>)
    requires Plain(oldText) && Plain(newText) && chunks != []
    requires ScriptFor(chunks, oldText, newText) && Clean(chunks)
    ensures AllOrdered(chunks)
    ensures ReadPatch(RenderPatch(chunks), ShownInAll(chunks, '+'), ShownInAll(chunks, '-'))
            == Some(HunksOf(chunks))
  {
    var before, after := Tokens(TextLines(oldText)), Tokens(TextLines(newText));
    ValidChunksFit(chunks, 0, 0, |before|, |after|, before, after);
    RenderedNotMalformed(oldText, newText, chunks);
    ChunksLinesGood(chunks);
    SplitLinesJoin(ChunksLines(chunks));
    ClassifyChunks(chunks);
    ReadChunksThen(chunks, []);
    assert ChunksItems(chunks) + [] == ChunksItems(chunks);
    PrependUnits(HunksOf(chunks), None);
    TotalChunks(chunks, '+');
    TotalChunks(chunks, '-');
  }

  /** Reading and replaying a clean printed patch gives exactly the new text. */
  lemma RoundTripClean(oldText: string, newText: string, chunks: seq<Chunk>)
    requires Plain(oldText) && Plain(newText) && chunks != []
    requires ScriptFor(chunks, oldText, newText) && Clean(chunks)
    ensures AllOrdered(chunks)
    ensures Replayed(oldText, chunks)
            == if Utf8Size(newText) > MAX_TEXT_BLOB_BYTES then None else Some(newText)
  {
    ReadRendered(oldText, newText, chunks);
    var blob, goal := TextLines(oldText), TextLines(newText);
    LinesTextOfTextLines(oldText);
    LinesTextOfTextLines(newText);
    var m, n := ReplayChunks(blob, goal, START, chunks, 0, 0, |blob.lines|, |goal.lines|);
    FinishAtGoal(blob, goal, ReplayHunks(blob, START, HunksOf(chunks)).value, m, n);
  }
}

/** A line boundary inside a shown line always spoils the round trip. */
module DiffExactness {
  import opened Wrappers
  import opened Text
  import opened HunkHeader
  import opened UnifiedPatch
  import opened PatchReplay
  import opened EditScript
  import opened DiffRoundTrip

  // ---- the first broken line ----

  lemma {:induction false} FirstBrokenEvent(events: seq<Event>) returns (n: nat)
    requires !forall k :: 0 <= k < |events| ==> Unbroken(events[k].token.line)
    ensures n < |events| && !Unbroken(events[n].token.line)
    ensures forall k :: 0 <= k < n ==> Unbroken(events[k].token.line)
    decreases |events|
  {
    n := 0;
    if Unbroken(events[0].token.line) {
      assert forall k :: 0 < k < |events| ==> events[k] == events[1..][k - 1];
      n := FirstBrokenEvent(events[1..]);
      n := n + 1;
    }
  }

  /** The printed lines up to a broken one, that one, and the rest. */
  datatype Break = Break(clean: seq<string>, broken: string, after: seq<string>)

  /** Lines that begin with clean printed lines followed by a broken one. */
  ghost predicate BreaksAt(lines: seq<string>, b: Break) {
    && lines == b.clean + [b.broken] + b.after
    && AllGood(b.clean) && !Unbroken(b.broken)
    && b.broken != "" && IsPrefix(b.broken[0])
  }

  lemma PrefixedBroken(prefix: char, line: string)
    requires !Unbroken(line)
    ensures !Unbroken([prefix] + line)
  {
    var k :| 0 <= k < |line| && IsLineBoundary(line[k]);
    assert ([prefix] + line)[k + 1] == line[k];
  }

  lemma EventLinesAt(events: seq<Event>, n: nat) returns (after: seq<string>)
    requires n < |events|
    ensures EventLines(events)
            == EventLines(events[..n]) + [[events[n].prefix] + events[n].token.line] + after
  {
    assert events == events[..n] + events[n..];
    EventLinesConcat(events[..n], events[n..]);
    after := TokenLines(events[n])[1..] + EventLines(events[n..][1..]);
  }

  /** Patch lines before the line of event n in chunk k. */
  function ItemsBefore(chunks: seq<Chunk>, k: nat, n: nat): seq<PatchLine>
    requires AllOrdered(chunks) && k < |chunks| && n < |chunks[k].events|
    decreases k
  {
    if k == 0 then [HunkLine(HeaderOf(chunks[0]))] + EventItems(chunks[0].events[..n])
    else ChunkItems(chunks[0]) + ItemsBefore(chunks[1..], k - 1, n)
  }

  lemma AroundOneLine(first: seq<string>, before: seq<string>, line: seq<string>, after: seq<string>)
    ensures first + (before + line + after) == first + before + line + after
  {
  }

  lemma ChunkBreak(c: Chunk) returns (n: nat, b: Break)
    requires Ordered(c) && Prefixed(c.events) && !CleanChunk(c)
    ensures n < |c.events| && BreaksAt(ChunkLines(c), b)
    ensures !Unbroken(c.events[n].token.line)
    ensures ClassifyAll(b.clean) == ItemsBefore([c], 0, n)
    ensures b.broken == [c.events[n].prefix] + c.events[n].token.line
  {
    n := FirstBrokenEvent(c.events);
    var e, shown := c.events[n], c.events[..n];
    EventLinesGood(shown);
    HeaderLineGood(c);
    PrefixedBroken(e.prefix, e.token.line);
    var after := EventLinesAt(c.events, n);
    b := Break([HeaderLine(c)] + EventLines(shown), [e.prefix] + e.token.line, after);
    AroundOneLine([HeaderLine(c)], EventLines(shown), [[e.prefix] + e.token.line], after);
    assert ChunkLines(c) == b.clean + [b.broken] + b.after;
    ClassifyHeader(c);
    ClassifyEvents(shown);
    ClassifyConcat([HeaderLine(c)], EventLines(shown));
  }

  lemma BreakAfter(good: seq<string>, lines: seq<string>, b: Break) returns (b': Break)
    requires AllGood(good) && BreaksAt(lines, b)
    ensures BreaksAt(good + lines, b') && b'.clean == good + b.clean && b'.broken == b.broken
  {
    b' := Break(good + b.clean, b.broken, b.after);
    assert good + lines == b'.clean + [b'.broken] + b'.after;
  }

  lemma BreakBefore(lines: seq<string>, more: seq<string>, b: Break) returns (b': Break)
    requires BreaksAt(lines, b)
    ensures BreaksAt(lines + more, b') && b'.clean == b.clean && b'.broken == b.broken
  {
    b' := Break(b.clean, b.broken, b.after + more);
    assert lines + more == b'.clean + [b'.broken] + b'.after;
  }

  lemma ChunkGood(c: Chunk)
    requires Ordered(c) && Prefixed(c.events) && CleanChunk(c)
    ensures AllGood(ChunkLines(c)) && ClassifyAll(ChunkLines(c)) == ChunkItems(c)
  {
    EventLinesGood(c.events);
    HeaderLineGood(c);
    ClassifyChunk(c);
  }

  /** The first broken line of the whole patch, with the event it shows. */
  lemma {:induction false} ChunksBreak(chunks: seq<Chunk>) returns (k: nat, n: nat, b: Break)
    requires AllOrdered(chunks) && AllPrefixed(chunks) && !Clean(chunks)
    ensures k < |chunks| && n < |chunks[k].events| && BreaksAt(ChunksLines(chunks), b)
    ensures !Unbroken(chunks[k].events[n].token.line)
    ensures ClassifyAll(b.clean) == ItemsBefore(chunks, k, n)
    ensures b.broken == [chunks[k].events[n].prefix] + chunks[k].events[n].token.line
    decreases |chunks|
  {
    var c, rest := chunks[0], chunks[1..];
    if CleanChunk(c) {
      assert forall m :: 0 < m < |chunks| ==> chunks[m] == rest[m - 1];
      k, n, b := ChunksBreak(rest);
      ChunkGood(c);
      ClassifyConcat(ChunkLines(c), b.clean);
      b := BreakAfter(ChunkLines(c), ChunksLines(rest), b);
      k := k + 1;
    } else {
      k := 0;
      n, b := ChunkBreak(c);
      b := BreakBefore(ChunkLines(c), ChunksLines(rest), b);
    }
  }

  /** The lines splitlines() finds instead: the same up to the break, then a cut line. */
  lemma BreakSplits(lines: seq<string>, b: Break) returns (after: seq<string>)
    requires BreaksAt(lines, b)
    ensures UnbrokenPrefix(b.broken) > 0
    ensures SplitLines(Join(lines, '\n'))
            == b.clean + [b.broken[..UnbrokenPrefix(b.broken)]] + after
  {
    var start := Join(b.clean + [b.broken], '\n');
    var text := Join(lines, '\n');
    var rest := if b.after == [] then "" else ['\n'] + Join(b.after, '\n');
    assert text == start + rest by {
      if b.after == [] {
        assert lines == b.clean + [b.broken];
      } else {
        JoinConcat(b.clean + [b.broken], b.after, '\n');
      }
    }
    SplitLinesCut(b.clean, b.broken, rest);
    var found := SplitLines(start + rest);
    after := found[|b.clean| + 1..];
    assert found == found[..|b.clean|] + [found[|b.clean|]] + after;
  }

  // ---- the cut line where it is replayed ----

  /** A replay that cannot end in the goal: refused, or a wrong line is already written. */
  ghost predicate Astray(goal: Lines, end: Option<Replay>) {
    end.Some? ==>
      exists q :: 0 <= q < |goal.lines| && q < |end.value.output|
                  && end.value.output[q] != goal.lines[q]
  }

  lemma HunksKeepOutput(blob: Lines, st: Replay, hunks: seq<Hunk>)
    requires st.cursor <= |blob.lines| && ReplayHunks(blob, st, hunks).Some?
    ensures st.output <= ReplayHunks(blob, st, hunks).value.output
  {
    var gaps := HunksPass(blob, st, hunks);
  }

  lemma BodyKeepsOutput(blob: Lines, st: Replay, lines: seq<PatchLine>)
    requires st.cursor <= |blob.lines| && ReplayLines(blob, st, lines).Some?
    ensures var end := ReplayLines(blob, st, lines).value;
            st.output <= end.output && end.cursor <= |blob.lines|
  {
    BodyPasses(blob, st, lines);
  }

  /** A line that differs from the one to be shown is refused or written in its place. */
  lemma CutLineAstray(blob: Lines, goal: Lines, st: Replay, i: nat, j: nat, e: Event,
                      text: string, rest: seq<PatchLine>)
    requires At(blob, goal, st, i, j) && Fitting(e, i, j, blob, goal) && text != e.token.line
    ensures Astray(goal, ReplayLines(blob, st, [Content(e.prefix, text)] + rest))
    ensures var end := ReplayLines(blob, st, [Content(e.prefix, text)] + rest);
            end.Some? ==> end.value.cursor <= |blob.lines|
  {
    var lines := [Content(e.prefix, text)] + rest;
    assert lines[1..] == rest;
    var next := ReplayContent(blob, st, e.prefix, text);
    if next.Some? {
      assert next.value.output == goal.lines[..j] + [text];
      assert next.value.output[j] == text != goal.lines[j];
      if ReplayLines(blob, st, lines).Some? {
        BodyKeepsOutput(blob, next.value, rest);
        assert ReplayLines(blob, st, lines).value.output[j] == next.value.output[j];
      }
    }
  }

  /** The hunk that a header, some body lines and one more body line begin. */
  lemma HunkBegins(header: Header, shown: seq<PatchLine>, rest: seq<PatchLine>)
    returns (body: seq<PatchLine>, hunks: seq<Hunk>)
    requires IsBody(shown)
    requires ReadHunks([HunkLine(header)] + shown + rest).Some?
    ensures shown <= body
    ensures ReadHunks([HunkLine(header)] + shown + rest) == Some([Hunk(header, body)] + hunks)
  {
    var lines := [HunkLine(header)] + shown + rest;
    assert lines[1..] == shown + rest;
    var n := BodyRun(shown + rest);
    assert forall q :: 0 <= q < |shown| ==> (shown + rest)[q] == shown[q];
    assert n >= |shown|;
    body := (shown + rest)[..n];
    hunks := ReadHunks((shown + rest)[n..]).value;
    assert body[..|shown|] == shown;
  }

  lemma RestAfter(shown: seq<PatchLine>, line: PatchLine, body: seq<PatchLine>) returns (rest: seq<PatchLine>)
    requires shown + [line] <= body
    ensures body == shown + ([line] + rest)
  {
    rest := body[|shown| + 1..];
  }

  /** The chunk with the cut line leads the replay astray, whatever the reader takes after it. */
  lemma ChunkAstray(blob: Lines, goal: Lines, st: Replay, i: nat, j: nat, c: Chunk, n: nat,
                    text: string, body: seq<PatchLine>)
    requires At(blob, goal, st, i, j)
    requires ValidChunk(c, Tokens(blob), Tokens(goal)) && n < |c.events|
    requires SameRange(Tokens(blob), i, c.oldStart, Tokens(goal), j, c.newStart)
    requires text != c.events[n].token.line
    requires EventItems(c.events[..n]) + [Content(c.events[n].prefix, text)] <= body
    ensures var end := ReplayHunk(blob, st, Hunk(HeaderOf(c), body));
            Astray(goal, end) && (end.Some? ==> end.value.cursor <= |blob.lines|)
  {
    ReplayGap(blob, goal, st, i, j, c);
    var entered := EnterHunk(blob, st, HeaderOf(c)).value;
    var m, k := WalkSplit(c.events, n, c.oldStart, c.newStart, c.oldStop, c.newStop,
                          Tokens(blob), Tokens(goal));
    var shown, e := EventItems(c.events[..n]), c.events[n];
    assert c.events[n..][0] == e;
    ReplayWalk(blob, goal, entered, c.events[..n], c.oldStart, c.newStart, m, k);
    var there := ReplayLines(blob, entered, shown).value;
    var rest := RestAfter(shown, Content(e.prefix, text), body);
    ReplayConcat(blob, entered, shown, [Content(e.prefix, text)] + rest);
    CutLineAstray(blob, goal, there, m, k, e, text, rest);
  }

  lemma AstrayStays(blob: Lines, goal: Lines, st: Replay, hunk: Hunk, hunks: seq<Hunk>)
    requires var end := ReplayHunk(blob, st, hunk);
             Astray(goal, end) && (end.Some? ==> end.value.cursor <= |blob.lines|)
    ensures var end := ReplayHunks(blob, st, [hunk] + hunks);
            Astray(goal, end)
  {
    assert ([hunk] + hunks)[1..] == hunks;
    var next, end := ReplayHunk(blob, st, hunk), ReplayHunks(blob, st, [hunk] + hunks);
    if end.Some? {
      HunksKeepOutput(blob, next.value, hunks);
      var q :| 0 <= q < |goal.lines| && q < |next.value.output|
               && next.value.output[q] != goal.lines[q];
      assert end.value.output[q] == next.value.output[q];
    }
  }

  /** A patch whose line for event n of chunk k was cut never replays to the goal. */
  lemma {:induction false} CutPatchAstray(blob: Lines, goal: Lines, st: Replay, i: nat, j: nat,
                                          chunks: seq<Chunk>, k: nat, n: nat, text: string,
                                          rest: seq<PatchLine>, iEnd: nat, jEnd: nat)
    requires At(blob, goal, st, i, j) && AllFit(chunks)
    requires ValidChunks(chunks, i, j, iEnd, jEnd, Tokens(blob), Tokens(goal))
    requires k < |chunks| && n < |chunks[k].events| && text != chunks[k].events[n].token.line
    ensures var hunks := ReadHunks(ItemsBefore(chunks, k, n)
                                   + ([Content(chunks[k].events[n].prefix, text)] + rest));
            hunks.Some? ==> Astray(goal, ReplayHunks(blob, st, hunks.value))
    decreases k
  {
    var c, cut := chunks[0], [Content(chunks[k].events[n].prefix, text)] + rest;
    if k == 0 {
      FirstChunkAstray(blob, goal, st, i, j, c, n, text, rest);
    } else {
      PeelChunk(chunks, k, n, cut);
      CutPatchAstrayLater(blob, goal, st, i, j, chunks, k, n, text, rest, iEnd, jEnd,
                          ReadHunks(ItemsBefore(chunks[1..], k - 1, n) + cut));
    }
  }

  lemma PeelChunk(chunks: seq<Chunk>, k: nat, n: nat, cut: seq<PatchLine>)
    requires AllFit(chunks) && 0 < k < |chunks| && n < |chunks[k].events|
    ensures ReadHunks(ItemsBefore(chunks, k, n) + cut)
            == Prepend([HunkOf(chunks[0])], ReadHunks(ItemsBefore(chunks[1..], k - 1, n) + cut))
  {
    var c, more := chunks[0], ItemsBefore(chunks[1..], k - 1, n) + cut;
    ReadHunkThen(HeaderOf(c), EventItems(c.events), more);
    PeelItems(chunks, k, n, cut);
  }

  lemma PeelItems(chunks: seq<Chunk>, k: nat, n: nat, cut: seq<PatchLine>)
    requires AllOrdered(chunks) && 0 < k < |chunks| && n < |chunks[k].events|
    ensures ItemsBefore(chunks, k, n) + cut
            == [HunkLine(HeaderOf(chunks[0]))] + EventItems(chunks[0].events) + (ItemsBefore(chunks[1..], k - 1, n) + cut)
  {
  }

  lemma FirstChunkAstray(blob: Lines, goal: Lines, st: Replay, i: nat, j: nat, c: Chunk, n: nat,
                         text: string, rest: seq<PatchLine>)
    requires At(blob, goal, st, i, j)
    requires ValidChunk(c, Tokens(blob), Tokens(goal)) && Prefixed(c.events) && n < |c.events|
    requires SameRange(Tokens(blob), i, c.oldStart, Tokens(goal), j, c.newStart)
    requires text != c.events[n].token.line
    ensures var hunks := ReadHunks([HunkLine(HeaderOf(c))] + EventItems(c.events[..n])
                                   + ([Content(c.events[n].prefix, text)] + rest));
            hunks.Some? ==> Astray(goal, ReplayHunks(blob, st, hunks.value))
  {
    var shown := EventItems(c.events[..n]) + [Content(c.events[n].prefix, text)];
    var lines := [HunkLine(HeaderOf(c))] + shown + rest;
    assert [HunkLine(HeaderOf(c))] + EventItems(c.events[..n])
           + ([Content(c.events[n].prefix, text)] + rest) == lines;
    EventItemsAreBody(c.events[..n]);
    if ReadHunks(lines).Some? {
      var body, hunks := HunkBegins(HeaderOf(c), shown, rest);
      ChunkAstray(blob, goal, st, i, j, c, n, text, body);
      AstrayStays(blob, goal, st, Hunk(HeaderOf(c), body), hunks);
    }
  }

  lemma FirstChunkDone(blob: Lines, goal: Lines, st: Replay, i: nat, j: nat, chunks: seq<Chunk>, iEnd: nat, jEnd: nat)
    returns (next: Replay)
    requires At(blob, goal, st, i, j) && AllFit(chunks) && chunks != []
    requires ValidChunks(chunks, i, j, iEnd, jEnd, Tokens(blob), Tokens(goal))
    ensures ReplayHunk(blob, st, HunkOf(chunks[0])) == Some(next)
    ensures At(blob, goal, next, chunks[0].oldStop, chunks[0].newStop)
    ensures AllFit(chunks[1..])
    ensures ValidChunks(chunks[1..], chunks[0].oldStop, chunks[0].newStop, iEnd, jEnd, Tokens(blob), Tokens(goal))
  {
    ReplayChunk(blob, goal, st, i, j, chunks[0]);
    next := ReplayHunk(blob, st, HunkOf(chunks[0])).value;
  }

  lemma {:induction false} CutPatchAstrayLater(blob: Lines, goal: Lines, st: Replay, i: nat, j: nat,
                                               chunks: seq<Chunk>, k: nat, n: nat, text: string,
                                               rest: seq<PatchLine>, iEnd: nat, jEnd: nat,
                                               more: Option<seq<Hunk>>)
    requires At(blob, goal, st, i, j) && AllFit(chunks)
    requires ValidChunks(chunks, i, j, iEnd, jEnd, Tokens(blob), Tokens(goal))
    requires 0 < k < |chunks| && n < |chunks[k].events| && text != chunks[k].events[n].token.line
    requires more == ReadHunks(ItemsBefore(chunks[1..], k - 1, n)
                               + ([Content(chunks[k].events[n].prefix, text)] + rest))
    ensures more.Some? ==> Astray(goal, ReplayHunks(blob, st, [HunkOf(chunks[0])] + more.value))
    decreases k, 0
  {
    var c := chunks[0];
    var next := FirstChunkDone(blob, goal, st, i, j, chunks, iEnd, jEnd);
    CutPatchAstray(blob, goal, next, c.oldStop, c.newStop, chunks[1..], k - 1, n, text, rest, iEnd, jEnd);
    if more.Some? {
      HunkThenHunks(blob, st, HunkOf(c), more.value);
    }
  }

  lemma HunkThenHunks(blob: Lines, st: Replay, hunk: Hunk, hunks: seq<Hunk>)
    requires ReplayHunk(blob, st, hunk).Some?
    ensures ReplayHunks(blob, st, [hunk] + hunks) == ReplayHunks(blob, ReplayHunk(blob, st, hunk).value, hunks)
  {
    assert ([hunk] + hunks)[1..] == hunks;
  }

  // ---- a wrong line is a wrong text ----

  predicate FreeItems(lines: seq<PatchLine>) {
    forall i :: 0 <= i < |lines| && lines[i].Content? ==> '\n' !in lines[i].text
  }

  predicate FreeHunks(hunks: seq<Hunk>) {
    forall i :: 0 <= i < |hunks| ==> FreeItems(hunks[i].lines)
  }

  lemma ClassifiedFree(lines: seq<string>)
    requires forall i :: 0 <= i < |lines| ==> Unbroken(lines[i])
    ensures FreeItems(ClassifyAll(lines))
  {
    forall i | 0 <= i < |lines| && Classify(lines[i]).Content?
      ensures '\n' !in Classify(lines[i]).text
    {
      assert forall k :: 0 <= k < |lines[i][1..]| ==> lines[i][1..][k] == lines[i][k + 1];
    }
  }

  lemma {:induction false} ReadHunksFree(lines: seq<PatchLine>)
    requires FreeItems(lines) && ReadHunks(lines).Some?
    ensures FreeHunks(ReadHunks(lines).value)
    decreases |lines|
  {
    if lines != [] {
      ReadHunksFree(lines[1..][BodyRun(lines[1..])..]);
    }
  }

  lemma {:induction false} ReplayLinesFree(blob: Lines, st: Replay, lines: seq<PatchLine>)
    requires FreeItems(lines) && AllFree(st.output, '\n') && ReplayLines(blob, st, lines).Some?
    ensures AllFree(ReplayLines(blob, st, lines).value.output, '\n')
    decreases |lines|
  {
    if lines != [] {
      ReplayLinesFree(blob, ReplayLine(blob, st, lines[0]).value, lines[1..]);
    }
  }

  lemma {:induction false} ReplayHunksFree(blob: Lines, st: Replay, hunks: seq<Hunk>)
    requires FreeHunks(hunks) && AllFree(blob.lines, '\n') && AllFree(st.output, '\n')
    requires ReplayHunks(blob, st, hunks).Some?
    ensures AllFree(ReplayHunks(blob, st, hunks).value.output, '\n')
    decreases |hunks|
  {
    if hunks != [] {
      ReplayLinesFree(blob, EnterHunk(blob, st, hunks[0].header).value, hunks[0].lines);
      ReplayHunksFree(blob, ReplayHunk(blob, st, hunks[0]).value, hunks[1..]);
    }
  }

  /** A text put together from lines one of which is wrong is not the goal. */
  lemma WrongLineWrongText(goalText: string, output: seq<string>, finalNewline: bool, q: nat)
    requires AllFree(output, '\n')
    requires var goal := TextLines(goalText).lines;
             q < |output| && q < |goal| && output[q] != goal[q]
    ensures LinesText(Lines(output, finalNewline)) != goalText
  {
    LinesTextSplit(Lines(output, finalNewline));
    TextLinesParts(goalText);
    assert (output + (if finalNewline then [""] else []))[q] == output[q];
    var goal := TextLines(goalText);
    assert (goal.lines + (if goal.finalNewline then [""] else []))[q] == goal.lines[q];
  }

  lemma AstrayFinish(goalText: string, blob: Lines, st: Replay)
    requires AllFree(blob.lines, '\n') && AllFree(st.output, '\n')
    requires Astray(TextLines(goalText), Some(st))
    ensures FinishReplay(blob, st) != Some(goalText)
  {
    if FinishReplay(blob, st).Some? {
      var output := st.output + blob.lines[st.cursor..];
      var finalNewline := if st.cursor < |blob.lines| then blob.finalNewline else st.newMark.None?;
      var goal := TextLines(goalText).lines;
      var q :| 0 <= q < |goal| && q < |st.output| && st.output[q] != goal[q];
      WrongLineWrongText(goalText, output, finalNewline, q);
    }
  }

  /** One line boundary inside a shown line, and the new text does not come back. */
  lemma RoundTripBroken(oldText: string, newText: string, chunks: seq<Chunk>)
    requires ScriptFor(chunks, oldText, newText) && AllOrdered(chunks) && !Clean(chunks)
    ensures Replayed(oldText, chunks) != Some(newText)
  {
    var blob, goal := TextLines(oldText), TextLines(newText);
    ValidChunksFit(chunks, 0, 0, |blob.lines|, |goal.lines|, Tokens(blob), Tokens(goal));
    var k, n, b := ChunksBreak(chunks);
    var after := BreakSplits(ChunksLines(chunks), b);
    var e, u := chunks[k].events[n], UnbrokenPrefix(b.broken);
    var found := SplitLines(RenderPatch(chunks));
    CutItems(b, found, e, after);
    var text := b.broken[1..u];
    assert text != e.token.line by {
      assert e.token.line == b.broken[1..];
    }
    CutPatchAstray(blob, goal, START, 0, 0, chunks, k, n, text, ClassifyAll(after),
                   |blob.lines|, |goal.lines|);
    if Replayed(oldText, chunks).Some? {
      var hunks := ReadHunks(ClassifyAll(found)).value;
      SplitLinesAreUnbroken(RenderPatch(chunks));
      ClassifiedFree(found);
      ReadHunksFree(ClassifyAll(found));
      LinesTextOfTextLines(oldText);
      ReplayHunksFree(blob, START, hunks);
      AstrayFinish(newText, blob, ReplayHunks(blob, START, hunks).value);
    }
  }

  lemma CutItems(b: Break, found: seq<string>, e: Event, after: seq<string>)
    requires b.broken == [e.prefix] + e.token.line && IsPrefix(e.prefix) && !Unbroken(b.broken)
    requires UnbrokenPrefix(b.broken) > 0
    requires found == b.clean + [b.broken[..UnbrokenPrefix(b.broken)]] + after
    ensures ClassifyAll(found)
            == ClassifyAll(b.clean)
               + ([Content(e.prefix, b.broken[1..UnbrokenPrefix(b.broken)])] + ClassifyAll(after))
  {
    var u := UnbrokenPrefix(b.broken);
    var cut := b.broken[..u];
    assert cut == [e.prefix] + b.broken[1..u];
    ClassifyContent(e.prefix, b.broken[1..u]);
    ClassifyAround(b.clean, [cut], after);
    ClassifyAlone(cut);
  }

  lemma Associate<T>(a: seq<T>, b: seq<T>, c: seq<T>)
    ensures a + b + c == a + (b + c)
  {
  }

  lemma ClassifyAround(clean: seq<string>, line: seq<string>, after: seq<string>)
    ensures ClassifyAll(clean + line + after) == ClassifyAll(clean) + (ClassifyAll(line) + ClassifyAll(after))
  {
    ClassifyConcat(clean + line, after);
    ClassifyConcat(clean, line);
    Associate(ClassifyAll(clean), ClassifyAll(line), ClassifyAll(after));
  }

  lemma ClassifyAlone(line: string)
    ensures ClassifyAll([line]) == [Classify(line)]
  {
    assert [line][1..] == [];
  }

  // ---- the exact condition ----

  /**
   * For any two reviewable texts and any valid edit script between them, reading and replaying the
   * printed patch gives exactly the new text if and only if no line shown in a hunk holds a line
   * boundary other than the newline, and the new text is within the size limit of a blob.
   */
  lemma RoundTripExactly(oldText: string, newText: string, groups: seq<Group>)
    requires Plain(oldText) && Plain(newText) && groups != []
    requires var before, after := Tokens(TextLines(oldText)), Tokens(TextLines(newText));
             ValidScript(groups, 0, 0, |before|, |after|, before, after)
    ensures var before, after := Tokens(TextLines(oldText)), Tokens(TextLines(newText));
            AllValid(groups, before, after)
            && var chunks := Chunks(groups, before, after);
               && AllOrdered(chunks)
               && (Replayed(oldText, chunks) == Some(newText)
                   <==> Clean(chunks) && Utf8Size(newText) <= MAX_TEXT_BLOB_BYTES)
  {
    var before, after := Tokens(TextLines(oldText)), Tokens(TextLines(newText));
    ScriptGroupsValid(groups, 0, 0, |before|, |after|, before, after);
    ScriptChunksValid(groups, 0, 0, |before|, |after|, before, after);
    var chunks := Chunks(groups, before, after);
    ValidChunksFit(chunks, 0, 0, |before|, |after|, before, after);
    if Clean(chunks) {
      RoundTripClean(oldText, newText, chunks);
    } else {
      RoundTripBroken(oldText, newText, chunks);
    }
  }

  /** With no group at all the two texts are the same, so a difference always prints a hunk. */
  lemma DifferencePrintsHunk(oldText: string, newText: string, groups: seq<Group>)
    requires oldText != newText
    requires var before, after := Tokens(TextLines(oldText)), Tokens(TextLines(newText));
             ValidScript(groups, 0, 0, |before|, |after|, before, after)
    ensures groups != []
  {
    var before, after := Tokens(TextLines(oldText)), Tokens(TextLines(newText));
    if groups == [] {
      assert before == before[0..|before|] == after[0..|after|] == after;
      TokensInjective(oldText, newText);
    }
  }

  // ---- one input for which it fails ----

  /** The script that adds one line to an empty text. */
  function OneLine(line: string): Chunk {
    Chunk(0, 0, 0, 1, [Event('+', Token(line, true))])
  }

  lemma OneLineLines(line: string)
    ensures ChunksLines([OneLine(line)]) == [HeaderLine(OneLine(line)), ['+'] + line]
    ensures ShownInAll([OneLine(line)], '+') == 1 && ShownInAll([OneLine(line)], '-') == 0
  {
    var e := Event('+', Token(line, true));
    assert [OneLine(line)][1..] == [] && [e][1..] == [];
    assert EventLines([e]) == TokenLines(e) + EventLines([]);
    assert ChunksLines([OneLine(line)]) == ChunkLines(OneLine(line)) + ChunksLines([]);
    assert Shown([e], '+') == 1 + Shown([], '+') && Shown([e], '-') == Shown([], '-');
  }

  lemma LineText(line: string)
    requires '\n' !in line
    ensures TextLines(line + ['\n']) == Lines([line], true)
  {
    SplitOfFree(line, '\n');
    SplitSnocSeparator(line, '\n');
    assert ([line] + [[]])[..1] == [line];
  }

  lemma OneLineIsScript(line: string)
    requires '\n' !in line
    ensures ScriptFor([OneLine(line)], "", line + ['\n'])
  {
    LineText(line);
    var before, after := Tokens(TextLines("")), Tokens(TextLines(line + ['\n']));
    var e := Event('+', Token(line, true));
    assert before == [] && after == [Token(line, true)];
    assert [e][1..] == [] && [OneLine(line)][1..] == [];
    assert Walks([], 0, 1, 0, 1, before, after);
    assert ValidChunk(OneLine(line), before, after);
    assert ValidChunks([], 0, 1, 0, 1, before, after);
  }

  lemma SamePatched(oldText: string, a: string, b: string, additions: nat, deletions: nat)
    requires !Malformed(a) && !Malformed(b) && SplitLines(a) == SplitLines(b)
    ensures Patched(oldText, a, additions, deletions) == Patched(oldText, b, additions, deletions)
  {
  }

  lemma OneLineReplays(line: string)
    requires Plain(line) && Unbroken(line) && Utf8Size(line + ['\n']) <= MAX_TEXT_BLOB_BYTES
    ensures Replayed("", [OneLine(line)]) == Some(line + ['\n'])
  {
    OneLineIsScript(line);
    RoundTripClean("", line + ['\n'], [OneLine(line)]);
  }

  /** A boundary at the end of the last shown line is dropped without an error: the text is wrong. */
  lemma TrailingBoundaryIsLost()
    ensures ScriptFor([OneLine("a\U{0B}")], "", "a\U{0B}" + ['\n'])
    ensures Replayed("", [OneLine("a\U{0B}")]) == Some("a" + ['\n'])
  {
    OneLineIsScript("a\U{0B}");
    OneLineLines("a\U{0B}");
    OneLineLines("a");
    HeaderLineGood(OneLine("a"));
    SameLines(HeaderLine(OneLine("a")));
    RenderedNotMalformedOneLine("a\U{0B}");
    RenderedNotMalformedOneLine("a");
    SamePatched("", RenderPatch([OneLine("a\U{0B}")]), RenderPatch([OneLine("a")]), 1, 0);
    assert Utf8Size("a" + ['\n']) == 2 by {
      assert ("a" + ['\n'])[1..] == "\n" && "\n"[1..] == "";
    }
    OneLineReplays("a");
  }

  lemma RenderedNotMalformedOneLine(line: string)
    requires '\n' !in line && Plain(line)
    ensures !Malformed(RenderPatch([OneLine(line)]))
  {
    OneLineLines(line);
    HeaderLineGood(OneLine(line));
    JoinPlain([HeaderLine(OneLine(line)), ['+'] + line]);
  }

  lemma SameLines(header: string)
    requires GoodLine(header)
    ensures SplitLines(Join([header, ['+'] + "a\U{0B}"], '\n'))
            == SplitLines(Join([header, ['+'] + "a"], '\n'))
  {
    assert ['+'] + "a\U{0B}" == "+a\U{0B}" && ['+'] + "a" == "+a";
    assert [header, "+a\U{0B}"][1..] == ["+a\U{0B}"] && [header, "+a"][1..] == ["+a"];
    SplitLinesFirst("+a", "\U{0B}");
    SplitLinesFirst("+a", "");
    assert "+a" + "\U{0B}" == "+a\U{0B}" && "+a" + "" == "+a" && "\U{0B}"[1..] == "";
    SplitLinesFirst(header, ['\n'] + "+a\U{0B}");
    SplitLinesFirst(header, ['\n'] + "+a");
    assert header + ['\n'] + "+a\U{0B}" == header + (['\n'] + "+a\U{0B}");
    assert header + ['\n'] + "+a" == header + (['\n'] + "+a");
    assert (['\n'] + "+a\U{0B}")[1..] == "+a\U{0B}" && (['\n'] + "+a")[1..] == "+a";
  }
}

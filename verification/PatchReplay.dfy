/** Replaying a parsed patch over the exact lines of the blob it was made for. */
module PatchReplay {
  import opened Wrappers
  import opened Text
  import opened HunkHeader
  import opened UnifiedPatch

  const MAX_TEXT_BLOB_BYTES := 1024 * 1024

  /** The cursors and marks of a replay; prev is the prefix of the last line of this hunk. */
  datatype Replay = Replay(cursor: nat, output: seq<string>, oldMark: bool, newMark: Option<nat>,
                           prev: Option<char>)

  const START := Replay(0, [], false, None, None)

  predicate OnOldSide(c: char) {
    c == ' ' || c == '-'
  }

  predicate OnNewSide(c: char) {
    c == ' ' || c == '+'
  }

  /** Copies the untouched lines before a hunk; both sides must then stand where it begins. */
  function EnterHunk(blob: Lines, st: Replay, header: Header): Option<Replay> {
    var oldIndex := RangeIndex(header.oldStart, header.oldCount);
    var newIndex := RangeIndex(header.newStart, header.newCount);
    if oldIndex < st.cursor || oldIndex > |blob.lines| then None
    else
      var output := st.output + blob.lines[st.cursor..oldIndex];
      if |output| != newIndex then None
      else Some(st.(cursor := oldIndex, output := output, prev := None))
  }

  function ReplayMarker(blob: Lines, st: Replay): Option<Replay> {
    if st.prev.None? then None
    else if OnOldSide(st.prev.value)
            && (st.cursor != |blob.lines| || blob.finalNewline || st.oldMark) then None
    else if OnNewSide(st.prev.value) && st.newMark.Some? then None
    else Some(st.(oldMark := st.oldMark || OnOldSide(st.prev.value),
                  newMark := if OnNewSide(st.prev.value) then Some(|st.output|) else st.newMark))
  }

  function ReplayContent(blob: Lines, st: Replay, prefix: char, text: string): Option<Replay> {
    if OnOldSide(prefix) && (st.cursor >= |blob.lines| || blob.lines[st.cursor] != text) then None
    else Some(st.(cursor := if OnOldSide(prefix) then st.cursor + 1 else st.cursor,
                  output := if OnNewSide(prefix) then st.output + [text] else st.output,
                  prev := Some(prefix)))
  }

  function ReplayLine(blob: Lines, st: Replay, line: PatchLine): Option<Replay> {
    match line
    case Marker => ReplayMarker(blob, st)
    case Content(prefix, text) => ReplayContent(blob, st, prefix, text)
    case _ => None
  }

  function ReplayLines(blob: Lines, st: Replay, lines: seq<PatchLine>): Option<Replay>
    decreases |lines|
  {
    if lines == [] then Some(st)
    else
      var next :- ReplayLine(blob, st, lines[0]);
      ReplayLines(blob, next, lines[1..])
  }

  function ReplayHunk(blob: Lines, st: Replay, hunk: Hunk): Option<Replay> {
    var entered :- EnterHunk(blob, st, hunk.header);
    ReplayLines(blob, entered, hunk.lines)
  }

  function ReplayHunks(blob: Lines, st: Replay, hunks: seq<Hunk>): Option<Replay>
    decreases |hunks|
  {
    if hunks == [] then Some(st)
    else
      var next :- ReplayHunk(blob, st, hunks[0]);
      ReplayHunks(blob, next, hunks[1..])
  }

  /** The lines after the last hunk, the two end-of-file rules, and the size limit. */
  function FinishReplay(blob: Lines, st: Replay): Option<string> {
    if st.cursor > |blob.lines| then None
    else
      var output := st.output + blob.lines[st.cursor..];
      if blob.lines != [] && !blob.finalNewline && st.cursor == |blob.lines| && !st.oldMark then None
      else if st.newMark.Some? && st.newMark.value != |output| then None
      else
        var finalNewline :=
          if st.cursor < |blob.lines| then blob.finalNewline else st.newMark.None?;
        var result := LinesText(Lines(output, finalNewline));
        if Utf8Size(result) > MAX_TEXT_BLOB_BYTES then None else Some(result)
  }

  /** The text that a patch with its reported counts makes of the old text, if it is accepted. */
  function Patched(oldText: string, patch: string, additions: nat, deletions: nat): Option<string> {
    var hunks :- ReadPatch(patch, additions, deletions);
    var st :- ReplayHunks(TextLines(oldText), START, hunks);
    FinishReplay(TextLines(oldText), st)
  }

  // ---- the loops of the source ----

  method ApplyPatchToExactBlob(oldText: string, patch: string, additions: nat, deletions: nat)
    returns (r: Option<string>)
    ensures r == Patched(oldText, patch, additions, deletions)
  {
    var parsed := ParseUnifiedPatch(patch, additions, deletions);
    if parsed.None? {
      return None;
    }
    r := ReplayAll(TextLines(oldText), parsed.value);
  }

  method ReplayAll(blob: Lines, hunks: seq<Hunk>) returns (r: Option<string>)
    ensures r == var st := ReplayHunks(blob, START, hunks);
                 if st.None? then None else FinishReplay(blob, st.value)
  {
    var st := START;
    assert hunks[0..] == hunks;
    for h := 0 to |hunks|
      invariant ReplayHunks(blob, START, hunks) == ReplayHunks(blob, st, hunks[h..])
    {
      assert hunks[h..][0] == hunks[h] && hunks[h..][1..] == hunks[h + 1..];
      var next := ReplayOne(blob, st, hunks[h]);
      if next.None? {
        return None;
      }
      st := next.value;
    }
    r := FinishReplay(blob, st);
  }

  method ReplayOne(blob: Lines, st: Replay, hunk: Hunk) returns (r: Option<Replay>)
    ensures r == ReplayHunk(blob, st, hunk)
  {
    var oldIndex := RangeIndex(hunk.header.oldStart, hunk.header.oldCount);
    var newIndex := RangeIndex(hunk.header.newStart, hunk.header.newCount);
    if oldIndex < st.cursor || oldIndex > |blob.lines| {
      return None;
    }
    var output := st.output + blob.lines[st.cursor..oldIndex];
    if |output| != newIndex {
      return None;
    }
    ghost var entered := EnterHunk(blob, st, hunk.header).value;
    var now: Replay := st.(cursor := oldIndex, output := output, prev := None);
    assert hunk.lines[0..] == hunk.lines;
    for k := 0 to |hunk.lines|
      invariant ReplayLines(blob, entered, hunk.lines) == ReplayLines(blob, now, hunk.lines[k..])
    {
      assert hunk.lines[k..][0] == hunk.lines[k] && hunk.lines[k..][1..] == hunk.lines[k + 1..];
      var next := ReplayLine(blob, now, hunk.lines[k]);
      if next.None? {
        return None;
      }
      now := next.value;
    }
    r := Some(now);
  }

  // ---- what every accepted patch conserves ----

  /** The old lines a hunk body shows, in order. */
  function OldSide(lines: seq<PatchLine>): seq<string> {
    if lines == [] then [] else OldPart(lines[0]) + OldSide(lines[1..])
  }

  function OldPart(line: PatchLine): seq<string> {
    if line.Content? && OnOldSide(line.prefix) then [line.text] else []
  }

  /** The new lines a hunk body shows, in order. */
  function NewSide(lines: seq<PatchLine>): seq<string> {
    if lines == [] then [] else NewPart(lines[0]) + NewSide(lines[1..])
  }

  function NewPart(line: PatchLine): seq<string> {
    if line.Content? && OnNewSide(line.prefix) then [line.text] else []
  }

  /** From one state to a later one: old lines passed over and new lines emitted. */
  ghost predicate Passes(blob: Lines, st: Replay, end: Replay, before: seq<string>, after: seq<string>) {
    && st.cursor <= end.cursor <= |blob.lines|
    && blob.lines[st.cursor..end.cursor] == before
    && end.output == st.output + after
  }

  lemma PassesCompose(blob: Lines, st: Replay, mid: Replay, end: Replay,
                      before: seq<string>, after: seq<string>, before': seq<string>, after': seq<string>)
    requires Passes(blob, st, mid, before, after) && Passes(blob, mid, end, before', after')
    ensures Passes(blob, st, end, before + before', after + after')
  {
    assert blob.lines[st.cursor..end.cursor]
           == blob.lines[st.cursor..mid.cursor] + blob.lines[mid.cursor..end.cursor];
  }

  lemma LinePasses(blob: Lines, st: Replay, line: PatchLine)
    requires st.cursor <= |blob.lines| && ReplayLine(blob, st, line).Some?
    ensures Passes(blob, st, ReplayLine(blob, st, line).value, OldPart(line), NewPart(line))
  {
  }

  /** Replaying a body passes its old side and emits its new side, and nothing else. */
  lemma {:induction false} BodyPasses(blob: Lines, st: Replay, lines: seq<PatchLine>)
    requires st.cursor <= |blob.lines| && ReplayLines(blob, st, lines).Some?
    ensures Passes(blob, st, ReplayLines(blob, st, lines).value, OldSide(lines), NewSide(lines))
    decreases |lines|
  {
    if lines != [] {
      var line, rest := lines[0], lines[1..];
      var next := ReplayLine(blob, st, line).value;
      LinePasses(blob, st, line);
      BodyPasses(blob, next, rest);
      var end := ReplayLines(blob, next, rest).value;
      PassesCompose(blob, st, next, end, OldPart(line), NewPart(line), OldSide(rest), NewSide(rest));
    }
  }

  /** Replaying a hunk copies a gap and then passes its two sides. */
  lemma HunkPasses(blob: Lines, st: Replay, hunk: Hunk) returns (gap: seq<string>)
    requires st.cursor <= |blob.lines| && ReplayHunk(blob, st, hunk).Some?
    ensures Passes(blob, st, ReplayHunk(blob, st, hunk).value,
                   gap + OldSide(hunk.lines), gap + NewSide(hunk.lines))
  {
    var entered := EnterHunk(blob, st, hunk.header).value;
    var end := ReplayLines(blob, entered, hunk.lines).value;
    gap := blob.lines[st.cursor..entered.cursor];
    BodyPasses(blob, entered, hunk.lines);
    PassesCompose(blob, st, entered, end, gap, gap, OldSide(hunk.lines), NewSide(hunk.lines));
  }

  /** Untouched gaps and the old sides of the hunks, taken alternately. */
  function OldWeave(gaps: seq<seq<string>>, hunks: seq<Hunk>): seq<string>
    requires |gaps| == |hunks|
  {
    if gaps == [] then [] else gaps[0] + OldSide(hunks[0].lines) + OldWeave(gaps[1..], hunks[1..])
  }

  /** The same gaps and the new sides of the hunks. */
  function NewWeave(gaps: seq<seq<string>>, hunks: seq<Hunk>): seq<string>
    requires |gaps| == |hunks|
  {
    if gaps == [] then [] else gaps[0] + NewSide(hunks[0].lines) + NewWeave(gaps[1..], hunks[1..])
  }

  lemma {:induction false} HunksPass(blob: Lines, st: Replay, hunks: seq<Hunk>)
    returns (gaps: seq<seq<string>>)
    requires st.cursor <= |blob.lines| && ReplayHunks(blob, st, hunks).Some?
    ensures |gaps| == |hunks|
    ensures Passes(blob, st, ReplayHunks(blob, st, hunks).value,
                   OldWeave(gaps, hunks), NewWeave(gaps, hunks))
    decreases |hunks|
  {
    gaps := [];
    if hunks != [] {
      var gap := HunkPasses(blob, st, hunks[0]);
      var next := ReplayHunk(blob, st, hunks[0]).value;
      var rest := HunksPass(blob, next, hunks[1..]);
      gaps := [gap] + rest;
      assert gaps[1..] == rest;
      PassesCompose(blob, st, next, ReplayHunks(blob, st, hunks).value,
                    gap + OldSide(hunks[0].lines), gap + NewSide(hunks[0].lines),
                    OldWeave(rest, hunks[1..]), NewWeave(rest, hunks[1..]));
    }
  }

  /** Lines on a side, counted by prefix. */
  lemma {:induction false} SideSizes(lines: seq<PatchLine>)
    requires IsBody(lines)
    ensures |OldSide(lines)| == OldCount(lines) && |NewSide(lines)| == NewCount(lines)
  {
    if lines != [] {
      SideSizes(lines[1..]);
      assert lines == [lines[0]] + lines[1..];
      CountConcat([lines[0]], lines[1..], ' ');
      CountConcat([lines[0]], lines[1..], '+');
      CountConcat([lines[0]], lines[1..], '-');
      CountSnoc([], lines[0], ' ');
      CountSnoc([], lines[0], '+');
      CountSnoc([], lines[0], '-');
      assert [] + [lines[0]] == [lines[0]];
    }
  }

  lemma {:induction false} WeaveSizes(gaps: seq<seq<string>>, hunks: seq<Hunk>)
    requires |gaps| == |hunks|
    requires forall i :: 0 <= i < |hunks| ==> IsBody(hunks[i].lines)
    ensures |NewWeave(gaps, hunks)| + Total(hunks, '-') == |OldWeave(gaps, hunks)| + Total(hunks, '+')
    decreases |hunks|
  {
    if hunks != [] {
      WeaveSizes(gaps[1..], hunks[1..]);
      SideSizes(hunks[0].lines);
      assert hunks == [hunks[0]] + hunks[1..];
      TotalConcat([hunks[0]], hunks[1..], '+');
      TotalConcat([hunks[0]], hunks[1..], '-');
      assert [hunks[0]][..0] == [];
    }
  }

  /** Every hunk the grammar reads has a body. */
  lemma {:induction false} ReadHunksBodies(lines: seq<PatchLine>)
    requires ReadHunks(lines).Some?
    ensures var hunks := ReadHunks(lines).value;
            forall i :: 0 <= i < |hunks| ==> Fits(hunks[i].header, hunks[i].lines)
    decreases |lines|
  {
    if lines != [] {
      ReadHunksBodies(lines[1..][BodyRun(lines[1..])..]);
    }
  }

  lemma ReadPatchBodies(patch: string, additions: nat, deletions: nat)
    requires ReadPatch(patch, additions, deletions).Some?
    ensures var hunks := ReadPatch(patch, additions, deletions).value;
            && Total(hunks, '+') == additions && Total(hunks, '-') == deletions
            && forall i :: 0 <= i < |hunks| ==> IsBody(hunks[i].lines)
  {
    ReadHunksBodies(ClassifyAll(SplitLines(patch)));
  }

  /**
   * Whatever patch is accepted, printed here or not: the old text is the gaps woven with the old
   * sides of the hunks, the result is the same gaps woven with the new sides, and the number of
   * lines changes by exactly the reported additions and deletions.
   */
  lemma PatchedConserves(oldText: string, patch: string, additions: nat, deletions: nat)
    returns (hunks: seq<Hunk>, gaps: seq<seq<string>>, tail: seq<string>, finalNewline: bool)
    requires Patched(oldText, patch, additions, deletions).Some?
    ensures ReadPatch(patch, additions, deletions) == Some(hunks) && |gaps| == |hunks|
    ensures TextLines(oldText).lines == OldWeave(gaps, hunks) + tail
    ensures var output := NewWeave(gaps, hunks) + tail;
            && Patched(oldText, patch, additions, deletions) == Some(LinesText(Lines(output, finalNewline)))
            && |output| == |TextLines(oldText).lines| + additions - deletions
  {
    var blob := TextLines(oldText);
    hunks := ReadPatch(patch, additions, deletions).value;
    var st := ReplayHunks(blob, START, hunks).value;
    gaps := HunksPass(blob, START, hunks);
    tail, finalNewline := FinishConserves(blob, st, OldWeave(gaps, hunks), NewWeave(gaps, hunks));
    ReadPatchBodies(patch, additions, deletions);
    WeaveSizes(gaps, hunks);
  }

  lemma FinishConserves(blob: Lines, st: Replay, before: seq<string>, after: seq<string>)
    returns (tail: seq<string>, finalNewline: bool)
    requires Passes(blob, START, st, before, after) && FinishReplay(blob, st).Some?
    ensures blob.lines == before + tail
    ensures FinishReplay(blob, st) == Some(LinesText(Lines(after + tail, finalNewline)))
  {
    tail := blob.lines[st.cursor..];
    finalNewline := if st.cursor < |blob.lines| then blob.finalNewline else st.newMark.None?;
    assert blob.lines[0..st.cursor] + tail == blob.lines;
    assert START.output + after == after;
  }
}

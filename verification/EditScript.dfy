/** Grouped edit scripts between two token sequences, and the hunks printed for them. */
module EditScript {
  import opened Wrappers
  import opened Text
  import opened HunkHeader
  import opened UnifiedPatch

  /** A line together with "a newline follows it". */
  datatype Token = Token(line: string, newline: bool)

  function Tokens(l: Lines): seq<Token> {
    seq(|l.lines|, i requires 0 <= i < |l.lines| =>
      Token(l.lines[i], i < |l.lines| - 1 || l.finalNewline))
  }

  /** Texts with the same tokens are the same text. */
  lemma TokensInjective(a: string, b: string)
    requires Tokens(TextLines(a)) == Tokens(TextLines(b))
    ensures a == b
  {
    var x, y := TextLines(a), TextLines(b);
    LinesTextOfTextLines(a);
    LinesTextOfTextLines(b);
    assert |x.lines| == |Tokens(x)| == |y.lines|;
    assert forall i :: 0 <= i < |x.lines| ==> x.lines[i] == Tokens(x)[i].line == y.lines[i];
    assert x.lines == y.lines;
    if x.lines != [] {
      assert x.finalNewline == Tokens(x)[|x.lines| - 1].newline == y.finalNewline;
    }
  }

  // ---- scripts: any partition of both sides into equal and changed stretches ----

  datatype Kind = Equal | Replace | Delete | Insert

  /** One operation of difflib: half-open ranges of the old and of the new side. */
  datatype Op = Op(kind: Kind, oldFirst: nat, oldLast: nat, newFirst: nat, newLast: nat)

  predicate ValidOp(op: Op, before: seq<Token>, after: seq<Token>) {
    && op.oldFirst <= op.oldLast <= |before| && op.newFirst <= op.newLast <= |after|
    && (op.kind == Equal ==>
          before[op.oldFirst..op.oldLast] == after[op.newFirst..op.newLast])
    && (op.kind == Delete ==> op.newFirst == op.newLast)
    && (op.kind == Insert ==> op.oldFirst == op.oldLast)
  }

  type Group = seq<Op>

  /** The operations follow each other from (i, j) to (iEnd, jEnd). */
  predicate ValidOps(ops: Group, i: nat, j: nat, iEnd: nat, jEnd: nat,
                     before: seq<Token>, after: seq<Token>)
  {
    if ops == [] then i == iEnd && j == jEnd
    else
      && ValidOp(ops[0], before, after)
      && ops[0].oldFirst == i && ops[0].newFirst == j
      && ValidOps(ops[1..], ops[0].oldLast, ops[0].newLast, iEnd, jEnd, before, after)
  }

  function OldStop(g: Group): nat
    requires g != []
  {
    g[|g| - 1].oldLast
  }

  function NewStop(g: Group): nat
    requires g != []
  {
    g[|g| - 1].newLast
  }

  /** A group is a non-empty run of operations that covers something. */
  predicate ValidGroup(g: Group, before: seq<Token>, after: seq<Token>) {
    && g != []
    && ValidOps(g, g[0].oldFirst, g[0].newFirst, OldStop(g), NewStop(g), before, after)
    && (g[0].oldFirst < OldStop(g) || g[0].newFirst < NewStop(g))
  }

  /** Two ranges hold the same tokens. */
  predicate SameRange(before: seq<Token>, i: nat, iEnd: nat, after: seq<Token>, j: nat, jEnd: nat) {
    && i <= iEnd <= |before| && j <= jEnd <= |after|
    && before[i..iEnd] == after[j..jEnd]
  }

  /** The groups, with equal gaps before, between and after them, lead from (i, j) to (iEnd, jEnd). */
  predicate ValidScript(groups: seq<Group>, i: nat, j: nat, iEnd: nat, jEnd: nat,
                        before: seq<Token>, after: seq<Token>)
  {
    if groups == [] then SameRange(before, i, iEnd, after, j, jEnd)
    else
      var g := groups[0];
      && ValidGroup(g, before, after)
      && SameRange(before, i, g[0].oldFirst, after, j, g[0].newFirst)
      && ValidScript(groups[1..], OldStop(g), NewStop(g), iEnd, jEnd, before, after)
  }

  /** One changed stretch between equal ends is a script, at the first line and at the last one too. */
  lemma OneChangeIsScript(op: Op, before: seq<Token>, after: seq<Token>)
    requires op.oldFirst <= op.oldLast <= |before| && op.newFirst <= op.newLast <= |after|
    requires before[..op.oldFirst] == after[..op.newFirst] && before[op.oldLast..] == after[op.newLast..]
    requires op.oldFirst < op.oldLast || op.newFirst < op.newLast
    requires match op.kind
             case Replace => true
             case Delete => op.newFirst == op.newLast
             case Insert => op.oldFirst == op.oldLast
             case Equal => false
    ensures ValidScript([[op]], 0, 0, |before|, |after|, before, after)
  {
    assert ValidOps([op], op.oldFirst, op.newFirst, op.oldLast, op.newLast, before, after);
  }

  // ---- shifting and concatenating scripts ----

  function ShiftOp(op: Op, i: nat, j: nat): Op {
    Op(op.kind, op.oldFirst + i, op.oldLast + i, op.newFirst + j, op.newLast + j)
  }

  function ShiftGroup(g: Group, i: nat, j: nat): Group {
    seq(|g|, k requires 0 <= k < |g| => ShiftOp(g[k], i, j))
  }

  function ShiftScript(groups: seq<Group>, i: nat, j: nat): seq<Group> {
    seq(|groups|, k requires 0 <= k < |groups| => ShiftGroup(groups[k], i, j))
  }

  /** (i, j)..(iEnd, jEnd) is a window: a pair of slices. */
  predicate IsWindow(i: nat, j: nat, iEnd: nat, jEnd: nat, before: seq<Token>, after: seq<Token>) {
    i <= iEnd <= |before| && j <= jEnd <= |after|
  }

  lemma ShiftedOp(op: Op, i: nat, j: nat, iEnd: nat, jEnd: nat, before: seq<Token>, after: seq<Token>)
    requires IsWindow(i, j, iEnd, jEnd, before, after)
    requires ValidOp(op, before[i..iEnd], after[j..jEnd])
    ensures ValidOp(ShiftOp(op, i, j), before, after)
  {
    SliceOfSlice(before, i, iEnd, op.oldFirst, op.oldLast);
    SliceOfSlice(after, j, jEnd, op.newFirst, op.newLast);
  }

  lemma {:induction false} ShiftedOps(ops: Group, a: nat, b: nat, aEnd: nat, bEnd: nat,
                                      i: nat, j: nat, iEnd: nat, jEnd: nat,
                                      before: seq<Token>, after: seq<Token>)
    requires IsWindow(i, j, iEnd, jEnd, before, after)
    requires ValidOps(ops, a, b, aEnd, bEnd, before[i..iEnd], after[j..jEnd])
    ensures ValidOps(ShiftGroup(ops, i, j), a + i, b + j, aEnd + i, bEnd + j, before, after)
  {
    if ops != [] {
      ShiftedOp(ops[0], i, j, iEnd, jEnd, before, after);
      ShiftedOps(ops[1..], ops[0].oldLast, ops[0].newLast, aEnd, bEnd, i, j, iEnd, jEnd, before, after);
      assert ShiftGroup(ops, i, j)[1..] == ShiftGroup(ops[1..], i, j);
    }
  }

  lemma ShiftedGroup(g: Group, i: nat, j: nat, iEnd: nat, jEnd: nat,
                     before: seq<Token>, after: seq<Token>)
    requires IsWindow(i, j, iEnd, jEnd, before, after)
    requires ValidGroup(g, before[i..iEnd], after[j..jEnd])
    ensures var s := ShiftGroup(g, i, j);
            && ValidGroup(s, before, after)
            && s[0].oldFirst == g[0].oldFirst + i && s[0].newFirst == g[0].newFirst + j
            && OldStop(s) == OldStop(g) + i && NewStop(s) == NewStop(g) + j
  {
    ShiftedOps(g, g[0].oldFirst, g[0].newFirst, OldStop(g), NewStop(g), i, j, iEnd, jEnd, before, after);
  }

  lemma ShiftedRange(a: nat, aEnd: nat, b: nat, bEnd: nat, i: nat, j: nat, iEnd: nat, jEnd: nat,
                     before: seq<Token>, after: seq<Token>)
    requires IsWindow(i, j, iEnd, jEnd, before, after)
    requires SameRange(before[i..iEnd], a, aEnd, after[j..jEnd], b, bEnd)
    ensures SameRange(before, a + i, aEnd + i, after, b + j, bEnd + j)
  {
    SliceOfSlice(before, i, iEnd, a, aEnd);
    SliceOfSlice(after, j, jEnd, b, bEnd);
  }

  lemma SliceOfSlice(s: seq<Token>, i: nat, iEnd: nat, a: nat, aEnd: nat)
    requires i <= iEnd <= |s| && a <= aEnd <= iEnd - i
    ensures s[i..iEnd][a..aEnd] == s[a + i..aEnd + i]
  {
    var window := s[i..iEnd];
    forall k | 0 <= k < aEnd - a
      ensures window[a..aEnd][k] == s[a + i..aEnd + i][k]
    {
      assert window[a..aEnd][k] == window[a + k] == s[i + (a + k)];
    }
  }

  lemma ScriptCons(g: Group, rest: seq<Group>, i: nat, j: nat, iEnd: nat, jEnd: nat,
                   before: seq<Token>, after: seq<Token>)
    requires ValidGroup(g, before, after)
    requires SameRange(before, i, g[0].oldFirst, after, j, g[0].newFirst)
    requires ValidScript(rest, OldStop(g), NewStop(g), iEnd, jEnd, before, after)
    ensures ValidScript([g] + rest, i, j, iEnd, jEnd, before, after)
  {
    assert ([g] + rest)[1..] == rest;
  }

  /** A script for a window, shifted to where the window lies, is a script for that stretch. */
  lemma {:induction false} ShiftedScript(groups: seq<Group>, a: nat, b: nat, i: nat, j: nat,
                                         iEnd: nat, jEnd: nat, before: seq<Token>, after: seq<Token>)
    requires IsWindow(i, j, iEnd, jEnd, before, after)
    requires ValidScript(groups, a, b, iEnd - i, jEnd - j, before[i..iEnd], after[j..jEnd])
    ensures ValidScript(ShiftScript(groups, i, j), a + i, b + j, iEnd, jEnd, before, after)
    decreases |groups|
  {
    if groups == [] {
      ShiftedRange(a, iEnd - i, b, jEnd - j, i, j, iEnd, jEnd, before, after);
    } else {
      var g, rest := groups[0], groups[1..];
      ShiftedScript(rest, OldStop(g), NewStop(g), i, j, iEnd, jEnd, before, after);
      ShiftedCons(g, ShiftScript(rest, i, j), a, b, i, j, iEnd, jEnd, before, after);
      ShiftScriptCons(groups, i, j);
    }
  }

  lemma ShiftScriptCons(groups: seq<Group>, i: nat, j: nat)
    requires groups != []
    ensures ShiftScript(groups, i, j) == [ShiftGroup(groups[0], i, j)] + ShiftScript(groups[1..], i, j)
  {
  }

  lemma ShiftedCons(g: Group, rest: seq<Group>, a: nat, b: nat, i: nat, j: nat, iEnd: nat, jEnd: nat,
                    before: seq<Token>, after: seq<Token>)
    requires IsWindow(i, j, iEnd, jEnd, before, after)
    requires ValidGroup(g, before[i..iEnd], after[j..jEnd])
    requires SameRange(before[i..iEnd], a, g[0].oldFirst, after[j..jEnd], b, g[0].newFirst)
    requires ValidScript(rest, OldStop(g) + i, NewStop(g) + j, iEnd, jEnd, before, after)
    ensures ValidScript([ShiftGroup(g, i, j)] + rest, a + i, b + j, iEnd, jEnd, before, after)
  {
    ShiftedGroup(g, i, j, iEnd, jEnd, before, after);
    ShiftedRange(a, g[0].oldFirst, b, g[0].newFirst, i, j, iEnd, jEnd, before, after);
    ScriptCons(ShiftGroup(g, i, j), rest, a + i, b + j, iEnd, jEnd, before, after);
  }

  lemma RangesJoin(before: seq<Token>, i: nat, m: nat, iEnd: nat,
                   after: seq<Token>, j: nat, n: nat, jEnd: nat)
    requires SameRange(before, i, m, after, j, n) && SameRange(before, m, iEnd, after, n, jEnd)
    ensures SameRange(before, i, iEnd, after, j, jEnd)
  {
    assert before[i..iEnd] == before[i..m] + before[m..iEnd];
    assert after[j..jEnd] == after[j..n] + after[n..jEnd];
  }

  /** Scripts for two stretches that meet make a script for both. */
  lemma {:induction false} ScriptsJoin(first: seq<Group>, second: seq<Group>, i: nat, j: nat,
                                       m: nat, n: nat, iEnd: nat, jEnd: nat,
                                       before: seq<Token>, after: seq<Token>)
    requires ValidScript(first, i, j, m, n, before, after)
    requires ValidScript(second, m, n, iEnd, jEnd, before, after)
    ensures ValidScript(first + second, i, j, iEnd, jEnd, before, after)
    decreases |first|
  {
    if first == [] {
      assert first + second == second;
      if second == [] {
        RangesJoin(before, i, m, iEnd, after, j, n, jEnd);
      } else {
        RangesJoin(before, i, m, second[0][0].oldFirst, after, j, n, second[0][0].newFirst);
      }
    } else {
      var g := first[0];
      ScriptsJoin(first[1..], second, OldStop(g), NewStop(g), m, n, iEnd, jEnd, before, after);
      assert (first + second)[1..] == first[1..] + second;
    }
  }

  // ---- what is printed for a group ----

  /** One token shown in a hunk with its prefix. */
  datatype Event = Event(prefix: char, token: Token)

  function Events(prefix: char, tokens: seq<Token>): seq<Event> {
    seq(|tokens|, i requires 0 <= i < |tokens| => Event(prefix, tokens[i]))
  }

  /** Unchanged tokens are shown once; of the others first the old ones, then the new ones. */
  function OpEvents(op: Op, before: seq<Token>, after: seq<Token>): seq<Event>
    requires ValidOp(op, before, after)
  {
    var removed, added := before[op.oldFirst..op.oldLast], after[op.newFirst..op.newLast];
    if op.kind == Equal then Events(' ', removed)
    else
      (if op.kind == Replace || op.kind == Delete then Events('-', removed) else [])
      + (if op.kind == Replace || op.kind == Insert then Events('+', added) else [])
  }

  function OpsEvents(ops: Group, i: nat, j: nat, iEnd: nat, jEnd: nat,
                     before: seq<Token>, after: seq<Token>): seq<Event>
    requires ValidOps(ops, i, j, iEnd, jEnd, before, after)
  {
    if ops == [] then []
    else OpEvents(ops[0], before, after)
         + OpsEvents(ops[1..], ops[0].oldLast, ops[0].newLast, iEnd, jEnd, before, after)
  }

  /** A hunk before it is printed: its two ranges and the events between them. */
  datatype Chunk = Chunk(oldStart: nat, oldStop: nat, newStart: nat, newStop: nat, events: seq<Event>)

  function GroupChunk(g: Group, before: seq<Token>, after: seq<Token>): Chunk
    requires ValidGroup(g, before, after)
  {
    Chunk(g[0].oldFirst, OldStop(g), g[0].newFirst, NewStop(g),
          OpsEvents(g, g[0].oldFirst, g[0].newFirst, OldStop(g), NewStop(g), before, after))
  }

  /** The events, taken in order, lead from (i, j) to (iEnd, jEnd). */
  predicate Walks(events: seq<Event>, i: nat, j: nat, iEnd: nat, jEnd: nat,
                  before: seq<Token>, after: seq<Token>)
  {
    if events == [] then i == iEnd <= |before| && j == jEnd <= |after|
    else
      && IsPrefix(events[0].prefix)
      && (events[0].prefix != '+' ==> i < |before| && before[i] == events[0].token)
      && (events[0].prefix != '-' ==> j < |after| && after[j] == events[0].token)
      && Walks(events[1..], if events[0].prefix != '+' then i + 1 else i,
               if events[0].prefix != '-' then j + 1 else j, iEnd, jEnd, before, after)
  }

  lemma {:induction false} WalkJoin(first: seq<Event>, second: seq<Event>, i: nat, j: nat,
                                    m: nat, n: nat, iEnd: nat, jEnd: nat,
                                    before: seq<Token>, after: seq<Token>)
    requires Walks(first, i, j, m, n, before, after) && Walks(second, m, n, iEnd, jEnd, before, after)
    ensures Walks(first + second, i, j, iEnd, jEnd, before, after)
    decreases |first|
  {
    if first == [] {
      assert first + second == second;
    } else {
      assert (first + second)[1..] == first[1..] + second;
      WalkJoin(first[1..], second, if first[0].prefix != '+' then i + 1 else i,
               if first[0].prefix != '-' then j + 1 else j, m, n, iEnd, jEnd, before, after);
    }
  }

  /** Where a walk stands after its first n events. */
  lemma {:induction false} WalkSplit(events: seq<Event>, n: nat, i: nat, j: nat, iEnd: nat, jEnd: nat,
                                     before: seq<Token>, after: seq<Token>)
    returns (m: nat, k: nat)
    requires n <= |events| && Walks(events, i, j, iEnd, jEnd, before, after)
    ensures Walks(events[..n], i, j, m, k, before, after)
    ensures Walks(events[n..], m, k, iEnd, jEnd, before, after)
    decreases n
  {
    if n == 0 {
      m, k := i, j;
      assert events[0..] == events;
      WalkEnds(events, i, j, iEnd, jEnd, before, after);
    } else {
      m, k := WalkSplit(events[1..], n - 1, if events[0].prefix != '+' then i + 1 else i,
                        if events[0].prefix != '-' then j + 1 else j, iEnd, jEnd, before, after);
      assert events[..n][1..] == events[1..][..n - 1];
      assert events[n..] == events[1..][n - 1..];
    }
  }

  lemma {:induction false} WalkEnds(events: seq<Event>, i: nat, j: nat, iEnd: nat, jEnd: nat,
                                    before: seq<Token>, after: seq<Token>)
    requires Walks(events, i, j, iEnd, jEnd, before, after)
    ensures i <= iEnd <= |before| && j <= jEnd <= |after|
    decreases |events|
  {
    if events != [] {
      WalkEnds(events[1..], if events[0].prefix != '+' then i + 1 else i,
               if events[0].prefix != '-' then j + 1 else j, iEnd, jEnd, before, after);
    }
  }

  lemma {:induction false} OldEventsWalk(i: nat, iEnd: nat, j: nat, before: seq<Token>, after: seq<Token>)
    requires i <= iEnd <= |before| && j <= |after|
    ensures Walks(Events('-', before[i..iEnd]), i, j, iEnd, j, before, after)
    decreases iEnd - i
  {
    if i < iEnd {
      OldEventsWalk(i + 1, iEnd, j, before, after);
      assert Events('-', before[i..iEnd])[1..] == Events('-', before[i + 1..iEnd]);
    }
  }

  lemma {:induction false} NewEventsWalk(i: nat, j: nat, jEnd: nat, before: seq<Token>, after: seq<Token>)
    requires i <= |before| && j <= jEnd <= |after|
    ensures Walks(Events('+', after[j..jEnd]), i, j, i, jEnd, before, after)
    decreases jEnd - j
  {
    if j < jEnd {
      NewEventsWalk(i, j + 1, jEnd, before, after);
      assert Events('+', after[j..jEnd])[1..] == Events('+', after[j + 1..jEnd]);
    }
  }

  lemma {:induction false} EqualEventsWalk(i: nat, iEnd: nat, j: nat, jEnd: nat,
                                           before: seq<Token>, after: seq<Token>)
    requires SameRange(before, i, iEnd, after, j, jEnd)
    ensures Walks(Events(' ', before[i..iEnd]), i, j, iEnd, jEnd, before, after)
    decreases iEnd - i
  {
    assert iEnd - i == |before[i..iEnd]| == |after[j..jEnd]| == jEnd - j;
    if i < iEnd {
      assert before[i] == before[i..iEnd][0] == after[j..jEnd][0] == after[j];
      assert before[i + 1..iEnd] == before[i..iEnd][1..];
      assert after[j + 1..jEnd] == after[j..jEnd][1..];
      EqualEventsWalk(i + 1, iEnd, j + 1, jEnd, before, after);
      assert Events(' ', before[i..iEnd])[1..] == Events(' ', before[i + 1..iEnd]);
    }
  }

  lemma OpWalks(op: Op, before: seq<Token>, after: seq<Token>)
    requires ValidOp(op, before, after)
    ensures Walks(OpEvents(op, before, after), op.oldFirst, op.newFirst, op.oldLast, op.newLast,
                  before, after)
  {
    if op.kind == Equal {
      EqualEventsWalk(op.oldFirst, op.oldLast, op.newFirst, op.newLast, before, after);
    } else {
      var removed, added := before[op.oldFirst..op.oldLast], after[op.newFirst..op.newLast];
      OldEventsWalk(op.oldFirst, op.oldLast, op.newFirst, before, after);
      NewEventsWalk(op.oldLast, op.newFirst, op.newLast, before, after);
      WalkJoin(Events('-', removed), Events('+', added), op.oldFirst, op.newFirst,
               op.oldLast, op.newFirst, op.oldLast, op.newLast, before, after);
      if op.kind == Delete {
        assert Events('+', added) == [];
      } else if op.kind == Insert {
        assert Events('-', removed) == [];
      }
      assert OpEvents(op, before, after) == Events('-', removed) + Events('+', added);
    }
  }

  lemma {:induction false} OpsWalk(ops: Group, i: nat, j: nat, iEnd: nat, jEnd: nat,
                                   before: seq<Token>, after: seq<Token>)
    requires ValidOps(ops, i, j, iEnd, jEnd, before, after)
    requires i <= |before| && j <= |after|
    ensures Walks(OpsEvents(ops, i, j, iEnd, jEnd, before, after), i, j, iEnd, jEnd, before, after)
    decreases |ops|
  {
    if ops != [] {
      OpWalks(ops[0], before, after);
      OpsWalk(ops[1..], ops[0].oldLast, ops[0].newLast, iEnd, jEnd, before, after);
      WalkJoin(OpEvents(ops[0], before, after),
               OpsEvents(ops[1..], ops[0].oldLast, ops[0].newLast, iEnd, jEnd, before, after),
               i, j, ops[0].oldLast, ops[0].newLast, iEnd, jEnd, before, after);
    }
  }

  /** A chunk covers something and its events lead from its start to its stop. */
  predicate ValidChunk(c: Chunk, before: seq<Token>, after: seq<Token>) {
    && Walks(c.events, c.oldStart, c.newStart, c.oldStop, c.newStop, before, after)
    && (c.oldStart < c.oldStop || c.newStart < c.newStop)
    && c.oldStart <= c.oldStop <= |before| && c.newStart <= c.newStop <= |after|
  }

  predicate ValidChunks(chunks: seq<Chunk>, i: nat, j: nat, iEnd: nat, jEnd: nat,
                        before: seq<Token>, after: seq<Token>)
  {
    if chunks == [] then SameRange(before, i, iEnd, after, j, jEnd)
    else
      var c := chunks[0];
      && ValidChunk(c, before, after)
      && SameRange(before, i, c.oldStart, after, j, c.newStart)
      && ValidChunks(chunks[1..], c.oldStop, c.newStop, iEnd, jEnd, before, after)
  }

  predicate AllValid(groups: seq<Group>, before: seq<Token>, after: seq<Token>) {
    forall k :: 0 <= k < |groups| ==> ValidGroup(groups[k], before, after)
  }

  function Chunks(groups: seq<Group>, before: seq<Token>, after: seq<Token>): seq<Chunk>
    requires AllValid(groups, before, after)
  {
    seq(|groups|, k requires 0 <= k < |groups| => GroupChunk(groups[k], before, after))
  }

  lemma {:induction false} ScriptGroupsValid(groups: seq<Group>, i: nat, j: nat, iEnd: nat, jEnd: nat,
                                             before: seq<Token>, after: seq<Token>)
    requires ValidScript(groups, i, j, iEnd, jEnd, before, after)
    ensures AllValid(groups, before, after)
    decreases |groups|
  {
    if groups != [] {
      ScriptGroupsValid(groups[1..], OldStop(groups[0]), NewStop(groups[0]), iEnd, jEnd, before, after);
      assert forall k :: 0 < k < |groups| ==> groups[k] == groups[1..][k - 1];
    }
  }

  lemma ChunksRest(groups: seq<Group>, before: seq<Token>, after: seq<Token>)
    requires groups != [] && AllValid(groups, before, after)
    ensures AllValid(groups[1..], before, after)
    ensures Chunks(groups, before, after)[1..] == Chunks(groups[1..], before, after)
  {
  }

  lemma {:induction false} ScriptChunksValid(groups: seq<Group>, i: nat, j: nat, iEnd: nat, jEnd: nat,
                                             before: seq<Token>, after: seq<Token>)
    requires ValidScript(groups, i, j, iEnd, jEnd, before, after) && AllValid(groups, before, after)
    ensures ValidChunks(Chunks(groups, before, after), i, j, iEnd, jEnd, before, after)
    decreases |groups|
  {
    if groups != [] {
      var g := groups[0];
      OpsWalk(g, g[0].oldFirst, g[0].newFirst, OldStop(g), NewStop(g), before, after);
      WalkEnds(GroupChunk(g, before, after).events, g[0].oldFirst, g[0].newFirst, OldStop(g), NewStop(g),
               before, after);
      ScriptChunksValid(groups[1..], OldStop(g), NewStop(g), iEnd, jEnd, before, after);
      ChunksRest(groups, before, after);
    }
  }

  // ---- printed lines and what the reader makes of them ----

  function EventLines(events: seq<Event>): seq<string> {
    if events == [] then [] else TokenLines(events[0]) + EventLines(events[1..])
  }

  function TokenLines(e: Event): seq<string> {
    [[e.prefix] + e.token.line] + (if e.token.newline then [] else [NO_NEWLINE])
  }

  function EventItems(events: seq<Event>): seq<PatchLine> {
    if events == [] then [] else TokenItems(events[0]) + EventItems(events[1..])
  }

  function TokenItems(e: Event): seq<PatchLine> {
    [Content(e.prefix, e.token.line)] + (if e.token.newline then [] else [Marker])
  }

  predicate Ordered(c: Chunk) {
    c.oldStart <= c.oldStop && c.newStart <= c.newStop
  }

  function HeaderLine(c: Chunk): string
    requires Ordered(c)
  {
    RenderHeader(c.oldStart, c.oldStop, c.newStart, c.newStop)
  }

  function ChunkLines(c: Chunk): seq<string>
    requires Ordered(c)
  {
    [HeaderLine(c)] + EventLines(c.events)
  }

  predicate AllOrdered(chunks: seq<Chunk>) {
    forall k :: 0 <= k < |chunks| ==> Ordered(chunks[k])
  }

  function ChunksLines(chunks: seq<Chunk>): seq<string>
    requires AllOrdered(chunks)
  {
    if chunks == [] then [] else ChunkLines(chunks[0]) + ChunksLines(chunks[1..])
  }

  lemma {:induction false} EventLinesConcat(a: seq<Event>, b: seq<Event>)
    ensures EventLines(a + b) == EventLines(a) + EventLines(b)
    decreases |a|
  {
    if a == [] {
      assert a + b == b;
    } else {
      assert (a + b)[1..] == a[1..] + b;
      EventLinesConcat(a[1..], b);
    }
  }

  /** The patch: header and body lines of all hunks, joined by newlines. */
  function RenderPatch(chunks: seq<Chunk>): string
    requires AllOrdered(chunks)
  {
    Join(ChunksLines(chunks), '\n')
  }

  /** How many tokens are shown with a prefix. */
  function Shown(events: seq<Event>, c: char): nat {
    if events == [] then 0 else (if events[0].prefix == c then 1 else 0) + Shown(events[1..], c)
  }

  function ShownInAll(chunks: seq<Chunk>, c: char): nat {
    if chunks == [] then 0 else Shown(chunks[0].events, c) + ShownInAll(chunks[1..], c)
  }

  lemma {:induction false} ShownConcat(a: seq<Event>, b: seq<Event>, c: char)
    ensures Shown(a + b, c) == Shown(a, c) + Shown(b, c)
    decreases |a|
  {
    if a == [] {
      assert a + b == b;
    } else {
      assert (a + b)[1..] == a[1..] + b;
      ShownConcat(a[1..], b, c);
    }
  }

  lemma {:induction false} ChunksSnoc(chunks: seq<Chunk>, chunk: Chunk, c: char)
    requires AllOrdered(chunks) && Ordered(chunk)
    ensures ChunksLines(chunks + [chunk]) == ChunksLines(chunks) + ChunkLines(chunk)
    ensures ShownInAll(chunks + [chunk], c) == ShownInAll(chunks, c) + Shown(chunk.events, c)
    decreases |chunks|
  {
    if chunks == [] {
      assert [] + [chunk] == [chunk] && [chunk][1..] == [];
    } else {
      assert (chunks + [chunk])[1..] == chunks[1..] + [chunk];
      ChunksSnoc(chunks[1..], chunk, c);
    }
  }
}

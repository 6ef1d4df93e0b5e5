/** White space, line breaks and lines, as the Markdown readers treat them. */
module Markdown {
  import opened Text

  // ---- white space and line breaks ----

  /** Python's str.isspace, and \s in its regular expressions. */
  predicate IsSpace(c: char) {
    || IsLineBoundary(c) || c == '\r' || c == '\t' || c == ' ' || c == '\U{1F}'
    || c == '\U{A0}' || c == '\U{1680}' || '\U{2000}' <= c <= '\U{200A}'
    || c == '\U{202F}' || c == '\U{205F}' || c == '\U{3000}'
  }

  /** The same, by code point. */
  lemma SpacesAre(c: char)
    ensures IsSpace(c) <==>
      var n := c as int;
      9 <= n <= 13 || 28 <= n <= 32 || n == 133 || n == 160 || n == 5760 || 8192 <= n <= 8202
      || n == 8232 || n == 8233 || n == 8239 || n == 8287 || n == 12288
  {
  }

  function StripLeft(s: string): string {
    if s != "" && IsSpace(s[0]) then StripLeft(s[1..]) else s
  }

  function StripRight(s: string): string {
    if s != "" && IsSpace(s[|s| - 1]) then StripRight(s[..|s| - 1]) else s
  }

  /** str.strip() */
  function Strip(s: string): string {
    StripRight(StripLeft(s))
  }

  predicate Trimmed(s: string) {
    s != "" && !IsSpace(s[0]) && !IsSpace(s[|s| - 1])
  }

  predicate Blank(s: string) {
    forall i :: 0 <= i < |s| ==> IsSpace(s[i])
  }

  /** "\n".join(s.splitlines()), up to one newline at the very end. */
  function Normalize(s: string): string
    decreases |s|
  {
    if s == "" then ""
    else if s[0] == '\r' then ['\n'] + Normalize(if |s| > 1 && s[1] == '\n' then s[2..] else s[1..])
    else [if IsLineBoundary(s[0]) then '\n' else s[0]] + Normalize(s[1..])
  }

  /** The only line breaks are newlines. */
  predicate NewlinesOnly(s: string) {
    forall i :: 0 <= i < |s| ==> s[i] == '\n' || !(s[i] == '\r' || IsLineBoundary(s[i]))
  }

  /** Printable ASCII: no line break of any kind, and no white space but the blank. */
  predicate Ascii(s: string) {
    forall i :: 0 <= i < |s| ==> ' ' <= s[i] <= '~'
  }

  lemma AsciiPrintable(s: string)
    requires Ascii(s) && s != "" && s[0] != ' ' && s[|s| - 1] != ' '
    ensures Trimmed(s) && NewlinesOnly(s) && '\n' !in s
  {
  }

  lemma {:induction false} StripPadded(before: string, core: string, after: string)
    requires Blank(before) && Blank(after) && Trimmed(core)
    ensures Strip(before + core + after) == core
    decreases |before| + |after|
  {
    var s := before + core + after;
    if before != "" {
      assert s[1..] == before[1..] + core + after;
      StripPadded(before[1..], core, after);
    } else if after != "" {
      assert s == core + after && s[0] == core[0];
      assert s[..|s| - 1] == core + after[..|after| - 1];
      StripPadded("", core, after[..|after| - 1]);
      assert "" + core + after[..|after| - 1] == s[..|s| - 1];
    } else {
      assert s == core;
    }
  }

  /** The text after its first character or its first pair of carriage return and newline. */
  function AfterFirst(s: string): (rest: string)
    requires s != ""
    ensures |rest| < |s|
  {
    if s[0] == '\r' && |s| > 1 && s[1] == '\n' then s[2..] else s[1..]
  }

  lemma NormalizeFirst(s: string)
    requires s != ""
    ensures Normalize(s) == [if s[0] == '\r' || IsLineBoundary(s[0]) then '\n' else s[0]] + Normalize(AfterFirst(s))
  {
  }

  lemma AfterFirstConcat(a: string, b: string)
    requires a != "" && a[|a| - 1] != '\r'
    ensures AfterFirst(a + b) == AfterFirst(a) + b
    ensures AfterFirst(a) == "" || AfterFirst(a)[|AfterFirst(a)| - 1] != '\r'
  {
  }

  lemma {:induction false} NormalizeConcat(a: string, b: string)
    requires a == "" || a[|a| - 1] != '\r'
    ensures Normalize(a + b) == Normalize(a) + Normalize(b)
    decreases |a|
  {
    if a == "" {
      assert a + b == b;
    } else {
      NormalizeFirst(a);
      NormalizeFirst(a + b);
      AfterFirstConcat(a, b);
      NormalizeConcat(AfterFirst(a), b);
    }
  }

  /** Normalizing leaves a text alone exactly when its only breaks are newlines. */
  lemma {:induction false} NormalizeFixes(s: string)
    ensures NewlinesOnly(Normalize(s))
    ensures NewlinesOnly(s) ==> Normalize(s) == s
    decreases |s|
  {
    if s != "" {
      NormalizeFixes(if s[0] == '\r' && |s| > 1 && s[1] == '\n' then s[2..] else s[1..]);
      if NewlinesOnly(s) {
        assert s[0] != '\r' && s == [s[0]] + s[1..];
      }
    }
  }

  lemma NormalizeTrimmed(s: string)
    requires Trimmed(s)
    ensures Trimmed(Normalize(s))
  {
    var front, last := s[..|s| - 1], s[|s| - 1..];
    assert s == front + last;
    if front == "" {
      assert Normalize(last[1..]) == "";
    } else {
      assert Normalize(s)[0] == s[0] && last == [last[0]];
      NormalizeEnd(front, last[0]);
    }
  }

  lemma {:induction false} NormalizeEnd(front: string, c: char)
    requires !IsSpace(c)
    ensures Normalize(front + [c]) != "" && Normalize(front + [c])[|Normalize(front + [c])| - 1] == c
    decreases |front|
  {
    var s := front + [c];
    if front == "" {
      assert s[1..] == "";
    } else {
      var skip := if s[0] == '\r' && s[1] == '\n' then 2 else 1;
      assert s[skip..] == front[skip..] + [c];
      NormalizeEnd(front[skip..], c);
    }
  }

  // ---- the characters that are not white space ----

  /** How many there are: what reading may lose and never adds. */
  function Ink(s: string): nat {
    if s == "" then 0 else (if IsSpace(s[0]) then 0 else 1) + Ink(s[1..])
  }

  lemma {:induction false} InkConcat(a: string, b: string)
    ensures Ink(a + b) == Ink(a) + Ink(b)
  {
    if a == "" {
      assert a + b == b;
    } else {
      InkConcat(a[1..], b);
      assert (a + b)[1..] == a[1..] + b;
    }
  }

  lemma {:induction false} InkStripRight(s: string)
    ensures Ink(StripRight(s)) == Ink(s)
  {
    if s != "" && IsSpace(s[|s| - 1]) {
      InkStripRight(s[..|s| - 1]);
      InkConcat(s[..|s| - 1], s[|s| - 1..]);
      assert s == s[..|s| - 1] + s[|s| - 1..];
    }
  }

  lemma {:induction false} InkStripLeft(s: string)
    ensures Ink(StripLeft(s)) == Ink(s)
  {
    if s != "" && IsSpace(s[0]) {
      InkStripLeft(s[1..]);
    }
  }

  lemma InkStrip(s: string)
    ensures Ink(Strip(s)) == Ink(s)
  {
    InkStripLeft(s);
    InkStripRight(StripLeft(s));
  }

  /** Normalizing turns white space into white space. */
  lemma {:induction false} InkNormalize(s: string)
    ensures Ink(Normalize(s)) == Ink(s)
    decreases |s|
  {
    if s != "" {
      var skip := if s[0] == '\r' && |s| > 1 && s[1] == '\n' then 2 else 1;
      InkNormalize(s[skip..]);
      if skip == 2 {
        assert s[1..][1..] == s[2..];
      }
    }
  }

  /** Stripping leaves nothing exactly of white space. */
  lemma StripsToNothing(s: string)
    ensures Strip(s) == "" <==> Blank(s)
  {
    InkStrip(s);
    BlankInk(s);
    if Blank(s) {
      BlankStripped(s);
    }
  }

  lemma {:induction false} BlankInk(s: string)
    ensures Ink(s) == 0 <==> Blank(s)
  {
    if s != "" {
      BlankInk(s[1..]);
      assert Blank(s) <==> IsSpace(s[0]) && Blank(s[1..]) by {
        if IsSpace(s[0]) && Blank(s[1..]) {
          forall i | 0 <= i < |s| ensures IsSpace(s[i]) {
            assert i > 0 ==> s[i] == s[1..][i - 1];
          }
        }
      }
    }
  }

  lemma {:induction false} BlankStripped(s: string)
    requires Blank(s)
    ensures StripLeft(s) == ""
  {
    if s != "" {
      BlankStripped(s[1..]);
    }
  }

  function InkLines(lines: seq<string>): nat {
    if lines == [] then 0 else Ink(lines[0]) + InkLines(lines[1..])
  }

  lemma {:induction false} InkLinesConcat(a: seq<string>, b: seq<string>)
    ensures InkLines(a + b) == InkLines(a) + InkLines(b)
  {
    if a == [] {
      assert a + b == b;
    } else {
      InkLinesConcat(a[1..], b);
      assert (a + b)[1..] == a[1..] + b;
    }
  }

  lemma {:induction false} InkJoin(lines: seq<string>)
    ensures Ink(Join(lines, '\n')) == InkLines(lines)
  {
    if |lines| > 1 {
      InkJoin(lines[1..]);
      InkConcat(lines[0] + ['\n'], Join(lines[1..], '\n'));
      InkConcat(lines[0], ['\n']);
    } else if |lines| == 1 {
      assert lines[1..] == [];
    }
  }

  lemma InkSplit(s: string)
    ensures InkLines(Split(s, '\n')) == Ink(s)
  {
    JoinSplit(s, '\n');
    InkJoin(Split(s, '\n'));
  }

  // ---- lines ----

  lemma SplitHead(c: char, rest: string)
    ensures Split([c] + rest, '\n')
         == if c == '\n' then [[]] + Split(rest, '\n')
            else [[c] + Split(rest, '\n')[0]] + Split(rest, '\n')[1..]
  {
    assert ([c] + rest)[1..] == rest;
  }

  lemma {:induction false} SplitConcat(a: string, b: string)
    ensures Split(a + ['\n'] + b, '\n') == Split(a, '\n') + Split(b, '\n')
  {
    if a == "" {
      SplitHead('\n', b);
      assert a + ['\n'] + b == ['\n'] + b;
      assert Split(a, '\n') == [[]];
    } else {
      SplitConcat(a[1..], b);
      SplitHeads(a[0], a[1..], b);
      assert a == [a[0]] + a[1..] && a + ['\n'] + b == [a[0]] + (a[1..] + ['\n'] + b);
    }
  }

  lemma SplitHeads(c: char, a: string, b: string)
    requires Split(a + ['\n'] + b, '\n') == Split(a, '\n') + Split(b, '\n')
    ensures Split([c] + (a + ['\n'] + b), '\n') == Split([c] + a, '\n') + Split(b, '\n')
  {
    SplitHead(c, a);
    SplitHead(c, a + ['\n'] + b);
    HeadsJoin(Split(a, '\n'), Split(b, '\n'), c);
  }

  lemma HeadsJoin(first: seq<string>, second: seq<string>, c: char)
    requires first != []
    ensures [[c] + (first + second)[0]] + (first + second)[1..] == [[c] + first[0]] + first[1..] + second
    ensures [[]] + (first + second) == [[]] + first + second
  {
  }
}

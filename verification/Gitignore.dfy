/** The .gitignore step of setup: what it adds, and what it leaves as it was. */
module Gitignore {
  import opened Wrappers
  import opened Text
  import Markdown

  const ENTRIES: seq<string> := [
    ".pkstack/state/", ".pkstack/tmp/", ".pkstack/projectctl/.venv/", ".pkstack-maintenance/", "/Wiki/work/"
  ]

  const HEADER := "# PKStack runtime state " + "(generated by /pkstack-setup)"

  /** Reading in text mode: every line ending becomes a newline. */
  function Universal(raw: string): (text: string)
    ensures '\r' !in text
    decreases |raw|
  {
    if raw == "" then ""
    else if raw[0] == '\r' then ['\n'] + Universal(if |raw| > 1 && raw[1] == '\n' then raw[2..] else raw[1..])
    else [raw[0]] + Universal(raw[1..])
  }

  /** A line that is the entry, white space aside, and no comment. */
  predicate IsEntryLine(line: string, entry: string) {
    && Markdown.Strip(line) == entry
    && Markdown.Strip(line) != ""
    && !("#" <= Markdown.StripLeft(line))
  }

  predicate HasEntry(text: string, entry: string) {
    exists i :: 0 <= i < |SplitLines(text)| && IsEntryLine(SplitLines(text)[i], entry)
  }

  /** For the entries of setup a line is the entry exactly when stripping it gives the entry. */
  lemma EntryLineExactly(line: string, i: nat)
    requires i < |ENTRIES|
    ensures IsEntryLine(line, ENTRIES[i]) <==> Markdown.Strip(line) == ENTRIES[i]
  {
    var left := Markdown.StripLeft(line);
    StripRightIsPrefix(left);
    assert ENTRIES[i][0] != '#';
  }

  lemma {:induction false} StripRightIsPrefix(s: string)
    ensures Markdown.StripRight(s) <= s
    decreases |s|
  {
    if s != "" && Markdown.IsSpace(s[|s| - 1]) {
      StripRightIsPrefix(s[..|s| - 1]);
    }
  }

  /** How many characters of the text make up its first character as read. */
  function Lead(raw: string): (n: nat)
    requires raw != ""
    ensures 1 <= n <= |raw|
  {
    if raw[0] == '\r' && |raw| > 1 && raw[1] == '\n' then 2 else 1
  }

  lemma UniversalStep(raw: string)
    requires raw != ""
    ensures Universal(raw) == [if raw[0] == '\r' then '\n' else raw[0]] + Universal(raw[Lead(raw)..])
  {
  }

  predicate IsEnding(e: string, b: string) {
    e == ['\r', '\n'] || (e == ['\r'] && !(['\n'] <= b))
  }

  lemma EndingFirst(e: string, b: string)
    requires IsEnding(e, b)
    ensures Universal(e + b) == ['\n'] + Universal(b)
  {
    UniversalStep(e + b);
    assert (e + b)[|e|..] == b;
  }

  lemma LeadStays(a: string, rest: string)
    requires a != "" && rest != "" && rest[0] == '\r'
    ensures Lead(a + rest) == Lead(a) && (a + rest)[Lead(a)..] == a[Lead(a)..] + rest
  {
  }

  lemma Regroup(c: char, a: string, b: string)
    ensures [c] + (a + b) == [c] + a + b
  {
  }

  /** A carriage return is one line ending, together with the newline after it if there is one. */
  lemma {:induction false} EndingIsNewline(a: string, e: string, b: string)
    requires IsEnding(e, b)
    ensures Universal(a + (e + b)) == Universal(a) + (['\n'] + Universal(b))
    decreases |a|
  {
    EndingFirst(e, b);
    if a == "" {
      assert a + (e + b) == e + b;
    } else {
      var n, c := Lead(a), if a[0] == '\r' then '\n' else a[0];
      EndingIsNewline(a[n..], e, b);
      LeadStays(a, e + b);
      UniversalStep(a);
      UniversalStep(a + (e + b));
      Regroup(c, Universal(a[n..]), ['\n'] + Universal(b));
    }
  }

  /** The first n of these entries that the text does not have, in their order. */
  function MissingOf(text: string, entries: seq<string>, n: nat): (missing: seq<string>)
    requires n <= |entries|
    ensures forall e :: e in missing <==> e in entries[..n] && !HasEntry(text, e)
    decreases n
  {
    if n == 0 then []
    else MissingOf(text, entries, n - 1) + (if HasEntry(text, entries[n - 1]) then [] else [entries[n - 1]])
  }

  function Missing(text: string): seq<string> {
    MissingOf(text, ENTRIES, |ENTRIES|)
  }

  function LinesOf(entries: seq<string>): string {
    if entries == [] then "" else entries[0] + "\n" + LinesOf(entries[1..])
  }

  function Block(missing: seq<string>): string {
    if |missing| == |ENTRIES| then LinesOf([HEADER] + ENTRIES) else LinesOf(missing)
  }

  /** The new text, or nothing to do. */
  function Ensured(existing: string): Option<string> {
    var missing := Missing(existing);
    if missing == [] then None
    else
      var prefix := if existing == "" || EndsWithNewline(existing) then "" else "\n";
      var separator := if existing == "" then "" else "\n";
      Some(existing + prefix + separator + Block(missing))
  }

  // ---- lines of a concatenation ----

  lemma SplitLinesStep(c: char, rest: string)
    ensures SplitLines([c] + rest) ==
            if IsLineBoundary(c) then [""] + SplitLines(rest)
            else if SplitLines(rest) == [] then [[c]]
            else [[c] + SplitLines(rest)[0]] + SplitLines(rest)[1..]
  {
    assert ([c] + rest)[1..] == rest;
  }

  lemma {:induction false} SplitLinesAfterNewline(a: string, b: string)
    ensures SplitLines(a + ['\n'] + b) == SplitLines(a + ['\n']) + SplitLines(b)
  {
    if a == "" {
      BlankLineFirst(b);
      assert a + ['\n'] == ['\n'];
    } else {
      var tail := a[1..] + ['\n'];
      SplitLinesAfterNewline(a[1..], b);
      CharFirst(a[0], tail, b);
      assert a + ['\n'] + b == [a[0]] + (tail + b) && a + ['\n'] == [a[0]] + tail;
    }
  }

  lemma BlankLineFirst(b: string)
    ensures SplitLines(['\n'] + b) == SplitLines(['\n']) + SplitLines(b)
  {
    SplitLinesStep('\n', b);
    SplitLinesStep('\n', "");
    assert ['\n'] + "" == ['\n'] && SplitLines("") == [];
  }

  lemma CharFirst(c: char, tail: string, b: string)
    requires tail != "" && SplitLines(tail + b) == SplitLines(tail) + SplitLines(b)
    ensures SplitLines([c] + (tail + b)) == SplitLines([c] + tail) + SplitLines(b)
  {
    SplitLinesStep(c, tail + b);
    SplitLinesStep(c, tail);
    Markdown.HeadsJoin(SplitLines(tail), SplitLines(b), c);
  }

  /** A final newline ends the last line; it adds one only after another boundary. */
  lemma {:induction false} SplitLinesSnoc(a: string)
    ensures SplitLines(a) <= SplitLines(a + ['\n'])
  {
    if a != "" {
      SplitLinesSnoc(a[1..]);
      SplitLinesStep(a[0], a[1..]);
      SplitLinesStep(a[0], a[1..] + ['\n']);
      assert a == [a[0]] + a[1..] && a + ['\n'] == [a[0]] + (a[1..] + ['\n']);
    }
  }

  lemma {:induction false} LinesOfLines(entries: seq<string>)
    requires forall i :: 0 <= i < |entries| ==> Unbroken(entries[i])
    ensures SplitLines(LinesOf(entries)) == entries
  {
    if entries != [] {
      var rest := LinesOf(entries[1..]);
      LinesOfLines(entries[1..]);
      SplitLinesFirst(entries[0], ['\n'] + rest);
      assert LinesOf(entries) == entries[0] + (['\n'] + rest);
      assert (['\n'] + rest)[1..] == rest;
    }
  }

  // ---- what the step guarantees ----

  lemma HasEntryPrefix(text: string, longer: string, entry: string)
    requires SplitLines(text) <= SplitLines(longer) && HasEntry(text, entry)
    ensures HasEntry(longer, entry)
  {
    var i :| 0 <= i < |SplitLines(text)| && IsEntryLine(SplitLines(text)[i], entry);
    assert SplitLines(longer)[i] == SplitLines(text)[i];
  }

  lemma HasEntrySuffix(a: string, b: string, entry: string)
    requires HasEntry(b, entry)
    ensures HasEntry(a + ['\n'] + b, entry)
  {
    SplitLinesAfterNewline(a, b);
    var i :| 0 <= i < |SplitLines(b)| && IsEntryLine(SplitLines(b)[i], entry);
    var n := |SplitLines(a + ['\n'])|;
    assert SplitLines(a + ['\n'] + b)[n + i] == SplitLines(b)[i];
  }

  lemma EntriesAscii()
    ensures Markdown.Ascii(".pkstack/state/") && Markdown.Ascii(".pkstack/tmp/") && Markdown.Ascii("/Wiki/work/")
    ensures Markdown.Ascii(".pkstack/projectctl/.venv/") && Markdown.Ascii(".pkstack-maintenance/")
  {
  }

  lemma HeaderAscii()
    ensures Markdown.Ascii(HEADER)
  {
    assert Markdown.Ascii("# PKStack runtime state ");
    assert Markdown.Ascii("(generated by /pkstack-setup)");
  }

  lemma AsciiUnbroken(s: string)
    requires Markdown.Ascii(s)
    ensures Unbroken(s) && '\r' !in s && '\n' !in s
  {
  }

  lemma EntryPlain(i: nat)
    requires i < |ENTRIES|
    ensures Unbroken(ENTRIES[i]) && '\r' !in ENTRIES[i] && IsEntryLine(ENTRIES[i], ENTRIES[i])
  {
    var entry := ENTRIES[i];
    EntriesAscii();
    AsciiUnbroken(entry);
    Markdown.AsciiPrintable(entry);
    Markdown.StripPadded("", entry, "");
    assert "" + entry + "" == entry;
  }

  lemma {:induction false} MissingIsPart(text: string, entries: seq<string>, n: nat)
    requires n <= |entries|
    ensures |MissingOf(text, entries, n)| <= n
    ensures |MissingOf(text, entries, n)| == n ==> MissingOf(text, entries, n) == entries[..n]
    decreases n
  {
    if n > 0 {
      MissingIsPart(text, entries, n - 1);
      TakeOneMore(entries, n - 1);
    }
  }

  lemma TakeOneMore(entries: seq<string>, n: nat)
    requires n < |entries|
    ensures entries[..n + 1] == entries[..n] + [entries[n]]
  {
  }

  lemma MissingAre(text: string)
    ensures forall e :: e in Missing(text) <==> e in ENTRIES && !HasEntry(text, e)
    ensures |Missing(text)| == |ENTRIES| ==> Missing(text) == ENTRIES
  {
    MissingIsPart(text, ENTRIES, |ENTRIES|);
    assert ENTRIES[..|ENTRIES|] == ENTRIES;
  }

  lemma BlockLines(existing: string)
    ensures SplitLines(Block(Missing(existing))) == Added(Missing(existing))
  {
    var missing := Missing(existing);
    MissingAre(existing);
    HeaderAscii();
    AsciiUnbroken(HEADER);
    forall i | 0 <= i < |ENTRIES| ensures Unbroken(ENTRIES[i]) {
      EntryPlain(i);
    }
    LinesOfLines([HEADER] + ENTRIES);
    forall i | 0 <= i < |missing| ensures Unbroken(missing[i]) {
      assert missing[i] in missing;
    }
    LinesOfLines(missing);
  }

  lemma MissingInBlock(existing: string, entry: string)
    requires entry in ENTRIES && !HasEntry(existing, entry)
    ensures HasEntry(Block(Missing(existing)), entry)
  {
    var missing := Missing(existing);
    var lines := SplitLines(Block(missing));
    BlockLines(existing);
    MissingAre(existing);
    var k :| 0 <= k < |ENTRIES| && ENTRIES[k] == entry;
    EntryPlain(k);
    assert entry in missing;
    assert entry in lines;
    var i :| 0 <= i < |lines| && lines[i] == entry;
    assert IsEntryLine(lines[i], entry);
  }

  /** The text before the block, which ends in a newline if it is not empty. */
  function Before(existing: string): string {
    if existing == "" then "" else existing + (if EndsWithNewline(existing) then "" else "\n") + "\n"
  }

  lemma EnsuredIs(existing: string)
    requires Ensured(existing).Some?
    ensures Ensured(existing).value == Before(existing) + Block(Missing(existing))
  {
    assert existing == "" ==> existing + "" + "" == "";
  }

  lemma BeforeKeepsLines(existing: string, block: string)
    ensures SplitLines(existing) <= SplitLines(Before(existing) + block)
  {
    if existing != "" {
      var body := if EndsWithNewline(existing) then existing[..|existing| - 1] else existing;
      var rest := ['\n'] + block;
      assert Before(existing) + block == body + ['\n'] + rest;
      SplitLinesAfterNewline(body, rest);
      if EndsWithNewline(existing) {
        assert existing == body + ['\n'];
      } else {
        SplitLinesSnoc(existing);
      }
    }
  }

  lemma BlockIsLast(existing: string, block: string, entry: string)
    requires HasEntry(block, entry)
    ensures HasEntry(Before(existing) + block, entry)
  {
    if existing == "" {
      assert "" + block == block;
    } else {
      var body := existing + (if EndsWithNewline(existing) then "" else "\n");
      assert Before(existing) + block == body + ['\n'] + block;
      HasEntrySuffix(body, block, entry);
    }
  }

  /** Afterwards all five entries are there, the old text is still in front, and a second run has nothing to do. */
  lemma EnsuredHoldsAll(existing: string)
    ensures var after := if Ensured(existing).Some? then Ensured(existing).value else existing;
            && existing <= after
            && (forall e :: e in ENTRIES ==> HasEntry(after, e))
            && Ensured(after) == None
  {
    var after := if Ensured(existing).Some? then Ensured(existing).value else existing;
    if Ensured(existing).Some? {
      var block := Block(Missing(existing));
      EnsuredIs(existing);
      BeforeKeepsLines(existing, block);
      forall e | e in ENTRIES ensures HasEntry(after, e) {
        if HasEntry(existing, e) {
          HasEntryPrefix(existing, after, e);
        } else {
          MissingInBlock(existing, e);
          BlockIsLast(existing, block, e);
        }
      }
    }
    NothingMissing(existing);
    NothingMissing(after);
  }

  /** The text with its last line ended. */
  function EndedText(existing: string): string {
    if EndsWithNewline(existing) then existing else existing + "\n"
  }

  lemma BlockUnderText(existing: string, block: string)
    ensures SplitLines(Before(existing) + block)
            == if existing == "" then SplitLines(block) else SplitLines(EndedText(existing)) + [""] + SplitLines(block)
  {
    if existing == "" {
      assert Before(existing) + block == block;
    } else {
      var ended := EndedText(existing);
      var body := ended[..|ended| - 1];
      assert ended == body + ['\n'] && Before(existing) + block == body + ['\n'] + (['\n'] + block);
      SplitLinesAfterNewline(body, ['\n'] + block);
      SplitLinesStep('\n', block);
    }
  }

  /** The lines added: the missing entries, under the header when all are missing. */
  function Added(missing: seq<string>): seq<string> {
    if |missing| == |ENTRIES| then [HEADER] + ENTRIES else missing
  }

  /** What is added is one blank line, the missing entries in their order, and the header when all were missing. */
  lemma EnsuredAddsOnly(existing: string)
    requires Ensured(existing).Some?
    ensures var added := Added(Missing(existing));
            SplitLines(Ensured(existing).value)
            == if existing == "" then added else SplitLines(EndedText(existing)) + [""] + added
  {
    EnsuredIs(existing);
    BlockLines(existing);
    BlockUnderText(existing, Block(Missing(existing)));
  }

  lemma NothingMissing(text: string)
    ensures Missing(text) == [] <==> forall e :: e in ENTRIES ==> HasEntry(text, e)
  {
    var missing := Missing(text);
    assert missing != [] ==> missing[0] in missing;
  }

  lemma {:induction false} LinesOfPlain(entries: seq<string>)
    requires forall i :: 0 <= i < |entries| ==> '\r' !in entries[i]
    ensures '\r' !in LinesOf(entries)
  {
    if entries != [] {
      LinesOfPlain(entries[1..]);
    }
  }

  lemma BlockPlain(existing: string)
    ensures '\r' !in Block(Missing(existing))
  {
    var missing := Missing(existing);
    MissingAre(existing);
    forall i | 0 <= i < |ENTRIES| ensures '\r' !in ENTRIES[i] {
      EntryPlain(i);
    }
    HeaderAscii();
    AsciiUnbroken(HEADER);
    forall i | 0 <= i < |missing| ensures '\r' !in missing[i] {
      assert missing[i] in missing;
    }
    LinesOfPlain(missing);
    LinesOfPlain([HEADER] + ENTRIES);
  }

  /** What is written holds no carriage return, so it is read back as it was written. */
  lemma EnsuredPlain(existing: string)
    requires '\r' !in existing && Ensured(existing).Some?
    ensures Universal(Ensured(existing).value) == Ensured(existing).value
  {
    EnsuredIs(existing);
    BlockPlain(existing);
    UniversalFirst(Ensured(existing).value, "");
  }

  lemma {:induction false} UniversalFirst(raw: string, rest: string)
    ensures '\r' in raw ==> !(raw <= Universal(raw) + rest)
    ensures '\r' !in raw ==> Universal(raw) == raw
  {
    if raw != "" && raw[0] != '\r' {
      UniversalFirst(raw[1..], rest);
      assert raw == [raw[0]] + raw[1..];
      SameFirst(raw[0], raw[1..], Universal(raw[1..]), rest);
    } else if raw != "" {
      assert (Universal(raw) + rest)[0] == '\n';
    }
  }

  lemma SameFirst(c: char, a: string, b: string, rest: string)
    ensures [c] + a <= [c] + b + rest <==> a <= b + rest
  {
    assert [c] + b + rest == [c] + (b + rest);
    if [c] + a <= [c] + (b + rest) {
      assert ([c] + a)[1..] == a && ([c] + (b + rest))[1..] == b + rest;
    }
  }

  /**
   * The step reads in text mode and writes bytes, so the old bytes stay in front exactly
   * when the file held no carriage return; otherwise its line endings are all rewritten.
   */
  lemma BytesKeptExactly(raw: string)
    requires Ensured(Universal(raw)).Some?
    ensures raw <= Ensured(Universal(raw)).value <==> '\r' !in raw
  {
    var text := Universal(raw);
    EnsuredHoldsAll(text);
    PrefixAfterReading(raw, text, Ensured(text).value);
  }

  lemma PrefixAfterReading(raw: string, text: string, after: string)
    requires text == Universal(raw) && text <= after
    ensures raw <= after <==> '\r' !in raw
  {
    UniversalFirst(raw, after[|text|..]);
    PrefixAndRest(text, after);
  }

  lemma PrefixAndRest(front: string, whole: string)
    requires front <= whole
    ensures whole == front + whole[|front|..]
  {
  }
}

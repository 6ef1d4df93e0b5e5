/** Python's two ways to cut text into lines, and how they differ. */
module Text {

  // ---- split(separator) and separator.join(...) ----

  /** s.split(separator): always at least one part. */
  function Split<T(==)>(s: seq<T>, separator: T): (parts: seq<seq<T>>)
    ensures |parts| >= 1
  {
    if s == [] then [[]]
    else
      var rest := Split(s[1..], separator);
      if s[0] == separator then [[]] + rest
      else [[s[0]] + rest[0]] + rest[1..]
  }

  /** separator.join(parts) */
  function Join<T>(parts: seq<seq<T>>, separator: T): seq<T>
  {
    if |parts| == 0 then []
    else if |parts| == 1 then parts[0]
    else parts[0] + [separator] + Join(parts[1..], separator)
  }

  predicate AllFree<T(==)>(parts: seq<seq<T>>, separator: T) {
    forall i :: 0 <= i < |parts| ==> separator !in parts[i]
  }

  lemma {:induction false} SplitPartsAreFree<T>(s: seq<T>, separator: T)
    ensures AllFree(Split(s, separator), separator)
  {
    if s != [] {
      SplitPartsAreFree(s[1..], separator);
    }
  }

  lemma {:induction false} JoinSplit<T>(s: seq<T>, separator: T)
    ensures Join(Split(s, separator), separator) == s
  {
    if s != [] {
      var rest := Split(s[1..], separator);
      JoinSplit(s[1..], separator);
      if s[0] != separator {
        var parts := [[s[0]] + rest[0]] + rest[1..];
        assert parts[1..] == rest[1..];
        assert Join(parts, separator) == [s[0]] + Join(rest, separator);
      } else {
        assert ([[]] + rest)[1..] == rest;
      }
    }
  }

  lemma {:induction false} SplitOfFree<T>(part: seq<T>, separator: T)
    requires separator !in part
    ensures Split(part, separator) == [part]
  {
    if part != [] {
      SplitOfFree(part[1..], separator);
      assert part == [part[0]] + part[1..];
    }
  }

  lemma {:induction false} SplitAtSeparator<T>(part: seq<T>, rest: seq<T>, separator: T)
    requires separator !in part
    ensures Split(part + [separator] + rest, separator) == [part] + Split(rest, separator)
  {
    var s := part + [separator] + rest;
    if part == [] {
      assert s[1..] == rest;
    } else {
      assert s[1..] == part[1..] + [separator] + rest;
      SplitAtSeparator(part[1..], rest, separator);
      assert part == [part[0]] + part[1..];
    }
  }

  /** Splitting what was joined gives the parts back, unless there were none. */
  lemma {:induction false} SplitJoin<T>(parts: seq<seq<T>>, separator: T)
    requires |parts| >= 1 && AllFree(parts, separator)
    ensures Split(Join(parts, separator), separator) == parts
  {
    if |parts| == 1 {
      SplitOfFree(parts[0], separator);
    } else {
      SplitJoin(parts[1..], separator);
      SplitAtSeparator(parts[0], Join(parts[1..], separator), separator);
      assert parts == [parts[0]] + parts[1..];
    }
  }

  lemma {:induction false} SplitSnocSeparator<T>(s: seq<T>, separator: T)
    ensures Split(s + [separator], separator) == Split(s, separator) + [[]]
  {
    if s == [] {
      assert Split([separator][1..], separator) == [[]];
    } else {
      assert (s + [separator])[1..] == s[1..] + [separator];
      SplitSnocSeparator(s[1..], separator);
    }
  }

  /** Joining one part more appends the separator and that part. */
  lemma {:induction false} JoinSnoc<T>(parts: seq<seq<T>>, last: seq<T>, separator: T)
    requires |parts| >= 1
    ensures Join(parts + [last], separator) == Join(parts, separator) + [separator] + last
  {
    if |parts| > 1 {
      assert (parts + [last])[1..] == parts[1..] + [last];
      JoinSnoc(parts[1..], last, separator);
    }
  }

  lemma {:induction false} JoinConcat<T>(a: seq<seq<T>>, b: seq<seq<T>>, separator: T)
    requires a != [] && b != []
    ensures Join(a + b, separator) == Join(a, separator) + [separator] + Join(b, separator)
  {
    if |a| == 1 {
      assert (a + b)[1..] == b;
    } else {
      assert (a + b)[1..] == a[1..] + b;
      JoinConcat(a[1..], b, separator);
    }
  }

  // ---- what a text may contain ----

  /** Free of the two characters no reviewable text may contain. */
  predicate Plain(s: string) {
    '\U{00}' !in s && '\r' !in s
  }

  predicate AllPlain(parts: seq<string>) {
    forall i :: 0 <= i < |parts| ==> Plain(parts[i])
  }

  lemma {:induction false} JoinPlain(parts: seq<string>)
    requires AllPlain(parts)
    ensures Plain(Join(parts, '\n'))
  {
    if |parts| > 1 {
      JoinPlain(parts[1..]);
    }
  }

  lemma {:induction false} SplitPlain(s: string)
    requires Plain(s)
    ensures AllPlain(Split(s, '\n'))
  {
    if s != "" {
      SplitPlain(s[1..]);
    }
  }

  // ---- the lines of a blob ----

  /** The lines of a text together with "its last line ends in a newline". */
  datatype Lines = Lines(lines: seq<string>, finalNewline: bool)

  predicate EndsWithNewline(s: string) {
    |s| > 0 && s[|s| - 1] == '\n'
  }

  function TextLines(text: string): Lines {
    if text == "" then Lines([], false)
    else
      var parts := Split(text, '\n');
      if EndsWithNewline(text) then Lines(parts[..|parts| - 1], true) else Lines(parts, false)
  }

  function LinesText(l: Lines): string {
    if l.lines == [] then ""
    else Join(l.lines, '\n') + (if l.finalNewline then "\n" else "")
  }

  lemma TextLinesPlain(text: string)
    requires Plain(text)
    ensures AllPlain(TextLines(text).lines)
  {
    SplitPlain(text);
  }

  lemma TextLinesParts(text: string)
    requires text != ""
    ensures var l := TextLines(text);
            && Split(text, '\n') == l.lines + (if l.finalNewline then [""] else [])
            && |l.lines| >= 1
            && AllFree(l.lines, '\n')
  {
    SplitPartsAreFree(text, '\n');
    if EndsWithNewline(text) {
      var body := text[..|text| - 1];
      assert text == body + ['\n'];
      SplitSnocSeparator(body, '\n');
    }
  }

  /** Cutting a text into lines loses nothing. */
  lemma LinesTextOfTextLines(text: string)
    ensures LinesText(TextLines(text)) == text
    ensures AllFree(TextLines(text).lines, '\n')
    ensures TextLines(text).lines == [] ==> !TextLines(text).finalNewline
  {
    if text != "" {
      TextLinesParts(text);
      JoinSplit(text, '\n');
      var l := TextLines(text);
      if l.finalNewline {
        JoinSnoc(l.lines, "", '\n');
      }
    }
  }

  /** Cutting at newlines finds the lines a text was put together from. */
  lemma LinesTextSplit(a: Lines)
    requires AllFree(a.lines, '\n') && a.lines != []
    ensures Split(LinesText(a), '\n') == a.lines + (if a.finalNewline then [""] else [])
  {
    SplitJoin(a.lines, '\n');
    if a.finalNewline {
      SplitSnocSeparator(Join(a.lines, '\n'), '\n');
    } else {
      assert LinesText(a) == Join(a.lines, '\n');
    }
  }

  // ---- splitlines() ----

  /** The characters at which Python's str.splitlines() ends a line, carriage return aside. */
  predicate IsLineBoundary(c: char) {
    || c == '\n' || c == '\U{0B}' || c == '\U{0C}'
    || c == '\U{1C}' || c == '\U{1D}' || c == '\U{1E}'
    || c == '\U{85}' || c == '\U{2028}' || c == '\U{2029}'
  }

  predicate Unbroken(s: string) {
    forall i :: 0 <= i < |s| ==> !IsLineBoundary(s[i])
  }

  /** str.splitlines() on text without a carriage return: no empty last line. */
  function SplitLines(s: string): (lines: seq<string>)
    ensures s != "" ==> |lines| >= 1
  {
    if s == "" then []
    else if IsLineBoundary(s[0]) then [""] + SplitLines(s[1..])
    else
      var rest := SplitLines(s[1..]);
      if rest == [] then [[s[0]]] else [[s[0]] + rest[0]] + rest[1..]
  }

  lemma {:induction false} SplitLinesAreUnbroken(s: string)
    ensures forall i :: 0 <= i < |SplitLines(s)| ==> Unbroken(SplitLines(s)[i])
  {
    if s != "" {
      SplitLinesAreUnbroken(s[1..]);
    }
  }

  /** The first line is what stands before the first boundary; that boundary is dropped. */
  lemma {:induction false} SplitLinesFirst(first: string, rest: string)
    requires Unbroken(first)
    requires first != "" || rest != ""
    requires rest != "" ==> IsLineBoundary(rest[0])
    ensures SplitLines(first + rest) == [first] + (if rest == "" then [] else SplitLines(rest[1..]))
  {
    var s := first + rest;
    if first == "" {
      assert s == rest;
    } else {
      assert s[1..] == first[1..] + rest;
      if first[1..] == "" && rest == "" {
        assert first == [s[0]];
      } else {
        SplitLinesFirst(first[1..], rest);
        var tail := SplitLines(s[1..]);
        assert SplitLines(s) == [[s[0]] + tail[0]] + tail[1..];
        assert [s[0]] + tail[0] == first;
      }
    }
  }

  /** splitlines() inverts the join of non-empty unbroken lines. */
  lemma {:induction false} SplitLinesJoin(lines: seq<string>)
    requires forall i :: 0 <= i < |lines| ==> Unbroken(lines[i]) && lines[i] != ""
    ensures SplitLines(Join(lines, '\n')) == lines
  {
    if |lines| == 1 {
      SplitLinesFirst(lines[0], "");
      assert lines[0] + "" == lines[0];
    } else if |lines| > 1 {
      SplitLinesJoin(lines[1..]);
      LineAndRest(lines[0], Join(lines[1..], '\n'));
      assert Join(lines, '\n') == lines[0] + ['\n'] + Join(lines[1..], '\n');
      assert lines == [lines[0]] + lines[1..];
    }
  }

  lemma LineAndRest(first: string, rest: string)
    requires Unbroken(first)
    ensures SplitLines(first + ['\n'] + rest) == [first] + SplitLines(rest)
  {
    SplitLinesFirst(first, ['\n'] + rest);
    assert first + ['\n'] + rest == first + (['\n'] + rest);
    assert (['\n'] + rest)[1..] == rest;
  }

  /** How far a line reads before its first boundary. */
  function UnbrokenPrefix(s: string): (n: nat)
    ensures n <= |s| && Unbroken(s[..n])
    ensures n < |s| ==> IsLineBoundary(s[n])
    ensures n == |s| <==> Unbroken(s)
  {
    if s == "" || IsLineBoundary(s[0]) then 0
    else
      var n := 1 + UnbrokenPrefix(s[1..]);
      assert s[..n] == [s[0]] + s[1..][..n - 1];
      n
  }

  /** With a broken line in it, the join still reads back up to that line, which comes back cut. */
  lemma {:induction false} SplitLinesCut(clean: seq<string>, broken: string, after: string)
    requires forall i :: 0 <= i < |clean| ==> Unbroken(clean[i]) && clean[i] != ""
    requires !Unbroken(broken) && UnbrokenPrefix(broken) > 0
    ensures var lines := SplitLines(Join(clean + [broken], '\n') + after);
            && |lines| > |clean|
            && lines[..|clean|] == clean
            && lines[|clean|] == broken[..UnbrokenPrefix(broken)]
  {
    var n := UnbrokenPrefix(broken);
    if clean == [] {
      assert Join([] + [broken], '\n') == broken;
      assert broken + after == broken[..n] + (broken[n..] + after);
      SplitLinesFirst(broken[..n], broken[n..] + after);
    } else {
      assert (clean + [broken])[1..] == clean[1..] + [broken];
      var rest := Join(clean[1..] + [broken], '\n') + after;
      SplitLinesCut(clean[1..], broken, after);
      SplitLinesFirst(clean[0], ['\n'] + rest);
      assert Join(clean + [broken], '\n') + after == clean[0] + (['\n'] + rest);
      assert (['\n'] + rest)[1..] == rest;
      var lines := SplitLines(clean[0] + (['\n'] + rest));
      assert lines == [clean[0]] + SplitLines(rest);
      assert lines[..|clean|] == [clean[0]] + SplitLines(rest)[..|clean| - 1];
      assert clean == [clean[0]] + clean[1..];
    }
  }

  // ---- encoded size ----

  /** Bytes one character takes in UTF-8 (RFC 3629, section 3). */
  function CharSize(c: char): nat {
    var n := c as int;
    if n < 0x80 then 1 else if n < 0x800 then 2 else if n < 0x10000 then 3 else 4
  }

  /** The table of RFC 3629: where each size begins and ends. */
  lemma SizesBeginAndEnd(c: char)
    ensures CharSize('\U{00}') == CharSize('\U{7F}') == 1 && CharSize('\U{80}') == CharSize('\U{7FF}') == 2
    ensures CharSize('\U{800}') == CharSize('\U{FFFF}') == 3 && CharSize('\U{10000}') == CharSize('\U{10FFFF}') == 4
    ensures 1 <= CharSize(c) <= 4 && (CharSize(c) == 1 <==> c <= '\U{7F}')
    ensures (CharSize(c) == 2 <==> '\U{80}' <= c <= '\U{7FF}') && (CharSize(c) == 3 <==> '\U{800}' <= c <= '\U{FFFF}')
  {
  }

  function Utf8Size(s: string): nat {
    if s == "" then 0 else CharSize(s[0]) + Utf8Size(s[1..])
  }
}

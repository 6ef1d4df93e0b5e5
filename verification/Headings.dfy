/** Markdown under headings: finding them in a list of lines, printing a list of sections, reading it back. */
module Headings {
  import opened Text
  import opened Markdown

  // ---- finding headings ----

  function Marks(level: nat): string {
    seq(level, _ => '#')
  }

  /** Exactly that many marks, then white space or the end of the line. */
  predicate Marked(line: string, level: nat) {
    && level <= |line| && line[..level] == Marks(level)
    && (|line| == level || IsSpace(line[level]))
  }

  /** ^#{level}\s+ matches here: white space follows the marks, if only the end of a line that is not the last. */
  predicate AtHeading(lines: seq<string>, level: nat) {
    lines != [] && Marked(lines[0], level) && (|lines[0]| > level || |lines| > 1)
  }

  /**
   * The text that \s+ leads to, on the marks' own line or a later one, and the lines after it;
   * spaced when there was more white space on the way than line breaks and the first character.
   */
  datatype Head = Head(text: string, spaced: bool, rest: seq<string>)

  function FirstText(lines: seq<string>, spaced: bool): (h: Head)
    ensures |h.rest| <= |lines|
    decreases |lines|
  {
    if lines == [] then Head("", spaced, [])
    else if Strip(lines[0]) != "" then Head(Strip(lines[0]), spaced, lines[1..])
    else FirstText(lines[1..], spaced || lines[0] != "")
  }

  function HeadOf(lines: seq<string>, level: nat): (h: Head)
    requires AtHeading(lines, level)
    ensures |h.rest| < |lines|
  {
    var own := Strip(lines[0][level..]);
    if own != "" then Head(own, false, lines[1..]) else FirstText(lines[1..], |lines[0]| > level + 1)
  }

  /** How many lines come before the next heading, or the end. */
  function NextHeading(lines: seq<string>, level: nat): (n: nat)
    ensures n <= |lines|
    decreases |lines|
  {
    if lines == [] || AtHeading(lines, level) then 0 else 1 + NextHeading(lines[1..], level)
  }

  /** The trimmed text from here to the next heading. */
  function Content(lines: seq<string>, level: nat): string {
    Strip(Join(lines[..NextHeading(lines, level)], '\n'))
  }

  /** A heading and the trimmed text under it. */
  datatype Item = Item(heading: string, content: string)

  /** re.findall for the headings of one level, each with the text under it. */
  function Listed(lines: seq<string>, level: nat): seq<Item>
    decreases |lines|
  {
    if lines == [] then []
    else if AtHeading(lines, level) then
      var h := HeadOf(lines, level);
      [Item(h.text, Content(h.rest, level))] + Listed(h.rest, level)
    else Listed(lines[1..], level)
  }

  /** The headings among these lines; when they are the last, bare marks on the last of them are none. */
  function Hits(lines: seq<string>, level: nat, last: bool): nat
    decreases |lines|
  {
    if lines == [] then 0
    else
      (if Marked(lines[0], level) && (|lines[0]| > level || |lines| > 1 || !last) then 1 else 0)
      + Hits(lines[1..], level, last)
  }

  /** No heading of that level is found inside the text, or at its end when nothing follows it. */
  predicate Free(text: string, level: nat, last: bool) {
    Hits(Split(text, '\n'), level, last) == 0
  }

  // ---- steps ----

  lemma ListedStep(line: string, rest: seq<string>, level: nat)
    ensures Listed([line] + rest, level)
         == if AtHeading([line] + rest, level)
            then var h := HeadOf([line] + rest, level);
                 [Item(h.text, Content(h.rest, level))] + Listed(h.rest, level)
            else Listed(rest, level)
  {
    assert ([line] + rest)[1..] == rest;
  }

  lemma NextStep(line: string, rest: seq<string>, level: nat)
    ensures NextHeading([line] + rest, level)
         == if AtHeading([line] + rest, level) then 0 else 1 + NextHeading(rest, level)
  {
    assert ([line] + rest)[1..] == rest;
  }

  lemma HitsStep(line: string, rest: seq<string>, level: nat, last: bool)
    ensures Hits([line] + rest, level, last)
         == (if Marked(line, level) && (|line| > level || rest != [] || !last) then 1 else 0)
            + Hits(rest, level, last)
  {
    assert ([line] + rest)[1..] == rest;
  }

  lemma BlankLine(level: nat)
    requires level > 0
    ensures !Marked("", level)
  {
  }

  lemma {:induction false} HitsConcat(a: seq<string>, b: seq<string>, level: nat, last: bool)
    requires b != []
    ensures Hits(a + b, level, last) == Hits(a, level, false) + Hits(b, level, last)
    decreases |a|
  {
    if a == [] {
      assert a + b == b;
    } else {
      HitsConcat(a[1..], b, level, last);
      HitsStep(a[0], a[1..] + b, level, last);
      assert a + b == [a[0]] + (a[1..] + b);
    }
  }

  /** Headings with no heading's marks in their text are all the headings there are. */
  lemma {:induction false} ListedCounts(lines: seq<string>, level: nat)
    requires level > 0
    requires forall i :: 0 <= i < |Listed(lines, level)| ==> !("#" <= Listed(lines, level)[i].heading)
    ensures |Listed(lines, level)| == Hits(lines, level, true)
    decreases |lines|
  {
    if lines != [] {
      var line, rest := lines[0], lines[1..];
      assert lines == [line] + rest;
      ListedStep(line, rest, level);
      HitsStep(line, rest, level, true);
      if AtHeading(lines, level) {
        var h := HeadOf(lines, level);
        var listed := Listed(lines, level);
        assert listed[0].heading == h.text && listed[1..] == Listed(h.rest, level);
        ListedCounts(h.rest, level);
        if Strip(line[level..]) == "" {
          FirstTextHits(rest, |line| > level + 1, level);
        }
      } else {
        ListedCounts(rest, level);
      }
    }
  }

  lemma {:induction false} FirstTextHits(lines: seq<string>, spaced: bool, level: nat)
    requires level > 0 && !("#" <= FirstText(lines, spaced).text)
    ensures Hits(lines, level, true) == Hits(FirstText(lines, spaced).rest, level, true)
    decreases |lines|
  {
    if lines != [] {
      HitsStep(lines[0], lines[1..], level, true);
      assert lines == [lines[0]] + lines[1..];
      if Marked(lines[0], level) {
        MarkedText(lines[0], level);
      }
      if Strip(lines[0]) == "" {
        FirstTextHits(lines[1..], spaced || lines[0] != "", level);
      }
    }
  }

  lemma MarkedText(line: string, level: nat)
    requires level > 0 && Marked(line, level)
    ensures "#" <= Strip(line)
  {
    assert line[0] == line[..level][0] == '#';
    StripRightKeepsFirst(line);
  }

  lemma {:induction false} StripRightKeepsFirst(s: string)
    requires s != "" && !IsSpace(s[0])
    ensures StripRight(s) != "" && StripRight(s)[0] == s[0]
  {
    if IsSpace(s[|s| - 1]) {
      StripRightKeepsFirst(s[..|s| - 1]);
    }
  }

  /** Bare marks at the end of a text are a heading just when something follows the text. */
  lemma BareMarksAtEnd(text: string, level: nat)
    requires level > 0
    ensures Free(text + "\n" + Marks(level), level, true) <==> Free(text, level, false)
    ensures !Free(text + "\n" + Marks(level), level, false)
  {
    var marks := Marks(level);
    SplitConcat(text, marks);
    assert text + ['\n'] + marks == text + "\n" + marks;
    SplitOfFree(marks, '\n');
    assert marks[..level] == marks;
    forall last: bool
      ensures Hits(Split(text, '\n') + [marks], level, last) == Hits(Split(text, '\n'), level, false) + if last then 0 else 1
    {
      HitsConcat(Split(text, '\n'), [marks], level, last);
      HitsStep(marks, [], level, last);
      assert [marks] + [] == [marks];
    }
  }

  // ---- reading never adds text ----

  lemma {:induction false} FirstTextInk(lines: seq<string>, spaced: bool)
    ensures var h := FirstText(lines, spaced); InkLines(lines) == Ink(h.text) + InkLines(h.rest)
    decreases |lines|
  {
    if lines != [] {
      InkStrip(lines[0]);
      if Strip(lines[0]) == "" {
        FirstTextInk(lines[1..], spaced || lines[0] != "");
      }
    }
  }

  lemma {:induction false} InkMarks(level: nat)
    ensures Ink(Marks(level)) == level
  {
    if level > 0 {
      InkMarks(level - 1);
      assert Marks(level)[1..] == Marks(level - 1);
    }
  }

  /** A heading takes its marks and its text, and leaves the rest. */
  lemma HeadInk(lines: seq<string>, level: nat)
    requires AtHeading(lines, level)
    ensures var h := HeadOf(lines, level); InkLines(lines) == level + Ink(h.text) + InkLines(h.rest)
  {
    var line := lines[0];
    InkConcat(line[..level], line[level..]);
    assert line == line[..level] + line[level..];
    InkMarks(level);
    InkStrip(line[level..]);
    FirstTextInk(lines[1..], |line| > level + 1);
  }

  lemma ContentInk(lines: seq<string>, level: nat)
    ensures var n := NextHeading(lines, level); InkLines(lines) == Ink(Content(lines, level)) + InkLines(lines[n..])
  {
    var n := NextHeading(lines, level);
    InkStrip(Join(lines[..n], '\n'));
    InkJoin(lines[..n]);
    InkLinesConcat(lines[..n], lines[n..]);
    assert lines == lines[..n] + lines[n..];
  }

  // ---- printing a list of sections ----

  function HeadingLine(level: nat, heading: string): string {
    Marks(level) + " " + heading
  }

  function Block(level: nat, item: Item): string {
    HeadingLine(level, item.heading) + "\n\n" + item.content
  }

  /** "\n\n".join of the blocks */
  function BlockText(level: nat, items: seq<Item>): string {
    if items == [] then ""
    else if |items| == 1 then Block(level, items[0])
    else Block(level, items[0]) + "\n\n" + BlockText(level, items[1..])
  }

  /** The lines from under a heading to the next one. */
  function BodyOf(content: string, last: bool): (body: seq<string>)
    ensures body != []
  {
    [""] + Split(content, '\n') + (if last then [] else [""])
  }

  function BlockLines(level: nat, items: seq<Item>): seq<string> {
    if items == [] then []
    else
      [HeadingLine(level, items[0].heading)]
      + (BodyOf(items[0].content, |items| == 1) + BlockLines(level, items[1..]))
  }

  predicate Printable(items: seq<Item>) {
    forall i :: 0 <= i < |items| ==>
      && Trimmed(items[i].heading) && NewlinesOnly(items[i].heading) && '\n' !in items[i].heading
      && Trimmed(items[i].content)
  }

  /** Each content is free of headings; only the last one may end the text they are in. */
  predicate AllFreeOf(items: seq<Item>, level: nat, last: bool) {
    forall i :: 0 <= i < |items| ==> Free(items[i].content, level, last && i == |items| - 1)
  }

  function Total(items: seq<Item>, level: nat, last: bool): nat {
    if items == [] then 0
    else Hits(Split(items[0].content, '\n'), level, last && |items| == 1) + Total(items[1..], level, last)
  }

  lemma HeadingLineIs(level: nat, heading: string, other: nat)
    ensures Marked(HeadingLine(level, heading), other) <==> level == other
    ensures |HeadingLine(level, heading)| > level
  {
    var line := HeadingLine(level, heading);
    assert line[..level] == Marks(level);
    assert line[level] == ' ';
    if other < level {
      assert line[other] == '#';
    } else if level < other && other <= |line| {
      assert Marks(other)[level] == '#' && line[..other][level] == ' ';
    }
  }

  lemma HeadingLineHead(level: nat, heading: string, rest: seq<string>)
    requires Trimmed(heading)
    ensures AtHeading([HeadingLine(level, heading)] + rest, level)
    ensures HeadOf([HeadingLine(level, heading)] + rest, level) == Head(heading, false, rest)
  {
    var line := HeadingLine(level, heading);
    HeadingLineIs(level, heading, level);
    assert line[level..] == " " + heading + "";
    StripPadded(" ", heading, "");
    assert ([line] + rest)[1..] == rest;
  }

  lemma BlockSplits(level: nat, item: Item)
    requires '\n' !in item.heading
    ensures Split(Block(level, item), '\n')
         == [HeadingLine(level, item.heading), ""] + Split(item.content, '\n')
  {
    var line := HeadingLine(level, item.heading);
    assert Block(level, item) == line + ['\n'] + ("" + ['\n'] + item.content);
    SplitConcat(line, "" + ['\n'] + item.content);
    SplitConcat("", item.content);
    SplitOfFree(line, '\n');
    assert [line] + ([""] + Split(item.content, '\n')) == [line, ""] + Split(item.content, '\n');
  }

  lemma {:induction false} BlockTextSplits(level: nat, items: seq<Item>)
    requires items != [] && Printable(items)
    ensures Split(BlockText(level, items), '\n') == BlockLines(level, items)
  {
    var line, lines := HeadingLine(level, items[0].heading), Split(items[0].content, '\n');
    BlockSplits(level, items[0]);
    if |items| > 1 {
      var rest := BlockText(level, items[1..]);
      BlockTextSplits(level, items[1..]);
      var first := Block(level, items[0]);
      assert BlockText(level, items) == first + ['\n'] + ("" + ['\n'] + rest);
      SplitConcat(first, "" + ['\n'] + rest);
      SplitConcat("", rest);
      BlockShape(line, lines, BlockLines(level, items[1..]));
    } else {
      BlockShape(line, lines, []);
      assert BlockLines(level, items[1..]) == [];
    }
  }

  lemma BlockShape(line: string, lines: seq<string>, rest: seq<string>)
    ensures [line, ""] + lines == [line] + (([""] + lines + []) + [])
    ensures ([line, ""] + lines) + ([""] + rest) == [line] + (([""] + lines + [""]) + rest)
  {
  }

  // ---- what is found in a printed list ----

  /** The headings of a printed list: its own, at its level, and those inside its contents. */
  lemma {:induction false} BlockLinesHits(level: nat, items: seq<Item>, other: nat, last: bool)
    requires other > 0
    ensures Hits(BlockLines(level, items), other, last)
         == (if level == other then |items| else 0) + Total(items, other, last)
    decreases |items|
  {
    if items != [] {
      var line, body := HeadingLine(level, items[0].heading), BodyOf(items[0].content, |items| == 1);
      var rest := BlockLines(level, items[1..]);
      HeadingLineIs(level, items[0].heading, other);
      BlockLinesHits(level, items[1..], other, last);
      HitsStep(line, body + rest, other, last);
      if |items| == 1 {
        assert body + rest == body;
        BodyHits(items[0].content, true, other, last);
      } else {
        HitsConcat(body, rest, other, last);
        BodyHits(items[0].content, false, other, false);
      }
    }
  }

  lemma BodyHits(content: string, ends: bool, level: nat, last: bool)
    requires level > 0 && (last ==> ends)
    ensures Hits(BodyOf(content, ends), level, last) == Hits(Split(content, '\n'), level, last)
  {
    var lines := Split(content, '\n');
    BlankLine(level);
    HitsStep("", lines, level, last);
    if ends {
      assert BodyOf(content, ends) == [""] + lines;
    } else {
      HitsConcat([""] + lines, [""], level, last);
      HitsStep("", [], level, last);
      assert [""] + [] == [""];
    }
  }

  lemma {:induction false} TotalZero(items: seq<Item>, level: nat, last: bool)
    ensures Total(items, level, last) == 0 <==> AllFreeOf(items, level, last)
    decreases |items|
  {
    if items != [] {
      TotalZero(items[1..], level, last);
      if AllFreeOf(items[1..], level, last) && Free(items[0].content, level, last && |items| == 1) {
        forall i | 1 <= i < |items| ensures Free(items[i].content, level, last && i == |items| - 1) {
          assert items[1..][i - 1] == items[i];
        }
      }
      if AllFreeOf(items, level, last) {
        forall i | 0 <= i < |items| - 1
          ensures Free(items[1..][i].content, level, last && i == |items[1..]| - 1)
        {
          assert Free(items[i + 1].content, level, last && i + 1 == |items| - 1);
        }
      }
    }
  }

  /** A printed list is free of a level when its contents are and it prints no heading of it. */
  lemma BlockTextFree(level: nat, items: seq<Item>, other: nat, last: bool)
    requires other > 0 && level != other && items != [] && Printable(items)
    ensures Free(BlockText(level, items), other, last) <==> AllFreeOf(items, other, last)
  {
    BlockTextSplits(level, items);
    BlockLinesHits(level, items, other, last);
    TotalZero(items, other, last);
  }

  // ---- where a printed content ends ----

  /** Up to a heading or the end, the next heading is past these lines exactly when they hold none. */
  lemma {:induction false} NextInside(a: seq<string>, b: seq<string>, level: nat)
    requires b == [] || AtHeading(b, level)
    ensures Hits(a, level, b == []) == 0 ==> NextHeading(a + b, level) == |a|
    ensures Hits(a, level, b == []) != 0 ==>
              NextHeading(a + b, level) < |a| && Marked(a[NextHeading(a + b, level)], level)
    decreases |a|
  {
    if a == [] {
      assert a + b == b;
    } else {
      var line, rest := a[0], a[1..];
      assert a == [line] + rest && a + b == [line] + (rest + b);
      NextInside(rest, b, level);
      NextStep(line, rest + b, level);
      HitsStep(line, rest, level, b == []);
    }
  }

  /** What is read under a printed heading: its content when free of headings, and otherwise only its beginning. */
  lemma ContentRead(content: string, last: bool, after: seq<string>, level: nat)
    requires level > 0 && Trimmed(content)
    requires last <==> after == []
    requires after == [] || AtHeading(after, level)
    ensures var body := BodyOf(content, last);
            if Free(content, level, last)
            then NextHeading(body + after, level) == |body| && Content(body + after, level) == content
            else Ink(Content(body + after, level)) < Ink(content)
  {
    var body := BodyOf(content, last);
    NextInside(body, after, level);
    BodyHits(content, last, level, last);
    BodyJoins(content, last);
    var n := NextHeading(body + after, level);
    if Free(content, level, last) {
      assert (body + after)[..n] == body;
    } else {
      assert (body + after)[..n] == body[..n];
      InkStrip(Join(body[..n], '\n'));
      InkJoin(body[..n]);
      InkCut(body, n, level);
      InkStrip(Join(body, '\n'));
      InkJoin(body);
    }
  }

  lemma InkCut(lines: seq<string>, n: nat, level: nat)
    requires n < |lines| && level > 0 && Marked(lines[n], level)
    ensures InkLines(lines[..n]) < InkLines(lines)
  {
    InkLinesConcat(lines[..n], lines[n..]);
    assert lines == lines[..n] + lines[n..];
    assert lines[n][0] == lines[n][..level][0] == '#';
  }

  lemma BodyJoins(content: string, last: bool)
    requires Trimmed(content)
    ensures Strip(Join(BodyOf(content, last), '\n')) == content
  {
    var lines := Split(content, '\n');
    JoinConcat([""], lines, '\n');
    JoinSplit(content, '\n');
    if last {
      assert [""] + lines + [] == [""] + lines;
      StripPadded("\n", content, "");
      assert "" + ['\n'] + content == "\n" + content + "";
    } else {
      JoinConcat([""] + lines, [""], '\n');
      StripPadded("\n", content, "\n");
      assert "" + ['\n'] + content + ['\n'] + "" == "\n" + content + "\n";
    }
  }

  lemma {:induction false} ListedSkips(a: seq<string>, b: seq<string>, level: nat)
    requires NextHeading(a + b, level) >= |a|
    ensures Listed(a + b, level) == Listed(b, level)
    decreases |a|
  {
    if a == [] {
      assert a + b == b;
    } else {
      assert a + b == [a[0]] + (a[1..] + b);
      NextStep(a[0], a[1..] + b, level);
      ListedSkips(a[1..], b, level);
      ListedStep(a[0], a[1..] + b, level);
    }
  }

  lemma BlockLinesHead(level: nat, items: seq<Item>)
    requires Printable(items) && items != []
    ensures AtHeading(BlockLines(level, items), level)
  {
    HeadingLineHead(level, items[0].heading, BodyOf(items[0].content, |items| == 1) + BlockLines(level, items[1..]));
  }

  lemma FirstListed(level: nat, item: Item, last: bool, rest: seq<string>)
    requires level > 0 && Trimmed(item.heading) && Trimmed(item.content) && Free(item.content, level, last)
    requires last <==> rest == []
    requires rest == [] || AtHeading(rest, level)
    ensures Listed([HeadingLine(level, item.heading)] + (BodyOf(item.content, last) + rest), level)
         == [item] + Listed(rest, level)
  {
    var body := BodyOf(item.content, last);
    ContentRead(item.content, last, rest, level);
    HeadingLineHead(level, item.heading, body + rest);
    ListedStep(HeadingLine(level, item.heading), body + rest, level);
    ListedSkips(body, rest, level);
  }

  /** Reading a printed list whose contents hold no heading of its level gives the list. */
  lemma {:induction false} ListedBlockLines(level: nat, items: seq<Item>)
    requires level > 0 && Printable(items) && AllFreeOf(items, level, true)
    ensures Listed(BlockLines(level, items), level) == items
    decreases |items|
  {
    if items != [] {
      var item, more := items[0], items[1..];
      FreeRest(items, level);
      ListedBlockLines(level, more);
      if more != [] {
        BlockLinesHead(level, more);
      }
      FirstListed(level, item, |items| == 1, BlockLines(level, more));
      assert items == [item] + more;
    }
  }

  lemma FreeRest(items: seq<Item>, level: nat)
    requires items != [] && AllFreeOf(items, level, true)
    ensures Free(items[0].content, level, |items| == 1) && AllFreeOf(items[1..], level, true)
  {
    forall i | 0 <= i < |items| - 1
      ensures Free(items[1..][i].content, level, i == |items[1..]| - 1)
    {
      assert Free(items[i + 1].content, level, i + 1 == |items| - 1);
    }
  }

  /** Marks, headings and contents of a list of sections. */
  function ItemsInk(level: nat, items: seq<Item>): nat {
    if items == [] then 0
    else level + Ink(items[0].heading) + Ink(items[0].content) + ItemsInk(level, items[1..])
  }

  lemma {:induction false} BlockTextInk(level: nat, items: seq<Item>)
    ensures Ink(BlockText(level, items)) == ItemsInk(level, items)
  {
    if items != [] {
      var item := items[0];
      InkMarks(level);
      InkConcat(Marks(level), " ");
      InkConcat(Marks(level) + " ", item.heading);
      InkConcat(HeadingLine(level, item.heading), "\n\n");
      InkConcat(HeadingLine(level, item.heading) + "\n\n", item.content);
      BlockTextInk(level, items[1..]);
      InkConcat(Block(level, item), "\n\n");
      InkConcat(Block(level, item) + "\n\n", BlockText(level, items[1..]));
      assert |items| == 1 ==> items[1..] == [];
    }
  }

  /** Every text is accounted for by its headings, what stands under them, and what comes before the first. */
  lemma {:induction false} ListedInk(lines: seq<string>, level: nat)
    ensures InkLines(lines)
         == InkLines(lines[..NextHeading(lines, level)]) + ItemsInk(level, Listed(lines, level))
    decreases |lines|
  {
    if lines != [] {
      if AtHeading(lines, level) {
        var h := HeadOf(lines, level);
        var n := NextHeading(h.rest, level);
        HeadInk(lines, level);
        ContentInk(h.rest, level);
        InkLinesConcat(h.rest[..n], h.rest[n..]);
        assert h.rest == h.rest[..n] + h.rest[n..];
        ListedInk(h.rest, level);
        ItemsInkStep(level, Item(h.text, Content(h.rest, level)), Listed(h.rest, level));
      } else {
        var n := NextHeading(lines[1..], level);
        ListedInk(lines[1..], level);
        assert lines[..n + 1] == [lines[0]] + lines[1..][..n];
      }
    }
  }

  lemma ItemsInkStep(level: nat, item: Item, more: seq<Item>)
    ensures ItemsInk(level, [item] + more) == level + Ink(item.heading) + Ink(item.content) + ItemsInk(level, more)
  {
    assert ([item] + more)[1..] == more;
  }

  /** The lines from behind a heading's marks to behind its text hold no heading, unless that text is one's marks. */
  lemma {:induction false} FirstTextSkips(lines: seq<string>, spaced: bool, level: nat) returns (skipped: seq<string>)
    requires level > 0 && !("#" <= FirstText(lines, spaced).text)
    ensures lines == skipped + FirstText(lines, spaced).rest && NextHeading(lines, level) >= |skipped|
    decreases |lines|
  {
    skipped := [];
    if lines != [] {
      if Marked(lines[0], level) {
        MarkedText(lines[0], level);
      }
      assert lines == [lines[0]] + lines[1..];
      if Strip(lines[0]) == "" {
        var more := FirstTextSkips(lines[1..], spaced || lines[0] != "", level);
        skipped := [lines[0]] + more;
      } else {
        skipped := [lines[0]];
      }
    }
  }

  // ---- normalizing what was printed ----

  function Normalized(items: seq<Item>): (r: seq<Item>)
    ensures |r| == |items|
    ensures forall i :: 0 <= i < |r| ==> r[i] == Item(items[i].heading, Normalize(items[i].content))
  {
    seq(|items|, i requires 0 <= i < |items| => Item(items[i].heading, Normalize(items[i].content)))
  }

  lemma NormalizedPrintable(items: seq<Item>)
    requires Printable(items)
    ensures Printable(Normalized(items))
  {
    forall i | 0 <= i < |items| ensures Trimmed(Normalize(items[i].content)) {
      NormalizeTrimmed(items[i].content);
    }
  }

  lemma NormalizeBlock(level: nat, item: Item)
    requires Printable([item])
    ensures Normalize(Block(level, item)) == Block(level, Item(item.heading, Normalize(item.content)))
  {
    assert [item][0] == item;
    var head := HeadingLine(level, item.heading) + "\n\n";
    NormalizeFixes(head);
    NormalizeConcat(head, item.content);
  }

  /** Normalizing a printed list normalizes its contents. */
  lemma {:induction false} NormalizeBlockText(level: nat, items: seq<Item>)
    requires Printable(items)
    ensures Normalize(BlockText(level, items)) == BlockText(level, Normalized(items))
  {
    if items != [] {
      var first := Block(level, items[0]);
      assert [items[0]][0] == items[0];
      NormalizeBlock(level, items[0]);
      if |items| > 1 {
        var rest := BlockText(level, items[1..]);
        NormalizeBlockText(level, items[1..]);
        assert Normalized(items)[1..] == Normalized(items[1..]);
        BlockEnd(level, items[0]);
        NormalizeConcat(first + "\n\n", rest);
        NormalizeConcat(first, "\n\n");
        NormalizeFixes("\n\n");
      }
    }
  }

  lemma BlockEnd(level: nat, item: Item)
    requires Trimmed(item.content)
    ensures var block := Block(level, item);
            block != "" && block[|block| - 1] == item.content[|item.content| - 1] != '\r'
  {
  }

  lemma {:induction false} BlockTextTrimmed(level: nat, items: seq<Item>)
    requires level > 0 && items != [] && Printable(items)
    ensures Trimmed(BlockText(level, items))
  {
    BlockEnd(level, items[0]);
    assert HeadingLine(level, items[0].heading)[0] == '#';
    if |items| > 1 {
      BlockTextTrimmed(level, items[1..]);
    }
  }
}

/** The feature contract in Markdown: printing its sections, reading them, and when the two agree. */
module FeatureSections {
  import opened Wrappers
  import opened Text
  import opened Markdown
  import opened Headings
  import opened Slugs

  datatype SubFeature = SubFeature(identifier: string, behavior: string)

  datatype Entrypoint = Entrypoint(identifier: string, userPath: string, drive: string, observable: string)

  /** What a contract's body says; slug, title and command live in its frontmatter. */
  datatype Feature = Feature(behavior: string, expectedPath: string,
                             subFeatures: seq<SubFeature>, entrypoints: seq<Entrypoint>,
                             gotchas: seq<string>, evidence: string, cleanup: string)

  // ---- identifiers ----

  /** A heading's identifier, with an optional back quote on either side. */
  function Identifier(heading: string): string {
    var left := if heading != "" && heading[0] == '`' then heading[1..] else heading;
    if left != "" && left[|left| - 1] == '`' then left[..|left| - 1] else left
  }

  /** A heading's identifier is this slug exactly when the heading is the slug with or without a back quote on each side. */
  lemma IdentifierExactly(heading: string, slug: string)
    requires IsSlug(slug)
    ensures Identifier(heading) == slug
            <==> || heading == slug || heading == ['`'] + slug || heading == slug + ['`']
                 || heading == ['`'] + slug + ['`']
  {
    var left := if heading != "" && heading[0] == '`' then heading[1..] else heading;
    assert slug[0] != '`' && slug[|slug| - 1] != '`';
    assert left == heading || heading == ['`'] + left;
    assert Identifier(heading) == left || left == Identifier(heading) + ['`'];
  }

  // ---- printing ----

  function Quoted(identifier: string): string {
    "`" + identifier + "`"
  }

  /** The items as printed, their identifiers in back quotes. */
  function Quote(items: seq<Item>): (quoted: seq<Item>)
    ensures |quoted| == |items|
    ensures forall i :: 0 <= i < |items| ==> quoted[i] == Item(Quoted(items[i].heading), items[i].content)
  {
    seq(|items|, i requires 0 <= i < |items| => Item(Quoted(items[i].heading), items[i].content))
  }

  function SubItems(subs: seq<SubFeature>): (items: seq<Item>)
    ensures |items| == |subs|
  {
    seq(|subs|, i requires 0 <= i < |subs| => Item(subs[i].identifier, subs[i].behavior))
  }

  function UserItems(entries: seq<Entrypoint>): (items: seq<Item>)
    ensures |items| == |entries|
  {
    seq(|entries|, i requires 0 <= i < |entries| => Item(entries[i].identifier, entries[i].userPath))
  }

  function RecipeItems(drive: string, observable: string): seq<Item> {
    [Item("Recipe", drive), Item("Observable proof", observable)]
  }

  function DriveItems(entries: seq<Entrypoint>): (items: seq<Item>)
    ensures |items| == |entries|
  {
    seq(|entries|, i requires 0 <= i < |entries| =>
      Item(entries[i].identifier, BlockText(4, RecipeItems(entries[i].drive, entries[i].observable))))
  }

  function Bullets(gotchas: seq<string>): (lines: seq<string>)
    ensures |lines| == |gotchas|
  {
    seq(|gotchas|, i requires 0 <= i < |gotchas| => "- " + gotchas[i])
  }

  function VerificationText(command: string): string {
    "`" + command + "`\n\nA passing command proves the behavior described above, not merely that files exist."
  }

  const HEADINGS: seq<string> := [
    "User behavior", "Expected path", "Sub-features", "How to get to it (user POV)", "Driving it",
    "Evidence boundary", "Cleanup boundary", "Gotchas", "Verification"
  ]

  function Contents(command: string, f: Feature): (texts: seq<string>)
    ensures |texts| == 9
  {
    [f.behavior, f.expectedPath,
     BlockText(3, Quote(SubItems(f.subFeatures))), BlockText(3, Quote(UserItems(f.entrypoints))),
     BlockText(3, Quote(DriveItems(f.entrypoints))),
     f.evidence, f.cleanup, Join(Bullets(f.gotchas), '\n'), VerificationText(command)]
  }

  function Titled(texts: seq<string>): (items: seq<Item>)
    requires |texts| == 9
    ensures |items| == 9
  {
    seq(9, i requires 0 <= i < 9 => Item(HEADINGS[i], texts[i]))
  }

  /** The document after its frontmatter. */
  function Render(title: string, command: string, f: Feature): string {
    "\n# " + title + "\n\n" + BlockText(2, Titled(Contents(command, f))) + "\n"
  }

  // ---- reading ----

  /**
   * Whether the pattern of the sections below level 2 matches at this heading: at level 3 over an identifier, at
   * level 4 over any text, in both cases with a line after it. White space may stand for a level-4 heading when
   * the text it leads to is the last line.
   */
  predicate Opens(h: Head, level: nat) {
    if level == 3 then h.rest != [] && IsSlug(Identifier(h.text)) else h.rest != [] || h.spaced
  }

  /** The heading and content groups of the match at a heading that opens. */
  function Opened(h: Head, level: nat): Item {
    if h.rest != [] then Item(h.text, Content(h.rest, level)) else Item(" ", h.text)
  }

  /** re.finditer: where a heading does not open, the search goes on at the line after its marks. */
  function Matches(lines: seq<string>, level: nat): seq<Item>
    decreases |lines|
  {
    if lines == [] then []
    else if AtHeading(lines, level) && Opens(HeadOf(lines, level), level) then
      var h := HeadOf(lines, level);
      [Opened(h, level)] + Matches(h.rest, level)
    else Matches(lines[1..], level)
  }

  /** The lines before the first match. */
  function Preface(lines: seq<string>, level: nat): seq<string>
    decreases |lines|
  {
    if lines == [] || (AtHeading(lines, level) && Opens(HeadOf(lines, level), level)) then []
    else [lines[0]] + Preface(lines[1..], level)
  }

  /** The nine level-2 sections, which must have exactly the headings above, in that order. */
  function ReadSections(text: string): (r: Option<seq<string>>)
    ensures r.Some? ==> |r.value| == 9
  {
    var found := Listed(Split(Strip(Normalize(text)), '\n'), 2);
    if |found| == 9 && forall i :: 0 <= i < 9 ==> found[i].heading == HEADINGS[i] then
      Some(seq(9, i requires 0 <= i < 9 => found[i].content))
    else None
  }

  /** Identifier and content of each match; an identifier is used once, over some text. */
  function ReadItems(matches: seq<Item>, seen: set<string>): (r: Option<seq<Item>>)
    ensures r.Some? ==> |r.value| == |matches|
    ensures r.Some? ==> forall i :: 0 <= i < |matches| ==>
              r.value[i] == Item(Identifier(matches[i].heading), matches[i].content)
  {
    if matches == [] then Some([])
    else
      var identifier, content := Identifier(matches[0].heading), matches[0].content;
      if identifier in seen || content == "" then None
      else
        var rest :- ReadItems(matches[1..], seen + {identifier});
        Some([Item(identifier, content)] + rest)
  }

  /** Every heading of level 3 must open a subsection, and nothing but white space may come before the first. */
  function Subsections(section: string): Option<seq<Item>> {
    var lines := Split(section, '\n');
    var matches := Matches(lines, 3);
    if |Listed(lines, 3)| != |matches| || matches == [] || Strip(Join(Preface(lines, 3), '\n')) != "" then None
    else ReadItems(matches, {})
  }

  function DriveParts(body: string): Option<(string, string)> {
    var lines := Split(body, '\n');
    var matches := Matches(lines, 4);
    if |matches| != 2 || Strip(Join(Preface(lines, 4), '\n')) != "" then None
    else if matches[0].heading != "Recipe" || matches[1].heading != "Observable proof" then None
    else if matches[0].content == "" || matches[1].content == "" then None
    else Some((matches[0].content, matches[1].content))
  }

  /** A recipe and a proof are read exactly when they are the two level-4 parts, in order, over some text, after none. */
  lemma DrivePartsExactly(body: string, drive: string, observable: string)
    ensures DriveParts(body) == Some((drive, observable))
            <==> && drive != "" && observable != ""
                 && Matches(Split(body, '\n'), 4) == RecipeItems(drive, observable)
                 && Strip(Join(Preface(Split(body, '\n'), 4), '\n')) == ""
  {
    var matches := Matches(Split(body, '\n'), 4);
    assert |matches| == 2 ==> matches == [matches[0], matches[1]];
  }

  /** Every user entrypoint with its same-order drive recipe. */
  function ReadEntrypoints(users: seq<Item>, drives: seq<Item>): Option<seq<Entrypoint>> {
    if users == [] && drives == [] then Some([])
    else if users == [] || drives == [] || users[0].heading != drives[0].heading then None
    else
      var recipe :- DriveParts(drives[0].content);
      var rest :- ReadEntrypoints(users[1..], drives[1..]);
      Some([Entrypoint(users[0].heading, users[0].content, recipe.0, recipe.1)] + rest)
  }

  function ReadBoth(userSection: string, driveSection: string): Option<seq<Entrypoint>> {
    var users :- Subsections(userSection);
    var drives :- Subsections(driveSection);
    ReadEntrypoints(users, drives)
  }

  function ReadBullets(lines: seq<string>): Option<seq<string>> {
    if lines == [] then Some([])
    else if !("- " <= lines[0]) || Strip(lines[0][2..]) == "" then None
    else
      var rest :- ReadBullets(lines[1..]);
      Some([Strip(lines[0][2..])] + rest)
  }

  function ReadSubFeatures(items: seq<Item>): (subs: seq<SubFeature>)
    ensures |subs| == |items|
  {
    seq(|items|, i requires 0 <= i < |items| => SubFeature(items[i].heading, items[i].content))
  }

  function ReadFeature(texts: seq<string>): Option<Feature>
    requires |texts| == 9
  {
    if exists i :: 0 <= i < 9 && texts[i] == "" then None
    else
      var subs :- Subsections(texts[2]);
      var entries :- ReadBoth(texts[3], texts[4]);
      var gotchas :- ReadBullets(Split(texts[7], '\n'));
      Some(Feature(texts[0], texts[1], ReadSubFeatures(subs), entries, gotchas, texts[5], texts[6]))
  }

  function Parse(text: string): Option<Feature> {
    var texts :- ReadSections(text);
    ReadFeature(texts)
  }

  lemma {:induction false} BulletsFilled(lines: seq<string>)
    requires ReadBullets(lines).Some?
    ensures var r := ReadBullets(lines).value; |r| == |lines| && forall i :: 0 <= i < |r| ==> r[i] != ""
  {
    if lines != [] {
      BulletsFilled(lines[1..]);
    }
  }

  /** Whatever is read is filled in: none of the nine texts is empty, and there is a sub-feature and a gotcha for each line. */
  lemma ReadFilled(texts: seq<string>)
    requires |texts| == 9 && ReadFeature(texts).Some?
    ensures var f := ReadFeature(texts).value;
            && (forall i :: 0 <= i < 9 ==> texts[i] != "")
            && f.behavior == texts[0] && f.expectedPath == texts[1] && f.evidence == texts[5] && f.cleanup == texts[6]
            && f.subFeatures != [] && (forall i :: 0 <= i < |f.gotchas| ==> f.gotchas[i] != "")
            && |f.gotchas| == |Split(texts[7], '\n')|
  {
    BulletsFilled(Split(texts[7], '\n'));
    assert texts[0] != "" && texts[8] != "";
  }

  // ---- the reading loops ----

  lemma ReadItemsNext(matches: seq<Item>, i: nat, seen: set<string>)
    requires i < |matches|
    ensures var identifier, content := Identifier(matches[i].heading), matches[i].content;
            ReadItems(matches[i..], seen) ==
            if identifier in seen || content == "" then None
            else Prepend([Item(identifier, content)], ReadItems(matches[i + 1..], seen + {identifier}))
  {
    assert matches[i..][0] == matches[i] && matches[i..][1..] == matches[i + 1..];
  }

  /** The loop over the matched subsections, with the identifiers seen so far. */
  method CollectItems(matches: seq<Item>) returns (r: Option<seq<Item>>)
    ensures r == ReadItems(matches, {})
  {
    var parsed: seq<Item>, seen: set<string> := [], {};
    var i := 0;
    assert matches[0..] == matches;
    PrependUnits(parsed, ReadItems(matches, {}));
    while i < |matches|
      invariant 0 <= i <= |matches|
      invariant ReadItems(matches, {}) == Prepend(parsed, ReadItems(matches[i..], seen))
    {
      var identifier := Identifier(matches[i].heading);
      var content := matches[i].content;
      ReadItemsNext(matches, i, seen);
      if identifier in seen || content == "" {
        return None;
      }
      seen := seen + {identifier};
      PrependJoins(parsed, [Item(identifier, content)], ReadItems(matches[i + 1..], seen));
      parsed := parsed + [Item(identifier, content)];
      i := i + 1;
    }
    PrependUnits(parsed, None);
    return Some(parsed);
  }

  lemma ReadEntrypointsNext(users: seq<Item>, drives: seq<Item>, i: nat)
    requires i < |users| && i < |drives| && users[i].heading == drives[i].heading
    ensures var recipe := DriveParts(drives[i].content);
            ReadEntrypoints(users[i..], drives[i..]) ==
            if recipe.None? then None
            else Prepend([Entrypoint(users[i].heading, users[i].content, recipe.value.0, recipe.value.1)],
                         ReadEntrypoints(users[i + 1..], drives[i + 1..]))
  {
    assert users[i..][0] == users[i] && users[i..][1..] == users[i + 1..];
    assert drives[i..][0] == drives[i] && drives[i..][1..] == drives[i + 1..];
  }

  predicate SameIdentifiers(users: seq<Item>, drives: seq<Item>) {
    |users| == |drives| && forall i :: 0 <= i < |users| ==> users[i].heading == drives[i].heading
  }

  /** The loop that pairs user paths with drive recipes, after comparing their identifiers. */
  method PairEntrypoints(users: seq<Item>, drives: seq<Item>) returns (r: Option<seq<Entrypoint>>)
    ensures r == ReadEntrypoints(users, drives)
  {
    if !SameIdentifiers(users, drives) {
      MismatchRefused(users, drives);
      return None;
    }
    var entries: seq<Entrypoint> := [];
    var i := 0;
    assert users[0..] == users && drives[0..] == drives;
    PrependUnits(entries, ReadEntrypoints(users, drives));
    while i < |users|
      invariant 0 <= i <= |users|
      invariant ReadEntrypoints(users, drives) == Prepend(entries, ReadEntrypoints(users[i..], drives[i..]))
    {
      var recipe := DriveParts(drives[i].content);
      ReadEntrypointsNext(users, drives, i);
      if recipe.None? {
        return None;
      }
      var entry := Entrypoint(users[i].heading, users[i].content, recipe.value.0, recipe.value.1);
      PrependJoins(entries, [entry], ReadEntrypoints(users[i + 1..], drives[i + 1..]));
      entries := entries + [entry];
      i := i + 1;
    }
    PrependUnits(entries, None);
    return Some(entries);
  }

  lemma {:induction false} MismatchRefused(users: seq<Item>, drives: seq<Item>)
    requires !SameIdentifiers(users, drives)
    ensures ReadEntrypoints(users, drives) == None
  {
    if users != [] && drives != [] && users[0].heading == drives[0].heading {
      if |users| == |drives| {
        var i :| 0 <= i < |users| && users[i].heading != drives[i].heading;
        assert users[1..][i - 1].heading != drives[1..][i - 1].heading;
      }
      MismatchRefused(users[1..], drives[1..]);
    }
  }

  // ---- level 2: the document ----

  predicate AllTrimmed(texts: seq<string>) {
    forall i :: 0 <= i < |texts| ==> Trimmed(texts[i])
  }

  function NormalizedAll(texts: seq<string>): (r: seq<string>)
    ensures |r| == |texts| && forall i :: 0 <= i < |r| ==> r[i] == Normalize(texts[i])
  {
    seq(|texts|, i requires 0 <= i < |texts| => Normalize(texts[i]))
  }

  /** No heading of that level inside any text, nor, the last one excepted, at its end. */
  predicate AllTextsFree(texts: seq<string>, level: nat) {
    forall i :: 0 <= i < |texts| ==> Free(texts[i], level, i == |texts| - 1)
  }

  lemma HeadingsAscii()
    ensures Ascii("User behavior") && Ascii("Expected path") && Ascii("Sub-features")
    ensures Ascii("Evidence boundary") && Ascii("Cleanup boundary") && Ascii("Gotchas") && Ascii("Verification")
  {
  }

  lemma LongHeadingsAscii()
    ensures Ascii("How to get to it (user POV)") && Ascii("Driving it")
  {
  }

  lemma HeadingsPrintable(i: nat)
    requires i < 9
    ensures Trimmed(HEADINGS[i]) && NewlinesOnly(HEADINGS[i]) && '\n' !in HEADINGS[i]
  {
    HeadingsAscii();
    LongHeadingsAscii();
    AsciiPrintable(HEADINGS[i]);
  }

  lemma TitledPrintable(texts: seq<string>)
    requires |texts| == 9 && AllTrimmed(texts)
    ensures Printable(Titled(texts))
  {
    forall i | 0 <= i < 9
      ensures Trimmed(HEADINGS[i]) && NewlinesOnly(HEADINGS[i]) && '\n' !in HEADINGS[i]
    {
      HeadingsPrintable(i);
    }
  }

  /** The body as the section reader sees it. */
  function Body(title: string, texts: seq<string>): string
    requires |texts| == 9
  {
    "# " + title + "\n\n" + BlockText(2, Titled(texts))
  }

  lemma BodyNormalized(title: string, texts: seq<string>)
    requires Trimmed(title) && |texts| == 9 && AllTrimmed(texts)
    ensures Strip(Normalize("\n" + Body(title, texts) + "\n")) == Body(Normalize(title), NormalizedAll(texts))
  {
    var items := Titled(texts);
    var head, blocks := "# " + title + "\n\n", BlockText(2, items);
    var head1, blocks1 := "# " + Normalize(title) + "\n\n", BlockText(2, Normalized(items));
    TitledPrintable(texts);
    NormalizedPrintable(items);
    NormalizeBlockText(2, items);
    BlockTextTrimmed(2, items);
    BlockTextTrimmed(2, Normalized(items));
    HeadNormalized(title);
    NormalizeBetweenNewlines(head, blocks);
    assert Normalized(items) == Titled(NormalizedAll(texts));
    assert Trimmed(head1 + blocks1);
    StripPadded("\n", head1 + blocks1, "\n");
  }

  lemma NormalizeBetweenNewlines(head: string, blocks: string)
    requires head != "" && head[|head| - 1] == '\n' && Trimmed(blocks)
    ensures Normalize("\n" + (head + blocks) + "\n") == "\n" + (Normalize(head) + Normalize(blocks)) + "\n"
  {
    NormalizeFixes("\n");
    NormalizeConcat("\n" + (head + blocks), "\n");
    NormalizeConcat("\n", head + blocks);
    NormalizeConcat(head, blocks);
  }

  lemma HeadNormalized(title: string)
    requires Trimmed(title)
    ensures Normalize("# " + title + "\n\n") == "# " + Normalize(title) + "\n\n"
  {
    NormalizeConcat("# " + title, "\n\n");
    NormalizeConcat("# ", title);
    NormalizeFixes("# ");
    NormalizeFixes("\n\n");
  }

  lemma BodySplits(title: string, texts: seq<string>)
    requires |texts| == 9 && AllTrimmed(texts)
    ensures Split(Body(title, texts), '\n')
         == (Split("# " + title, '\n') + [""]) + BlockLines(2, Titled(texts))
  {
    var blocks := BlockText(2, Titled(texts));
    TitledPrintable(texts);
    BlockTextSplits(2, Titled(texts));
    SplitTwoBreaks("# " + title, blocks);
  }

  lemma SplitTwoBreaks(a: string, b: string)
    ensures Split(a + "\n\n" + b, '\n') == (Split(a, '\n') + [""]) + Split(b, '\n')
  {
    SplitConcat("", b);
    SplitConcat(a, "" + ['\n'] + b);
    assert a + "\n\n" + b == a + ['\n'] + ("" + ['\n'] + b);
  }

  /** Nothing but the nine headings is found at level 2. */
  predicate Structured(title: string, texts: seq<string>) {
    Free("# " + Normalize(title), 2, false) && AllTextsFree(NormalizedAll(texts), 2)
  }

  lemma TitledFree(texts: seq<string>)
    requires |texts| == 9
    ensures AllFreeOf(Titled(texts), 2, true) <==> AllTextsFree(texts, 2)
  {
    if AllFreeOf(Titled(texts), 2, true) {
      forall i | 0 <= i < 9 ensures Free(texts[i], 2, i == 8) {
        assert Titled(texts)[i].content == texts[i];
      }
    }
  }

  function Front(title: string): seq<string> {
    Split("# " + title, '\n') + [""]
  }

  lemma FrontHits(title: string)
    ensures Hits(Front(title), 2, false) == Hits(Split("# " + title, '\n'), 2, false)
  {
    HitsConcat(Split("# " + title, '\n'), [""], 2, false);
    BlankLine(2);
    HitsStep("", [], 2, false);
    assert [""] + [] == [""];
  }

  /** With nothing else like a level-2 heading, the nine sections are found, with their texts. */
  lemma BodyFound(title: string, texts: seq<string>)
    requires |texts| == 9 && AllTrimmed(texts) && Free("# " + title, 2, false) && AllTextsFree(texts, 2)
    ensures Listed(Split(Body(title, texts), '\n'), 2) == Titled(texts)
  {
    var items := Titled(texts);
    BodySplits(title, texts);
    TitledPrintable(texts);
    TitledFree(texts);
    ListedBlockLines(2, items);
    BlockLinesHead(2, items);
    FrontHits(title);
    NextInside(Front(title), BlockLines(2, items), 2);
    ListedSkips(Front(title), BlockLines(2, items), 2);
  }

  predicate NineHeadings(found: seq<Item>) {
    |found| == 9 && forall i :: 0 <= i < 9 ==> found[i].heading == HEADINGS[i]
  }

  /** With anything more, the headings found are not the nine: others come between them, or their marks are read as text. */
  lemma BodyRefused(title: string, texts: seq<string>)
    requires |texts| == 9 && AllTrimmed(texts) && !(Free("# " + title, 2, false) && AllTextsFree(texts, 2))
    ensures !NineHeadings(Listed(Split(Body(title, texts), '\n'), 2))
  {
    var items, lines := Titled(texts), Split(Body(title, texts), '\n');
    BodySplits(title, texts);
    TitledPrintable(texts);
    TitledFree(texts);
    TotalZero(items, 2, true);
    FrontHits(title);
    BlockLinesHead(2, items);
    HitsConcat(Front(title), BlockLines(2, items), 2, true);
    BlockLinesHits(2, items, 2, true);
    if NineHeadings(Listed(lines, 2)) {
      forall i | 0 <= i < 9 ensures !("#" <= Listed(lines, 2)[i].heading) {
        HeadingsPrintable(i);
        NoMarkFirst(i);
      }
      ListedCounts(lines, 2);
    }
  }

  lemma NoMarkFirst(i: nat)
    requires i < 9
    ensures !("#" <= HEADINGS[i])
  {
    assert HEADINGS[i][0] in ['U', 'E', 'S', 'H', 'D', 'C', 'G', 'V'];
  }

  /** The section reader finds the nine printed texts, or refuses, just as the headings demand. */
  lemma SectionsExactly(title: string, texts: seq<string>)
    requires Trimmed(title) && |texts| == 9 && AllTrimmed(texts)
    ensures ReadSections("\n" + Body(title, texts) + "\n")
         == if Structured(title, texts) then Some(NormalizedAll(texts)) else None
  {
    var title1, texts1 := Normalize(title), NormalizedAll(texts);
    BodyNormalized(title, texts);
    forall i | 0 <= i < 9 ensures Trimmed(texts1[i]) {
      NormalizeTrimmed(texts[i]);
    }
    if Structured(title, texts) {
      BodyFound(title1, texts1);
      var found := Titled(texts1);
      assert seq(9, i requires 0 <= i < 9 => found[i].content) == texts1;
    } else {
      BodyRefused(title1, texts1);
    }
  }

  // ---- level 3: identified subsections ----

  predicate Identified(items: seq<Item>) {
    && (forall i :: 0 <= i < |items| ==> IsSlug(items[i].heading) && Trimmed(items[i].content))
    && forall i, j :: 0 <= i < j < |items| ==> items[i].heading != items[j].heading
  }

  lemma SlugIsOneWord(s: string)
    requires IsSlug(s)
    ensures Trimmed(Quoted(s)) && NewlinesOnly(Quoted(s)) && '\n' !in Quoted(s)
    ensures Identifier(Quoted(s)) == s
  {
  }

  lemma QuotedPrintable(items: seq<Item>)
    requires Identified(items)
    ensures Printable(Quote(items))
  {
    forall i | 0 <= i < |items|
      ensures var h := Quote(items)[i].heading; Trimmed(h) && NewlinesOnly(h) && '\n' !in h
    {
      SlugIsOneWord(items[i].heading);
    }
  }

  lemma {:induction false} ReadItemsOf(items: seq<Item>, seen: set<string>)
    requires Identified(items)
    requires forall i :: 0 <= i < |items| ==> items[i].heading !in seen
    ensures ReadItems(Quote(items), seen) == Some(items)
  {
    if items != [] {
      SlugIsOneWord(items[0].heading);
      assert Quote(items)[1..] == Quote(items[1..]);
      ReadItemsOf(items[1..], seen + {items[0].heading});
      assert items == [items[0]] + items[1..];
    }
  }

  lemma MatchesStep(line: string, rest: seq<string>, level: nat)
    ensures var lines := [line] + rest;
            Matches(lines, level)
            == if AtHeading(lines, level) && Opens(HeadOf(lines, level), level)
               then [Opened(HeadOf(lines, level), level)] + Matches(HeadOf(lines, level).rest, level)
               else Matches(rest, level)
  {
    assert ([line] + rest)[1..] == rest;
  }

  lemma {:induction false} MatchesSkip(a: seq<string>, b: seq<string>, level: nat)
    requires NextHeading(a + b, level) >= |a|
    ensures Matches(a + b, level) == Matches(b, level)
    decreases |a|
  {
    if a == [] {
      assert a + b == b;
    } else {
      assert a + b == [a[0]] + (a[1..] + b);
      NextStep(a[0], a[1..] + b, level);
      MatchesSkip(a[1..], b, level);
      MatchesStep(a[0], a[1..] + b, level);
    }
  }

  /** Matching never adds text: marks, headings and contents are all in the lines matched. */
  lemma {:induction false} MatchesInk(lines: seq<string>, level: nat)
    ensures ItemsInk(level, Matches(lines, level)) <= InkLines(lines)
    decreases |lines|
  {
    if lines != [] {
      if AtHeading(lines, level) && Opens(HeadOf(lines, level), level) {
        var h := HeadOf(lines, level);
        var n := NextHeading(h.rest, level);
        HeadInk(lines, level);
        ContentInk(h.rest, level);
        assert h.rest == h.rest[..n] + h.rest[n..];
        MatchesSkip(h.rest[..n], h.rest[n..], level);
        MatchesInk(h.rest[n..], level);
        OpenedInk(h, level, Matches(h.rest, level));
      } else {
        MatchesInk(lines[1..], level);
      }
    }
  }

  lemma OpenedInk(h: Head, level: nat, more: seq<Item>)
    requires h.rest == [] ==> more == []
    ensures ItemsInk(level, [Opened(h, level)] + more)
         == level + Ink(h.text) + (if h.rest == [] then 0 else Ink(Content(h.rest, level))) + ItemsInk(level, more)
  {
    assert ([Opened(h, level)] + more)[1..] == more;
    assert Ink(" ") == 0;
  }

  /** Headings that open a section when there is text under them. */
  predicate AllOpen(items: seq<Item>, level: nat) {
    level == 3 ==> forall i :: 0 <= i < |items| ==> IsSlug(Identifier(items[i].heading))
  }

  /** The k-th content comes back with text missing. */
  predicate ComesShort(found: seq<Item>, items: seq<Item>, k: nat) {
    k < |found| && k < |items| && Ink(found[k].content) < Ink(items[k].content)
  }

  /** The match at a printed heading: its item, with the search going on behind it, or one with a shorter content. */
  lemma FirstMatch(level: nat, item: Item, last: bool, rest: seq<string>)
    requires level > 0 && Trimmed(item.heading) && Trimmed(item.content)
    requires level == 3 ==> IsSlug(Identifier(item.heading))
    requires last <==> rest == []
    requires rest == [] || AtHeading(rest, level)
    ensures var found := Matches([HeadingLine(level, item.heading)] + (BodyOf(item.content, last) + rest), level);
            if Free(item.content, level, last) then found == [item] + Matches(rest, level)
            else found != [] && Ink(found[0].content) < Ink(item.content)
  {
    var body := BodyOf(item.content, last);
    ContentRead(item.content, last, rest, level);
    HeadingLineHead(level, item.heading, body + rest);
    MatchesStep(HeadingLine(level, item.heading), body + rest, level);
    if Free(item.content, level, last) {
      MatchesSkip(body, rest, level);
    }
  }

  /** Matching a printed list gives the list, or, at the first content with a heading in it, something shorter. */
  lemma {:induction false} MatchesBlockLines(level: nat, items: seq<Item>) returns (k: nat)
    requires level > 0 && Printable(items) && AllOpen(items, level)
    ensures AllFreeOf(items, level, true) ==> Matches(BlockLines(level, items), level) == items
    ensures !AllFreeOf(items, level, true) ==> ComesShort(Matches(BlockLines(level, items), level), items, k)
    decreases |items|
  {
    k := 0;
    if items != [] {
      var item, more := items[0], items[1..];
      if more != [] {
        BlockLinesHead(level, more);
      }
      FirstMatch(level, item, |items| == 1, BlockLines(level, more));
      FreeSplit(items, level);
      if Free(item.content, level, |items| == 1) {
        var j := MatchesBlockLines(level, more);
        k := j + 1;
        assert items == [item] + more;
      }
    }
  }

  lemma FreeSplit(items: seq<Item>, level: nat)
    requires items != []
    ensures AllFreeOf(items, level, true)
            <==> Free(items[0].content, level, |items| == 1) && AllFreeOf(items[1..], level, true)
  {
    if AllFreeOf(items, level, true) {
      FreeRest(items, level);
    }
    if Free(items[0].content, level, |items| == 1) && AllFreeOf(items[1..], level, true) {
      forall i | 1 <= i < |items| ensures Free(items[i].content, level, i == |items| - 1) {
        assert items[1..][i - 1] == items[i];
      }
    }
  }

  lemma PrefaceNone(level: nat, items: seq<Item>)
    requires Printable(items) && AllOpen(items, level) && items != []
    ensures Preface(BlockLines(level, items), level) == []
  {
    HeadingLineHead(level, items[0].heading, BodyOf(items[0].content, |items| == 1) + BlockLines(level, items[1..]));
  }

  lemma QuotedOpen(items: seq<Item>)
    requires Identified(items)
    ensures AllOpen(Quote(items), 3)
  {
    forall i | 0 <= i < |items| ensures IsSlug(Identifier(Quote(items)[i].heading)) {
      SlugIsOneWord(items[i].heading);
    }
  }

  /** Printed subsections read back exactly when no level-3 heading is found in them; else one comes back short, if any. */
  lemma SubsectionsExactly(items: seq<Item>)
    requires items != [] && Identified(items)
    ensures var r := Subsections(BlockText(3, Quote(items)));
            if AllFreeOf(items, 3, true) then r == Some(items)
            else r.Some? ==> exists k :: ComesShort(r.value, items, k)
  {
    var quoted := Quote(items);
    QuotedPrintable(items);
    QuotedOpen(items);
    BlockTextSplits(3, quoted);
    QuoteFree(items, 3, true);
    PrefaceNone(3, quoted);
    var k := MatchesBlockLines(3, quoted);
    if AllFreeOf(items, 3, true) {
      ListedBlockLines(3, quoted);
      ReadItemsOf(items, {});
    } else {
      var r := Subsections(BlockText(3, quoted));
      assert r.Some? ==> ComesShort(r.value, items, k);
    }
  }

  lemma QuoteFree(items: seq<Item>, level: nat, last: bool)
    ensures AllFreeOf(Quote(items), level, last) <==> AllFreeOf(items, level, last)
  {
    if AllFreeOf(Quote(items), level, last) {
      forall i | 0 <= i < |items| ensures Free(items[i].content, level, last && i == |items| - 1) {
        assert Quote(items)[i].content == items[i].content;
      }
    }
  }

  /** Bare marks before a printed heading are a heading with that line for its text. */
  lemma SwallowedHeading(line: string, rest: seq<string>)
    requires Trimmed(line)
    ensures var lines := ["###"] + ([""] + ([line] + rest));
            AtHeading(lines, 3) && HeadOf(lines, 3) == Head(line, false, rest)
  {
    var lines := ["###"] + ([""] + ([line] + rest));
    assert Marks(3) == "###" && "###"[3..] == "" && lines[0] == "###";
    assert lines[1..] == [""] + ([line] + rest);
    assert ([""] + ([line] + rest))[1..] == [line] + rest && ([line] + rest)[1..] == rest;
    StripPadded("", line, "");
    assert line == "" + line + "";
    assert FirstText([line] + rest, false) == Head(line, false, rest);
    assert FirstText([""] + ([line] + rest), false) == FirstText([line] + rest, false);
  }

  lemma HeadingNoSlug(heading: string)
    requires Trimmed(heading)
    ensures Trimmed(HeadingLine(3, heading)) && !IsSlug(Identifier(HeadingLine(3, heading)))
  {
    var line := HeadingLine(3, heading);
    assert line[0] == Marks(3)[0] == '#' && line[|line| - 1] == heading[|heading| - 1];
    assert Identifier(line)[0] == '#';
  }

  /** After bare marks one heading is found, the marks with the next heading's line for text. */
  lemma AfterBareMarks(b: Item)
    requires Trimmed(b.heading) && Trimmed(b.content) && Free(b.content, 3, true)
    ensures var lines := ["###"] + ([""] + BlockLines(3, [b]));
            AtHeading(lines, 3) && |Listed(lines, 3)| == 1
  {
    var line, body := HeadingLine(3, b.heading), BodyOf(b.content, true);
    OneBlock(b);
    HeadingNoSlug(b.heading);
    SwallowedHeading(line, body);
    ListedStep("###", [""] + BlockLines(3, [b]), 3);
    BodyHits(b.content, true, 3, true);
    NextInside(body, [], 3);
    ListedSkips(body, [], 3);
    assert body + [] == body;
  }

  /** After bare marks one subsection is matched, the next printed one. */
  lemma MatchedAfterMarks(b: Item)
    requires Trimmed(b.heading) && IsSlug(Identifier(b.heading)) && Trimmed(b.content) && Free(b.content, 3, true)
    ensures Matches(["###"] + ([""] + BlockLines(3, [b])), 3) == [b]
  {
    var line, body := HeadingLine(3, b.heading), BodyOf(b.content, true);
    OneBlock(b);
    HeadingNoSlug(b.heading);
    SwallowedHeading(line, body);
    MatchesStep("###", [""] + BlockLines(3, [b]), 3);
    MatchesStep("", BlockLines(3, [b]), 3);
    BlankLine(3);
    FirstMatch(3, b, true, []);
    assert body + [] == body && [b] + [] == [b];
  }

  lemma OneBlock(b: Item)
    ensures BlockLines(3, [b]) == [HeadingLine(3, b.heading)] + BodyOf(b.content, true)
  {
    assert [b][1..] == [] && BlockLines(3, [b][1..]) == [];
    assert BodyOf(b.content, true) + [] == BodyOf(b.content, true);
  }

  lemma TwoBlocks(a: Item, b: Item)
    ensures BlockLines(3, [a, b]) == [HeadingLine(3, a.heading)] + (BodyOf(a.content, false) + BlockLines(3, [b]))
  {
    assert [a, b][1..] == [b];
  }

  lemma BodyShape(lines: seq<string>, marks: string, rest: seq<string>)
    ensures ([""] + (lines + [marks]) + [""]) + rest == ([""] + lines + []) + ([marks] + ([""] + rest))
  {
  }

  lemma BareMarksLines(a: Item, b: Item)
    requires Printable([a, b])
    ensures Split(BlockText(3, [Item(a.heading, a.content + "\n###"), b]), '\n')
         == [HeadingLine(3, a.heading)] + (BodyOf(a.content, true) + (["###"] + ([""] + BlockLines(3, [b]))))
  {
    var a1 := Item(a.heading, a.content + "\n###");
    assert [a, b][0] == a && [a, b][1] == b;
    assert a1.content == a.content + ['\n'] + "###";
    SplitConcat(a.content, "###");
    SplitOfFree("###", '\n');
    BlockTextSplits(3, [a1, b]);
    TwoBlocks(a1, b);
    BodyShape(Split(a.content, '\n'), "###", BlockLines(3, [b]));
  }

  /** Under the first heading, nothing but its own text is found before the marks. */
  lemma BeforeBareMarks(a: Item, after: seq<string>)
    requires Trimmed(a.heading) && IsSlug(Identifier(a.heading)) && Trimmed(a.content) && Free(a.content, 3, false)
    requires AtHeading(after, 3)
    ensures var lines := [HeadingLine(3, a.heading)] + (BodyOf(a.content, true) + after);
            && |Listed(lines, 3)| == 1 + |Listed(after, 3)| && Matches(lines, 3) == [a] + Matches(after, 3)
            && Preface(lines, 3) == []
  {
    var line, body := HeadingLine(3, a.heading), BodyOf(a.content, true);
    HeadingLineHead(3, a.heading, body + after);
    BodyHits(a.content, true, 3, false);
    NextInside(body, after, 3);
    BodyJoins(a.content, true);
    assert (body + after)[..|body|] == body;
    ListedStep(line, body + after, 3);
    MatchesStep(line, body + after, 3);
    ListedSkips(body, after, 3);
    MatchesSkip(body, after, 3);
  }

  lemma BareMarksMatched(lines: seq<string>, a: Item, b: Item)
    requires Printable([a, b]) && AllOpen([a, b], 3) && Free(a.content, 3, false) && Free(b.content, 3, true)
    requires lines == [HeadingLine(3, a.heading)] + (BodyOf(a.content, true) + (["###"] + ([""] + BlockLines(3, [b]))))
    ensures |Listed(lines, 3)| == 2 && Matches(lines, 3) == [a, b] && Preface(lines, 3) == []
  {
    assert [a, b][0] == a && [a, b][1] == b;
    AfterBareMarks(b);
    MatchedAfterMarks(b);
    BeforeBareMarks(a, ["###"] + ([""] + BlockLines(3, [b])));
    assert [a] + [b] == [a, b];
  }

  lemma MatchedRead(section: string, matches: seq<Item>, items: seq<Item>)
    requires Matches(Split(section, '\n'), 3) == matches && Preface(Split(section, '\n'), 3) == [] && matches != []
    requires |Listed(Split(section, '\n'), 3)| == |matches| && ReadItems(matches, {}) == Some(items)
    ensures Subsections(section) == Some(items)
  {
    assert Join<char>([], '\n') == "" && Strip("") == "";
  }

  /** Bare marks before a later subsection are dropped without a word: every heading found is matched. */
  lemma BareMarksDropped(a: Item, b: Item)
    requires Identified([a, b]) && Free(a.content, 3, false) && Free(b.content, 3, true)
    ensures Subsections(BlockText(3, Quote([Item(a.heading, a.content + "\n###"), b]))) == Some([a, b])
  {
    var quoted, a1 := Quote([a, b]), Item(a.heading, a.content + "\n###");
    var section := BlockText(3, Quote([a1, b]));
    QuotedPrintable([a, b]);
    QuotedOpen([a, b]);
    ReadItemsOf([a, b], {});
    assert quoted == [quoted[0], quoted[1]];
    assert Quote([a1, b]) == [Item(quoted[0].heading, a.content + "\n###"), quoted[1]];
    BareMarksLines(quoted[0], quoted[1]);
    BareMarksMatched(Split(section, '\n'), quoted[0], quoted[1]);
    MatchedRead(section, quoted, [a, b]);
  }

  // ---- reading any section ----

  /** No heading has the marks of another for its text. */
  predicate NoMarksAsText(found: seq<Item>) {
    forall i :: 0 <= i < |found| ==> !("#" <= found[i].heading)
  }

  /** With as many matches as headings, every heading is matched; else there are fewer. */
  lemma {:induction false} MatchesAmongListed(lines: seq<string>)
    requires NoMarksAsText(Listed(lines, 3))
    ensures |Matches(lines, 3)| <= |Listed(lines, 3)|
    ensures |Matches(lines, 3)| == |Listed(lines, 3)| ==>
              Matches(lines, 3) == Listed(lines, 3) && Preface(lines, 3) == lines[..NextHeading(lines, 3)]
    decreases |lines|
  {
    if lines != [] {
      assert lines == [lines[0]] + lines[1..];
      ListedStep(lines[0], lines[1..], 3);
      if AtHeading(lines, 3) {
        var h := HeadOf(lines, 3);
        var found := Listed(lines, 3);
        assert found[0].heading == h.text && found[1..] == Listed(h.rest, 3);
        assert NoMarksAsText(found[1..]);
        MatchesAmongListed(h.rest);
        if !Opens(h, 3) {
          UnopenedSkipped(lines);
        }
      } else {
        MatchesAmongListed(lines[1..]);
      }
    }
  }

  lemma UnopenedSkipped(lines: seq<string>)
    requires AtHeading(lines, 3) && !Opens(HeadOf(lines, 3), 3) && !("#" <= HeadOf(lines, 3).text)
    ensures Matches(lines, 3) == Matches(HeadOf(lines, 3).rest, 3)
  {
    if Strip(lines[0][3..]) == "" {
      var skipped := FirstTextSkips(lines[1..], |lines[0]| > 4, 3);
      MatchesSkip(skipped, HeadOf(lines, 3).rest, 3);
    }
  }

  /**
   * Whatever the section, a successful read gives as many subsections as there are level-3 headings, and there is
   * no text before the first; unless bare marks took a heading for their text, nothing is lost on the way.
   */
  lemma SubsectionsAccount(section: string)
    requires Subsections(section).Some?
    ensures var lines, r := Split(section, '\n'), Subsections(section).value;
            && |r| == |Listed(lines, 3)| && InkLines(Preface(lines, 3)) == 0
            && (NoMarksAsText(Listed(lines, 3)) ==>
                  && Ink(section) == ItemsInk(3, Listed(lines, 3))
                  && forall i :: 0 <= i < |r| ==>
                       r[i] == Item(Identifier(Listed(lines, 3)[i].heading), Listed(lines, 3)[i].content))
  {
    var lines := Split(section, '\n');
    InkStrip(Join(Preface(lines, 3), '\n'));
    InkJoin(Preface(lines, 3));
    if NoMarksAsText(Listed(lines, 3)) {
      MatchesAmongListed(lines);
      ListedInk(lines, 3);
      InkSplit(section);
    }
  }

  // ---- level 4: recipe and proof ----

  lemma RecipePrintable(drive: string, observable: string)
    requires Trimmed(drive) && Trimmed(observable)
    ensures Printable(RecipeItems(drive, observable))
  {
    assert Ascii("Recipe") && Ascii("Observable proof");
    AsciiPrintable("Recipe");
    AsciiPrintable("Observable proof");
  }

  lemma RecipeAllFree(drive: string, observable: string, level: nat, last: bool)
    ensures AllFreeOf(RecipeItems(drive, observable), level, last)
            <==> Free(drive, level, false) && Free(observable, level, last)
  {
    var items := RecipeItems(drive, observable);
    assert items[0].content == drive && items[1].content == observable;
  }

  /** Recipe and proof read back exactly when no level-4 heading is found in them; else one comes back short, if at all. */
  lemma DriveExactly(drive: string, observable: string)
    requires Trimmed(drive) && Trimmed(observable)
    ensures var r := DriveParts(BlockText(4, RecipeItems(drive, observable)));
            if Free(drive, 4, false) && Free(observable, 4, true) then r == Some((drive, observable))
            else r.Some? ==> Ink(r.value.0) < Ink(drive) || Ink(r.value.1) < Ink(observable)
  {
    var items := RecipeItems(drive, observable);
    RecipePrintable(drive, observable);
    BlockTextSplits(4, items);
    RecipeAllFree(drive, observable, 4, true);
    PrefaceNone(4, items);
    var k := MatchesBlockLines(4, items);
    assert items[0].content == drive && items[1].content == observable;
  }

  /** A text with less in it than a printed recipe and proof does not read as that recipe and proof. */
  lemma DriveNeedsInk(body: string, drive: string, observable: string)
    requires DriveParts(body) == Some((drive, observable))
    ensures Ink(BlockText(4, RecipeItems(drive, observable))) <= Ink(body)
  {
    var lines := Split(body, '\n');
    InkSplit(body);
    MatchesInk(lines, 4);
    BlockTextInk(4, RecipeItems(drive, observable));
    DrivePartsExactly(body, drive, observable);
  }
}

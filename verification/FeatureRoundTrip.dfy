/** When a printed feature contract reads back as itself: exactly when no field imitates the structure. */
module FeatureRoundTrip {
  import opened Wrappers
  import opened Text
  import opened Markdown
  import opened Headings
  import opened Slugs
  import opened FeatureSections

  // ---- what the generator has normalized, and what it must not contain ----

  /** Fields trimmed and non-empty, at least one of each list, unique identifiers, one-line gotchas. */
  predicate Normal(f: Feature) {
    && Trimmed(f.behavior) && Trimmed(f.expectedPath) && Trimmed(f.evidence) && Trimmed(f.cleanup)
    && f.subFeatures != [] && Identified(SubItems(f.subFeatures))
    && f.entrypoints != [] && Identified(UserItems(f.entrypoints))
    && (forall i :: 0 <= i < |f.entrypoints| ==>
          Trimmed(f.entrypoints[i].drive) && Trimmed(f.entrypoints[i].observable))
    && f.gotchas != []
    && forall i :: 0 <= i < |f.gotchas| ==> OneLine(f.gotchas[i])
  }

  predicate OneLine(gotcha: string) {
    Trimmed(gotcha) && '\n' !in gotcha && '\r' !in gotcha
  }

  /** Plain newlines only, and no level-2 heading; the field is never the end of the document. */
  predicate PlainText(text: string) {
    NewlinesOnly(text) && Free(text, 2, false)
  }

  /** A user path, recipe or proof may end the section it is in (last), and a proof always ends its recipe. */
  predicate EntrypointOk(e: Entrypoint, last: bool) {
    && PlainText(e.userPath) && Free(e.userPath, 3, last)
    && PlainText(e.drive) && Free(e.drive, 3, false) && Free(e.drive, 4, false)
    && PlainText(e.observable) && Free(e.observable, 3, last) && Free(e.observable, 4, true)
  }

  predicate SubFeatureOk(sub: SubFeature, last: bool) {
    PlainText(sub.behavior) && Free(sub.behavior, 3, last)
  }

  predicate Clean(f: Feature) {
    && PlainText(f.behavior) && PlainText(f.expectedPath) && PlainText(f.evidence) && PlainText(f.cleanup)
    && (forall i :: 0 <= i < |f.subFeatures| ==> SubFeatureOk(f.subFeatures[i], i == |f.subFeatures| - 1))
    && (forall i :: 0 <= i < |f.entrypoints| ==> EntrypointOk(f.entrypoints[i], i == |f.entrypoints| - 1))
    && forall i :: 0 <= i < |f.gotchas| ==> NewlinesOnly(f.gotchas[i])
  }

  /** Title and command are not read from the body, but must not add a section to it. */
  predicate Quiet(title: string, command: string) {
    Free("# " + Normalize(title), 2, false) && Free(Normalize(VerificationText(command)), 2, true)
  }

  // ---- the gotchas ----

  lemma {:induction false} ReadBulletsOf(gotchas: seq<string>)
    requires forall i :: 0 <= i < |gotchas| ==> Trimmed(gotchas[i])
    ensures ReadBullets(Bullets(gotchas)) == Some(gotchas)
  {
    if gotchas != [] {
      var line := "- " + gotchas[0];
      assert line[2..] == "" + gotchas[0] + "";
      StripPadded("", gotchas[0], "");
      assert Bullets(gotchas)[1..] == Bullets(gotchas[1..]);
      ReadBulletsOf(gotchas[1..]);
      assert gotchas == [gotchas[0]] + gotchas[1..];
    }
  }

  lemma {:induction false} StripSlices(s: string)
    ensures exists i, j :: 0 <= i <= j <= |s| && Strip(s) == s[i..j]
  {
    var i := LeftSlice(s);
    var j := RightSlice(StripLeft(s));
    assert s[i..][..j] == s[i..i + j];
  }

  lemma {:induction false} LeftSlice(s: string) returns (i: nat)
    ensures i <= |s| && StripLeft(s) == s[i..]
  {
    i := 0;
    if s != "" && IsSpace(s[0]) {
      var k := LeftSlice(s[1..]);
      assert s[1..][k..] == s[k + 1..];
      i := k + 1;
    }
  }

  lemma {:induction false} RightSlice(s: string) returns (j: nat)
    ensures j <= |s| && StripRight(s) == s[..j]
  {
    j := |s|;
    if s != "" && IsSpace(s[|s| - 1]) {
      var k := RightSlice(s[..|s| - 1]);
      assert s[..|s| - 1][..k] == s[..k];
      j := k;
    }
  }

  lemma StripNewlinesOnly(s: string)
    requires NewlinesOnly(s)
    ensures NewlinesOnly(Strip(s))
  {
    StripSlices(s);
  }

  lemma {:induction false} SplitNewlinesOnly(s: string)
    requires NewlinesOnly(s)
    ensures forall i :: 0 <= i < |Split(s, '\n')| ==> NewlinesOnly(Split(s, '\n')[i])
  {
    if s != "" {
      SplitNewlinesOnly(s[1..]);
      var rest := Split(s[1..], '\n');
      if s[0] != '\n' {
        assert NewlinesOnly([s[0]] + rest[0]);
      }
    }
  }

  lemma {:induction false} ReadBulletsNewlinesOnly(lines: seq<string>)
    requires forall i :: 0 <= i < |lines| ==> NewlinesOnly(lines[i])
    requires ReadBullets(lines).Some?
    ensures forall i :: 0 <= i < |ReadBullets(lines).value| ==> NewlinesOnly(ReadBullets(lines).value[i])
  {
    if lines != [] {
      StripNewlinesOnly(lines[0][2..]);
      ReadBulletsNewlinesOnly(lines[1..]);
    }
  }

  lemma BulletLines(gotchas: seq<string>)
    requires gotchas != [] && forall i :: 0 <= i < |gotchas| ==> OneLine(gotchas[i])
    ensures Split(Join(Bullets(gotchas), '\n'), '\n') == Bullets(gotchas)
  {
    SplitJoin(Bullets(gotchas), '\n');
  }

  lemma {:induction false} JoinNewlinesOnly(lines: seq<string>)
    requires forall i :: 0 <= i < |lines| ==> NewlinesOnly(lines[i])
    ensures NewlinesOnly(Join(lines, '\n'))
  {
    if |lines| > 1 {
      JoinNewlinesOnly(lines[1..]);
    }
  }

  /** The gotchas read back exactly when none hides a line break. */
  lemma GotchasExactly(gotchas: seq<string>)
    requires gotchas != [] && forall i :: 0 <= i < |gotchas| ==> OneLine(gotchas[i])
    ensures var text := Normalize(Join(Bullets(gotchas), '\n'));
            ReadBullets(Split(text, '\n')) == Some(gotchas)
            <==> forall i :: 0 <= i < |gotchas| ==> NewlinesOnly(gotchas[i])
  {
    var text := Join(Bullets(gotchas), '\n');
    NormalizeFixes(text);
    if forall i :: 0 <= i < |gotchas| ==> NewlinesOnly(gotchas[i]) {
      JoinNewlinesOnly(Bullets(gotchas));
      BulletLines(gotchas);
      ReadBulletsOf(gotchas);
    }
    if ReadBullets(Split(Normalize(text), '\n')) == Some(gotchas) {
      SplitNewlinesOnly(Normalize(text));
      ReadBulletsNewlinesOnly(Split(Normalize(text), '\n'));
    }
  }

  lemma {:induction false} BulletsFree(gotchas: seq<string>, level: nat, last: bool)
    requires level > 0
    ensures Hits(Bullets(gotchas), level, last) == 0
    decreases |gotchas|
  {
    if gotchas != [] {
      assert Bullets(gotchas)[1..] == Bullets(gotchas[1..]);
      assert Marks(level)[0] == '#' && Bullets(gotchas)[0][0] == '-';
      BulletsFree(gotchas[1..], level, last);
    }
  }

  // ---- the subsections ----

  lemma QuotedNormalized(items: seq<Item>)
    requires Identified(items)
    ensures Identified(Normalized(items))
    ensures Normalize(BlockText(3, Quote(items))) == BlockText(3, Quote(Normalized(items)))
  {
    QuotedPrintable(items);
    NormalizeBlockText(3, Quote(items));
    assert Normalized(Quote(items)) == Quote(Normalized(items));
    forall i | 0 <= i < |items| ensures Trimmed(Normalize(items[i].content)) {
      NormalizeTrimmed(items[i].content);
    }
  }

  /** What reading printed subsections gives: their normalized contents, or nothing like the contents given. */
  lemma SubsectionsRead(items: seq<Item>)
    requires items != [] && Identified(items)
    ensures var r := Subsections(Normalize(BlockText(3, Quote(items))));
            if AllFreeOf(Normalized(items), 3, true) then r == Some(Normalized(items))
            else r.Some? ==> exists k :: ComesShort(r.value, items, k)
  {
    QuotedNormalized(items);
    SubsectionsExactly(Normalized(items));
    var r := Subsections(Normalize(BlockText(3, Quote(items))));
    if r.Some? && !AllFreeOf(Normalized(items), 3, true) {
      var k: nat :| ComesShort(r.value, Normalized(items), k);
      InkNormalize(items[k].content);
      assert ComesShort(r.value, items, k);
    }
  }

  lemma NormalizedItself(items: seq<Item>)
    ensures Normalized(items) == items <==> forall i :: 0 <= i < |items| ==> NewlinesOnly(items[i].content)
  {
    if Normalized(items) == items {
      forall i | 0 <= i < |items| ensures NewlinesOnly(items[i].content) {
        NormalizeFixes(items[i].content);
      }
    } else {
      if forall i :: 0 <= i < |items| ==> NewlinesOnly(items[i].content) {
        forall i | 0 <= i < |items| ensures Normalized(items)[i] == items[i] {
          NormalizeFixes(items[i].content);
        }
      }
    }
  }

  /** Plain newlines and no level-3 heading, except that bare marks may end the last content. */
  predicate ItemsRead(items: seq<Item>) {
    AllFreeOf(items, 3, true) && forall i :: 0 <= i < |items| ==> NewlinesOnly(items[i].content)
  }

  lemma ItemsExactly(items: seq<Item>)
    requires items != [] && Identified(items)
    ensures Subsections(Normalize(BlockText(3, Quote(items)))) == Some(items) <==> ItemsRead(items)
  {
    SubsectionsRead(items);
    NormalizedItself(items);
  }

  // ---- recipe and proof ----

  predicate DriveOk(e: Entrypoint) {
    && NewlinesOnly(e.drive) && Free(e.drive, 4, false)
    && NewlinesOnly(e.observable) && Free(e.observable, 4, true)
  }

  lemma RecipeNormalized(drive: string, observable: string)
    requires Trimmed(drive) && Trimmed(observable)
    ensures Normalize(BlockText(4, RecipeItems(drive, observable)))
         == BlockText(4, RecipeItems(Normalize(drive), Normalize(observable)))
  {
    RecipePrintable(drive, observable);
    NormalizeBlockText(4, RecipeItems(drive, observable));
    assert Normalized(RecipeItems(drive, observable)) == RecipeItems(Normalize(drive), Normalize(observable));
  }

  lemma RecipeExactly(e: Entrypoint)
    requires Trimmed(e.drive) && Trimmed(e.observable)
    ensures DriveParts(Normalize(BlockText(4, RecipeItems(e.drive, e.observable)))) == Some((e.drive, e.observable))
            <==> DriveOk(e)
  {
    RecipeNormalized(e.drive, e.observable);
    NormalizeTrimmed(e.drive);
    NormalizeTrimmed(e.observable);
    DriveExactly(Normalize(e.drive), Normalize(e.observable));
    NormalizeFixes(e.drive);
    NormalizeFixes(e.observable);
    InkNormalize(e.drive);
    InkNormalize(e.observable);
  }

  lemma RecipeFree(e: Entrypoint, level: nat, last: bool)
    requires Trimmed(e.drive) && Trimmed(e.observable) && 0 < level < 4
    ensures Free(BlockText(4, RecipeItems(e.drive, e.observable)), level, last)
            <==> Free(e.drive, level, false) && Free(e.observable, level, last)
  {
    RecipePrintable(e.drive, e.observable);
    BlockTextFree(4, RecipeItems(e.drive, e.observable), level, last);
    RecipeAllFree(e.drive, e.observable, level, last);
  }

  // ---- the entrypoints ----

  predicate IsEntry(user: Item, drive: Item, e: Entrypoint) {
    && user.heading == drive.heading == e.identifier
    && user.content == e.userPath
    && DriveParts(drive.content) == Some((e.drive, e.observable))
  }

  lemma {:induction false} EntrypointsPointwise(users: seq<Item>, drives: seq<Item>, entries: seq<Entrypoint>)
    ensures ReadEntrypoints(users, drives) == Some(entries)
            <==> |users| == |drives| == |entries|
                 && forall i :: 0 <= i < |entries| ==> IsEntry(users[i], drives[i], entries[i])
  {
    if users != [] && drives != [] && entries != [] {
      FirstEntry(users, drives, entries);
      EntrypointsPointwise(users[1..], drives[1..], entries[1..]);
      if |users| == |drives| == |entries| {
        AllMatchStep(users, drives, entries);
      }
    }
  }

  lemma FirstEntry(users: seq<Item>, drives: seq<Item>, entries: seq<Entrypoint>)
    requires users != [] && drives != [] && entries != []
    ensures ReadEntrypoints(users, drives) == Some(entries)
            <==> IsEntry(users[0], drives[0], entries[0])
                 && ReadEntrypoints(users[1..], drives[1..]) == Some(entries[1..])
  {
    assert entries == [entries[0]] + entries[1..];
  }

  lemma AllMatchStep(users: seq<Item>, drives: seq<Item>, entries: seq<Entrypoint>)
    requires |users| == |drives| == |entries| > 0
    ensures (forall i :: 0 <= i < |entries| ==> IsEntry(users[i], drives[i], entries[i]))
            <==> IsEntry(users[0], drives[0], entries[0])
                 && forall i :: 0 <= i < |entries| - 1 ==> IsEntry(users[1..][i], drives[1..][i], entries[1..][i])
  {
    if forall i :: 0 <= i < |entries| - 1 ==> IsEntry(users[1..][i], drives[1..][i], entries[1..][i]) {
      forall i | 1 <= i < |entries| ensures IsEntry(users[i], drives[i], entries[i]) {
        assert IsEntry(users[1..][i - 1], drives[1..][i - 1], entries[1..][i - 1]);
      }
    }
  }

  /** What an entrypoint must be like below level 2. */
  predicate EntrypointRead(e: Entrypoint, last: bool) {
    && NewlinesOnly(e.userPath) && Free(e.userPath, 3, last)
    && DriveOk(e) && Free(e.drive, 3, false) && Free(e.observable, 3, last)
  }

  predicate DrivesTrimmed(entries: seq<Entrypoint>) {
    forall i :: 0 <= i < |entries| ==> Trimmed(entries[i].drive) && Trimmed(entries[i].observable)
  }

  lemma DriveItemsIdentified(entries: seq<Entrypoint>)
    requires Identified(UserItems(entries)) && DrivesTrimmed(entries)
    ensures Identified(DriveItems(entries))
  {
    forall i | 0 <= i < |entries|
      ensures IsSlug(DriveItems(entries)[i].heading) && Trimmed(DriveItems(entries)[i].content)
    {
      var e := entries[i];
      assert UserItems(entries)[i].heading == e.identifier;
      RecipePrintable(e.drive, e.observable);
      BlockTextTrimmed(4, RecipeItems(e.drive, e.observable));
    }
    forall i, j | 0 <= i < j < |entries|
      ensures DriveItems(entries)[i].heading != DriveItems(entries)[j].heading
    {
      assert UserItems(entries)[i].heading != UserItems(entries)[j].heading;
    }
  }

  lemma MatchExactly(e: Entrypoint, last: bool)
    requires Trimmed(e.drive) && Trimmed(e.observable)
    ensures var body := BlockText(4, RecipeItems(e.drive, e.observable));
            IsEntry(Item(e.identifier, Normalize(e.userPath)), Item(e.identifier, Normalize(body)), e)
            && Free(Normalize(e.userPath), 3, last) && Free(Normalize(body), 3, last)
            <==> EntrypointRead(e, last)
  {
    var body := BlockText(4, RecipeItems(e.drive, e.observable));
    RecipeExactly(e);
    NormalizeFixes(e.userPath);
    if DriveOk(e) {
      RecipeNormalized(e.drive, e.observable);
      NormalizeFixes(e.drive);
      NormalizeFixes(e.observable);
      RecipeFree(e, 3, last);
    }
  }

  predicate AllRead(entries: seq<Entrypoint>) {
    forall i :: 0 <= i < |entries| ==> EntrypointRead(entries[i], i == |entries| - 1)
  }

  predicate AllMatch(users: seq<Item>, drives: seq<Item>, entries: seq<Entrypoint>)
    requires |users| == |drives| == |entries|
  {
    forall i :: 0 <= i < |entries| ==> IsEntry(users[i], drives[i], entries[i])
  }

  lemma AllMatchExactly(entries: seq<Entrypoint>)
    requires DrivesTrimmed(entries)
    ensures var users, drives := Normalized(UserItems(entries)), Normalized(DriveItems(entries));
            AllMatch(users, drives, entries) && AllFreeOf(users, 3, true) && AllFreeOf(drives, 3, true)
            <==> AllRead(entries)
  {
    var users, drives := Normalized(UserItems(entries)), Normalized(DriveItems(entries));
    forall i | 0 <= i < |entries|
      ensures IsEntry(users[i], drives[i], entries[i])
              && Free(users[i].content, 3, i == |entries| - 1) && Free(drives[i].content, 3, i == |entries| - 1)
              <==> EntrypointRead(entries[i], i == |entries| - 1)
    {
      MatchExactly(entries[i], i == |entries| - 1);
    }
  }

  /** No user path and no recipe that came back short is one of the entrypoints'. */
  lemma NoneShort(users: seq<Item>, drives: seq<Item>, entries: seq<Entrypoint>, k: nat)
    requires ReadEntrypoints(users, drives) == Some(entries)
    ensures !ComesShort(users, UserItems(entries), k) && !ComesShort(drives, DriveItems(entries), k)
  {
    EntrypointsPointwise(users, drives, entries);
    if k < |entries| {
      assert IsEntry(users[k], drives[k], entries[k]);
      DriveNeedsInk(drives[k].content, entries[k].drive, entries[k].observable);
    }
  }

  /** The entrypoints read back exactly when each has plain newlines and no heading of level 3 or 4 is found in it. */
  lemma EntrypointsExactly(entries: seq<Entrypoint>)
    requires entries != [] && Identified(UserItems(entries)) && DrivesTrimmed(entries)
    ensures ReadBoth(Normalize(BlockText(3, Quote(UserItems(entries)))),
                     Normalize(BlockText(3, Quote(DriveItems(entries))))) == Some(entries)
            <==> AllRead(entries)
  {
    var users, drives := Normalized(UserItems(entries)), Normalized(DriveItems(entries));
    DriveItemsIdentified(entries);
    SubsectionsRead(UserItems(entries));
    SubsectionsRead(DriveItems(entries));
    AllMatchExactly(entries);
    EntrypointsPointwise(users, drives, entries);
    var readUsers := Subsections(Normalize(BlockText(3, Quote(UserItems(entries)))));
    var readDrives := Subsections(Normalize(BlockText(3, Quote(DriveItems(entries)))));
    if readUsers.Some? && readDrives.Some? && ReadEntrypoints(readUsers.value, readDrives.value) == Some(entries) {
      forall k: nat
        ensures !ComesShort(readUsers.value, UserItems(entries), k)
        ensures !ComesShort(readDrives.value, DriveItems(entries), k)
      {
        NoneShort(readUsers.value, readDrives.value, entries, k);
      }
    }
  }

  // ---- the whole contract ----

  predicate SubFeaturesRead(subs: seq<SubFeature>) {
    forall i :: 0 <= i < |subs| ==> NewlinesOnly(subs[i].behavior) && Free(subs[i].behavior, 3, i == |subs| - 1)
  }

  /** Everything a contract must be like apart from level-2 headings. */
  predicate BelowTwo(f: Feature) {
    && NewlinesOnly(f.behavior) && NewlinesOnly(f.expectedPath)
    && NewlinesOnly(f.evidence) && NewlinesOnly(f.cleanup)
    && SubFeaturesRead(f.subFeatures)
    && AllRead(f.entrypoints)
    && forall i :: 0 <= i < |f.gotchas| ==> NewlinesOnly(f.gotchas[i])
  }

  lemma {:induction false} BulletsTrimmed(gotchas: seq<string>)
    requires gotchas != [] && forall i :: 0 <= i < |gotchas| ==> OneLine(gotchas[i])
    ensures Trimmed(Join(Bullets(gotchas), '\n'))
  {
    if |gotchas| > 1 {
      assert Bullets(gotchas)[1..] == Bullets(gotchas[1..]);
      BulletsTrimmed(gotchas[1..]);
    }
  }

  lemma VerificationTrimmed(command: string)
    ensures Trimmed(VerificationText(command))
  {
    var tail := "`\n\nA passing command proves the behavior described above, not merely that files exist.";
    var text := VerificationText(command);
    assert text == "`" + command + tail;
    assert text[0] == '`' && text[|text| - 1] == tail[|tail| - 1] == '.';
  }

  lemma ContentsTrimmed(command: string, f: Feature)
    requires Normal(f)
    ensures AllTrimmed(Contents(command, f))
  {
    var texts := Contents(command, f);
    DriveItemsIdentified(f.entrypoints);
    ListTrimmed(SubItems(f.subFeatures));
    ListTrimmed(UserItems(f.entrypoints));
    ListTrimmed(DriveItems(f.entrypoints));
    BulletsTrimmed(f.gotchas);
    VerificationTrimmed(command);
  }

  lemma ListTrimmed(items: seq<Item>)
    requires items != [] && Identified(items)
    ensures Trimmed(BlockText(3, Quote(items)))
  {
    QuotedPrintable(items);
    BlockTextTrimmed(3, Quote(items));
  }

  lemma SubFeaturesAre(items: seq<Item>, subs: seq<SubFeature>)
    ensures ReadSubFeatures(items) == subs <==> items == SubItems(subs)
  {
    if ReadSubFeatures(items) == subs {
      forall i | 0 <= i < |items| ensures items[i] == SubItems(subs)[i] {
        assert subs[i] == SubFeature(items[i].heading, items[i].content);
      }
    }
    if items == SubItems(subs) {
      assert ReadSubFeatures(items) == subs;
    }
  }

  lemma SubFeaturesExactly(subs: seq<SubFeature>)
    requires subs != [] && Identified(SubItems(subs))
    ensures var r := Subsections(Normalize(BlockText(3, Quote(SubItems(subs)))));
            (r.Some? && ReadSubFeatures(r.value) == subs) <==> SubFeaturesRead(subs)
  {
    ItemsExactly(SubItems(subs));
    SubItemsRead(subs);
    var r := Subsections(Normalize(BlockText(3, Quote(SubItems(subs)))));
    if r.Some? {
      SubFeaturesAre(r.value, subs);
    }
  }

  lemma SubItemsRead(subs: seq<SubFeature>)
    ensures ItemsRead(SubItems(subs)) <==> SubFeaturesRead(subs)
  {
    var items := SubItems(subs);
    if ItemsRead(items) {
      forall i | 0 <= i < |subs|
        ensures NewlinesOnly(subs[i].behavior) && Free(subs[i].behavior, 3, i == |subs| - 1)
      {
        assert items[i].content == subs[i].behavior;
      }
    }
  }

  lemma ReadFeatureWhen(texts: seq<string>, f: Feature)
    requires |texts| == 9 && forall i :: 0 <= i < 9 ==> texts[i] != ""
    ensures ReadFeature(texts) == Some(f)
            <==> && texts[0] == f.behavior && texts[1] == f.expectedPath && texts[5] == f.evidence && texts[6] == f.cleanup
                 && Subsections(texts[2]).Some? && ReadSubFeatures(Subsections(texts[2]).value) == f.subFeatures
                 && ReadBoth(texts[3], texts[4]) == Some(f.entrypoints)
                 && ReadBullets(Split(texts[7], '\n')) == Some(f.gotchas)
  {
  }

  lemma NormalizedNonEmpty(texts: seq<string>)
    requires AllTrimmed(texts)
    ensures forall i :: 0 <= i < |texts| ==> NormalizedAll(texts)[i] != ""
  {
    forall i | 0 <= i < |texts| ensures Normalize(texts[i]) != "" {
      NormalizeTrimmed(texts[i]);
    }
  }

  lemma FixedWhen(s: string)
    ensures Normalize(s) == s <==> NewlinesOnly(s)
  {
    NormalizeFixes(s);
  }

  /** Given its nine texts, the reader returns the contract exactly when this holds of it. */
  lemma FeatureExactly(command: string, f: Feature)
    requires Normal(f)
    ensures ReadFeature(NormalizedAll(Contents(command, f))) == Some(f) <==> BelowTwo(f)
  {
    var contents := Contents(command, f);
    ContentsTrimmed(command, f);
    NormalizedNonEmpty(contents);
    ReadFeatureWhen(NormalizedAll(contents), f);
    FixedWhen(f.behavior);
    FixedWhen(f.expectedPath);
    FixedWhen(f.evidence);
    FixedWhen(f.cleanup);
    SubFeaturesExactly(f.subFeatures);
    EntrypointsExactly(f.entrypoints);
    GotchasExactly(f.gotchas);
  }

  // ---- level 2 inside the contents ----

  predicate AllPlain(items: seq<Item>) {
    forall i :: 0 <= i < |items| ==> NewlinesOnly(items[i].content)
  }

  lemma ListFree(items: seq<Item>)
    requires items != [] && Identified(items) && AllPlain(items)
    ensures Free(Normalize(BlockText(3, Quote(items))), 2, false) <==> AllFreeOf(items, 2, false)
  {
    NormalizedItself(items);
    QuotedNormalized(items);
    QuotedPrintable(items);
    BlockTextFree(3, Quote(items), 2, false);
    QuoteFree(items, 2, false);
  }

  lemma BulletTextFree(gotchas: seq<string>)
    requires gotchas != [] && forall i :: 0 <= i < |gotchas| ==> OneLine(gotchas[i]) && NewlinesOnly(gotchas[i])
    ensures Free(Normalize(Join(Bullets(gotchas), '\n')), 2, false)
  {
    JoinNewlinesOnly(Bullets(gotchas));
    FixedWhen(Join(Bullets(gotchas), '\n'));
    BulletLines(gotchas);
    BulletsFree(gotchas, 2, false);
  }

  lemma DrivesFree(entries: seq<Entrypoint>)
    requires entries != [] && Identified(UserItems(entries)) && DrivesTrimmed(entries) && AllRead(entries)
    ensures Free(Normalize(BlockText(3, Quote(DriveItems(entries)))), 2, false)
            <==> forall i :: 0 <= i < |entries| ==> Free(entries[i].drive, 2, false) && Free(entries[i].observable, 2, false)
  {
    var items := DriveItems(entries);
    DriveItemsIdentified(entries);
    forall i | 0 <= i < |entries|
      ensures NewlinesOnly(items[i].content)
      ensures Free(items[i].content, 2, false)
              <==> Free(entries[i].drive, 2, false) && Free(entries[i].observable, 2, false)
    {
      var e := entries[i];
      assert EntrypointRead(e, i == |entries| - 1);
      RecipeNormalized(e.drive, e.observable);
      FixedWhen(e.drive);
      FixedWhen(e.observable);
      FixedWhen(items[i].content);
      RecipeFree(e, 2, false);
    }
    ListFree(items);
  }

  predicate ListsFree(f: Feature) {
    && (forall i :: 0 <= i < |f.subFeatures| ==> Free(f.subFeatures[i].behavior, 2, false))
    && (forall i :: 0 <= i < |f.entrypoints| ==> Free(f.entrypoints[i].userPath, 2, false))
    && forall i :: 0 <= i < |f.entrypoints| ==>
         Free(f.entrypoints[i].drive, 2, false) && Free(f.entrypoints[i].observable, 2, false)
  }

  lemma SubsFree(subs: seq<SubFeature>)
    requires subs != [] && Identified(SubItems(subs)) && SubFeaturesRead(subs)
    ensures Free(Normalize(BlockText(3, Quote(SubItems(subs)))), 2, false)
            <==> forall i :: 0 <= i < |subs| ==> Free(subs[i].behavior, 2, false)
  {
    var items := SubItems(subs);
    forall i | 0 <= i < |subs|
      ensures NewlinesOnly(items[i].content)
      ensures Free(items[i].content, 2, false) <==> Free(subs[i].behavior, 2, false)
    {
      assert items[i].content == subs[i].behavior;
    }
    ListFree(items);
  }

  lemma UsersFree(entries: seq<Entrypoint>)
    requires entries != [] && Identified(UserItems(entries)) && AllRead(entries)
    ensures Free(Normalize(BlockText(3, Quote(UserItems(entries)))), 2, false)
            <==> forall i :: 0 <= i < |entries| ==> Free(entries[i].userPath, 2, false)
  {
    var items := UserItems(entries);
    forall i | 0 <= i < |entries|
      ensures NewlinesOnly(items[i].content)
      ensures Free(items[i].content, 2, false) <==> Free(entries[i].userPath, 2, false)
    {
      assert EntrypointRead(entries[i], i == |entries| - 1) && items[i].content == entries[i].userPath;
    }
    ListFree(items);
  }

  predicate NormallyFree(text: string, last: bool) {
    Free(Normalize(text), 2, last)
  }

  predicate FreeAt(texts: seq<string>, i: nat)
    requires i < |texts|
  {
    NormallyFree(texts[i], i == |texts| - 1)
  }

  /** Each text must be free as it is read; only the last one ends the document. */
  lemma EachFree(texts: seq<string>)
    ensures AllTextsFree(NormalizedAll(texts), 2) <==> forall i :: 0 <= i < |texts| ==> FreeAt(texts, i)
  {
    forall i | 0 <= i < |texts| ensures Free(NormalizedAll(texts)[i], 2, i == |texts| - 1) <==> FreeAt(texts, i) {
      assert NormalizedAll(texts)[i] == Normalize(texts[i]);
    }
  }

  predicate SectionsFree(f: Feature) {
    && NormallyFree(BlockText(3, Quote(SubItems(f.subFeatures))), false)
    && NormallyFree(BlockText(3, Quote(UserItems(f.entrypoints))), false)
    && NormallyFree(BlockText(3, Quote(DriveItems(f.entrypoints))), false)
  }

  predicate FieldsFree(f: Feature) {
    && NormallyFree(f.behavior, false) && NormallyFree(f.expectedPath, false)
    && NormallyFree(f.evidence, false) && NormallyFree(f.cleanup, false)
  }

  lemma NineFree(texts: seq<string>, f: Feature, bullets: string, check: string)
    requires |texts| == 9 && texts[7] == bullets && texts[8] == check
    requires texts[0] == f.behavior && texts[1] == f.expectedPath && texts[5] == f.evidence && texts[6] == f.cleanup
    requires texts[2] == BlockText(3, Quote(SubItems(f.subFeatures)))
    requires texts[3] == BlockText(3, Quote(UserItems(f.entrypoints)))
    requires texts[4] == BlockText(3, Quote(DriveItems(f.entrypoints)))
    ensures FieldsFree(f) <==> FreeAt(texts, 0) && FreeAt(texts, 1) && FreeAt(texts, 5) && FreeAt(texts, 6)
    ensures SectionsFree(f) <==> FreeAt(texts, 2) && FreeAt(texts, 3) && FreeAt(texts, 4)
    ensures FreeAt(texts, 7) <==> NormallyFree(bullets, false)
    ensures FreeAt(texts, 8) <==> NormallyFree(check, true)
  {
  }

  lemma ContentsFree(command: string, f: Feature)
    ensures AllTextsFree(NormalizedAll(Contents(command, f)), 2)
            <==> && FieldsFree(f) && SectionsFree(f) && NormallyFree(Join(Bullets(f.gotchas), '\n'), false)
                 && NormallyFree(VerificationText(command), true)
  {
    EachFree(Contents(command, f));
    NineFree(Contents(command, f), f, Join(Bullets(f.gotchas), '\n'), VerificationText(command));
  }

  lemma ListsLevelTwo(f: Feature)
    requires Normal(f) && BelowTwo(f)
    ensures SectionsFree(f) <==> ListsFree(f)
  {
    SubsFree(f.subFeatures);
    UsersFree(f.entrypoints);
    DrivesFree(f.entrypoints);
  }

  predicate TextsFree(f: Feature) {
    && Free(f.behavior, 2, false) && Free(f.expectedPath, 2, false)
    && Free(f.evidence, 2, false) && Free(f.cleanup, 2, false)
  }

  lemma TextsLevelTwo(f: Feature)
    requires BelowTwo(f)
    ensures FieldsFree(f) <==> TextsFree(f)
  {
    FixedWhen(f.behavior);
    FixedWhen(f.expectedPath);
    FixedWhen(f.evidence);
    FixedWhen(f.cleanup);
  }

  /** For a contract that reads right below level 2, only its nine headings show at level 2 when no field has one. */
  lemma StructuredExactly(title: string, command: string, f: Feature)
    requires Normal(f) && BelowTwo(f)
    ensures Structured(title, Contents(command, f)) <==> Quiet(title, command) && ListsFree(f) && TextsFree(f)
  {
    ContentsFree(command, f);
    ListsLevelTwo(f);
    TextsLevelTwo(f);
    BulletTextFree(f.gotchas);
  }

  lemma CleanIs(f: Feature)
    ensures Clean(f) <==> BelowTwo(f) && ListsFree(f) && TextsFree(f)
  {
    if BelowTwo(f) && ListsFree(f) {
      forall i | 0 <= i < |f.entrypoints| ensures EntrypointOk(f.entrypoints[i], i == |f.entrypoints| - 1) {
        assert EntrypointRead(f.entrypoints[i], i == |f.entrypoints| - 1);
      }
    }
  }

  lemma RenderIsBody(title: string, command: string, f: Feature)
    ensures Render(title, command, f) == "\n" + Body(title, Contents(command, f)) + "\n"
  {
  }

  /**
   * A generated contract reads back as itself exactly when its fields use plain newlines and no heading of their
   * own level or above is found in them, bare marks at the very end of a section not being found; the
   * generator's guard fires in every other case.
   */
  lemma RoundTripExactly(title: string, command: string, f: Feature)
    requires Trimmed(title) && Normal(f)
    ensures Parse(Render(title, command, f)) == Some(f) <==> Clean(f) && Quiet(title, command)
  {
    var texts := Contents(command, f);
    RenderIsBody(title, command, f);
    ContentsTrimmed(command, f);
    SectionsExactly(title, texts);
    FeatureExactly(command, f);
    CleanIs(f);
    if BelowTwo(f) {
      StructuredExactly(title, command, f);
    }
  }
}

/** The canonical line of an evidence event: written, read back and checked field by field. */
module Evidence {
  import opened Wrappers
  import opened Text
  import opened HunkHeader
  import opened Json
  import opened EvidenceTrail
  import opened Slugs
  import Markdown

  const MAX_EVIDENCE_FIELD_BYTES := 4096
  const MAX_REFERENCE_PATH_BYTES := 1024

  /** What comes from outside: the calendar's text, the secret patterns and the path rules. */
  datatype Env = Env(stamp: nat -> string, readStamp: string -> Option<nat>,
                     secret: string -> bool, canonicalPath: string -> bool)

  // ---- one event's text ----

  /** The fields of the JSON object, before they are checked. */
  datatype Raw = Raw(artifact: Option<Reference>, before: seq<string>, sequence: nat, after: seq<string>)

  const BEFORE: seq<string> := [",\"decision\":", ",\"evidence\":", ",\"requirement\":"]
  const AFTER: seq<string> := [",\"timestamp\":", ",\"verdict\":", ",\"verification\":"]
  const OPENING := "{\"artifact\":"
  const SEQUENCE := ",\"schema_version\":1,\"sequence\":"

  function WriteArtifact(artifact: Option<Reference>, rest: string): string {
    match artifact
    case None => "null" + rest
    case Some(r) => "{\"path\":" + WriteText(r.path, ",\"sha256\":" + WriteOptional(r.sha256, "}" + rest))
  }

  function ReadArtifact(s: string): Option<Read<Option<Reference>>> {
    if "null" <= s then Some(Read(None, s[4..]))
    else
      var s1 :- Expect(s, "{\"path\":");
      var path :- ReadText(s1);
      var s2 :- Expect(path.rest, ",\"sha256\":");
      var sha :- ReadOptional(s2);
      var s3 :- Expect(sha.rest, "}");
      Some(Read(Some(Reference(path.value, sha.value)), s3))
  }

  /** Each key and its string, in order. */
  function WriteTexts(keys: seq<string>, values: seq<string>, rest: string): string
    requires |keys| == |values|
  {
    if keys == [] then rest else keys[0] + WriteText(values[0], WriteTexts(keys[1..], values[1..], rest))
  }

  function ReadTexts(keys: seq<string>, s: string): (r: Option<Read<seq<string>>>)
    ensures r.Some? ==> |r.value.value| == |keys|
  {
    if keys == [] then Some(Read([], s))
    else
      var s1 :- Expect(s, keys[0]);
      var first :- ReadText(s1);
      var more :- ReadTexts(keys[1..], first.rest);
      Some(Read([first.value] + more.value, more.rest))
  }

  /** json.dumps with sorted keys, compact separators and raw Unicode. */
  function WriteRaw(raw: Raw): string
    requires |raw.before| == |raw.after| == 3
  {
    OPENING + WriteArtifact(raw.artifact,
      WriteTexts(BEFORE, raw.before, SEQUENCE + (Decimal(raw.sequence) + WriteTexts(AFTER, raw.after, "}"))))
  }

  function ReadRaw(s: string): (r: Option<Raw>)
    ensures r.Some? ==> |r.value.before| == |r.value.after| == 3
  {
    var s1 :- Expect(s, OPENING);
    var artifact :- ReadArtifact(s1);
    var before :- ReadTexts(BEFORE, artifact.rest);
    var s2 :- Expect(before.rest, SEQUENCE);
    var sequence :- ReadNumber(s2);
    var after :- ReadTexts(AFTER, sequence.rest);
    if after.rest != "}" then None else Some(Raw(artifact.value, before.value, sequence.value, after.value))
  }

  lemma ArtifactReads(artifact: Option<Reference>, rest: string)
    ensures ReadArtifact(WriteArtifact(artifact, rest)) == Some(Read(artifact, rest))
  {
    match artifact {
      case None =>
        assert ("null" + rest)[4..] == rest;
      case Some(r) =>
        var s3 := "}" + rest;
        var s2 := WriteOptional(r.sha256, s3);
        var s1 := WriteText(r.path, ",\"sha256\":" + s2);
        ExpectReads("{\"path\":", s1);
        TextReads(r.path, ",\"sha256\":" + s2);
        ExpectReads(",\"sha256\":", s2);
        OptionalReads(r.sha256, s3);
        ExpectReads("}", rest);
        assert WriteArtifact(artifact, rest)[0] == '{';
    }
  }

  lemma {:induction false} TextsRead(keys: seq<string>, values: seq<string>, rest: string)
    requires |keys| == |values|
    ensures ReadTexts(keys, WriteTexts(keys, values, rest)) == Some(Read(values, rest))
  {
    if keys != [] {
      var more := WriteTexts(keys[1..], values[1..], rest);
      ExpectReads(keys[0], WriteText(values[0], more));
      TextReads(values[0], more);
      TextsRead(keys[1..], values[1..], rest);
      assert values == [values[0]] + values[1..];
    }
  }

  lemma RawReads(raw: Raw)
    requires |raw.before| == |raw.after| == 3
    ensures ReadRaw(WriteRaw(raw)) == Some(raw)
  {
    var s4 := WriteTexts(AFTER, raw.after, "}");
    var s3 := SEQUENCE + (Decimal(raw.sequence) + s4);
    var s2 := WriteTexts(BEFORE, raw.before, s3);
    ExpectReads(OPENING, WriteArtifact(raw.artifact, s2));
    ArtifactReads(raw.artifact, s2);
    TextsRead(BEFORE, raw.before, s3);
    ExpectReads(SEQUENCE, Decimal(raw.sequence) + s4);
    TextsStart(AFTER, raw.after, "}");
    assert AFTER[0][0] == ',';
    NumberReads(raw.sequence, s4);
    TextsRead(AFTER, raw.after, "}");
  }

  lemma TextsStart(keys: seq<string>, values: seq<string>, rest: string)
    requires |keys| == |values| && keys != [] && keys[0] != ""
    ensures WriteTexts(keys, values, rest) != "" && WriteTexts(keys, values, rest)[0] == keys[0][0]
  {
  }

  // ---- checked fields ----

  /** Stripped, non-empty, within the limit, free of NUL and of anything like a secret. */
  function BoundedText(env: Env, value: string, limit: nat): Option<string> {
    var normalized := Markdown.Strip(value);
    if normalized == "" || Utf8Size(normalized) > limit || '\U{00}' in normalized || env.secret(normalized) then None
    else Some(normalized)
  }

  lemma {:induction false} StripEnds(s: string)
    ensures Markdown.StripLeft(s) == "" || !Markdown.IsSpace(Markdown.StripLeft(s)[0])
  {
    if s != "" && Markdown.IsSpace(s[0]) {
      StripEnds(s[1..]);
    }
  }

  lemma {:induction false} StripRightEnds(s: string)
    requires s == "" || !Markdown.IsSpace(s[0])
    ensures Markdown.StripRight(s) == "" || Markdown.Trimmed(Markdown.StripRight(s))
  {
    if s != "" && Markdown.IsSpace(s[|s| - 1]) {
      StripRightEnds(s[..|s| - 1]);
    }
  }

  /** A bounded text is its own bounded form: checking it again changes nothing. */
  lemma BoundedAgain(env: Env, value: string, limit: nat)
    requires BoundedText(env, value, limit).Some?
    ensures var text := BoundedText(env, value, limit).value; BoundedText(env, text, limit) == Some(text)
  {
    var text := Markdown.Strip(value);
    StripEnds(value);
    StripRightEnds(Markdown.StripLeft(value));
    Markdown.StripPadded("", text, "");
    assert "" + text + "" == text;
  }

  predicate IsVerdict(s: string) {
    s == "VERIFIED" || s == "NOT VERIFIED" || s == "INCONCLUSIVE"
  }

  predicate IsSha256(s: string) {
    |s| == 64 && forall i :: 0 <= i < 64 ==> '0' <= s[i] <= '9' || 'a' <= s[i] <= 'f'
  }

  function CheckReference(env: Env, r: Reference): Option<Reference> {
    var path :- BoundedText(env, r.path, MAX_REFERENCE_PATH_BYTES);
    if !env.canonicalPath(path) || (r.sha256.Some? && !IsSha256(r.sha256.value)) then None
    else Some(Reference(path, r.sha256))
  }

  function CheckArtifact(env: Env, a: Option<Reference>): Option<Option<Reference>> {
    if a.None? then Some(None)
    else
      var r :- CheckReference(env, a.value);
      Some(Some(r))
  }

  function CheckTime(env: Env, text: string): Option<nat> {
    var t :- BoundedText(env, text, 64);
    env.readStamp(t)
  }

  /** The event an object stands for, when every field is in order. */
  function CheckRaw(env: Env, raw: Raw): Option<Event>
    requires |raw.before| == |raw.after| == 3
  {
    if raw.sequence < 1 || !IsVerdict(raw.after[1]) then None
    else
      var time :- CheckTime(env, raw.after[0]);
      var requirement :- BoundedText(env, raw.before[2], MAX_EVIDENCE_FIELD_BYTES);
      var evidence :- BoundedText(env, raw.before[1], MAX_EVIDENCE_FIELD_BYTES);
      var decision :- BoundedText(env, raw.before[0], MAX_EVIDENCE_FIELD_BYTES);
      var artifact :- CheckArtifact(env, raw.artifact);
      var verification :- BoundedText(env, raw.after[2], MAX_EVIDENCE_FIELD_BYTES);
      Some(Event(raw.sequence, time, requirement, evidence, decision, artifact, verification, raw.after[1]))
  }

  function RawOf(env: Env, e: Event): (raw: Raw)
    ensures |raw.before| == |raw.after| == 3
  {
    Raw(e.artifact, [e.decision, e.evidence, e.requirement], e.sequence,
        [env.stamp(e.time), e.verdict, e.verification])
  }

  /** The calendar's text is within bounds and reads back, up to the last moment it can name. */
  ghost predicate Calendar(env: Env) {
    forall t: nat :: t <= MAX_TIME ==> CheckTime(env, env.stamp(t)) == Some(t)
  }

  /** An event that passes its own checks unchanged. */
  predicate Settled(env: Env, e: Event) {
    CheckRaw(env, RawOf(env, e)) == Some(e)
  }

  lemma ReferenceAgain(env: Env, a: Option<Reference>)
    requires CheckArtifact(env, a).Some?
    ensures CheckArtifact(env, CheckArtifact(env, a).value) == CheckArtifact(env, a)
  {
    if a.Some? {
      BoundedAgain(env, a.value.path, MAX_REFERENCE_PATH_BYTES);
    }
  }

  /** What the checks let through is settled. */
  lemma CheckedIsSettled(env: Env, raw: Raw)
    requires Calendar(env) && |raw.before| == |raw.after| == 3
    requires CheckRaw(env, raw).Some? && CheckRaw(env, raw).value.time <= MAX_TIME
    ensures Settled(env, CheckRaw(env, raw).value)
  {
    var e := CheckRaw(env, raw).value;
    BoundedAgain(env, raw.before[2], MAX_EVIDENCE_FIELD_BYTES);
    BoundedAgain(env, raw.before[1], MAX_EVIDENCE_FIELD_BYTES);
    BoundedAgain(env, raw.before[0], MAX_EVIDENCE_FIELD_BYTES);
    BoundedAgain(env, raw.after[2], MAX_EVIDENCE_FIELD_BYTES);
    ReferenceAgain(env, raw.artifact);
    assert CheckTime(env, env.stamp(e.time)) == Some(e.time);
  }

  // ---- the trail ----

  /** The line of an event, without its newline. */
  function Line(env: Env, e: Event): string {
    WriteRaw(RawOf(env, e))
  }

  /** A line is accepted only when it is the canonical line of the event it holds. */
  function ReadEvent(env: Env, line: string): (r: Option<Event>)
    ensures r.Some? ==> Line(env, r.value) == line
  {
    var raw :- ReadRaw(line);
    var e :- CheckRaw(env, raw);
    if Line(env, e) != line then None else Some(e)
  }

  /** A settled event's line reads back as that event. */
  lemma LineReads(env: Env, e: Event)
    requires Settled(env, e)
    ensures ReadEvent(env, Line(env, e)) == Some(e)
  {
    RawReads(RawOf(env, e));
  }

  // ---- a written line holds no newline ----

  predicate Tidy(s: string) {
    forall i :: 0 <= i < |s| ==> !IsControl(s[i])
  }

  lemma TextTidy(v: string, rest: string)
    requires Tidy(rest)
    ensures Tidy(WriteText(v, rest))
  {
  }

  lemma PieceTidy(piece: string, rest: string)
    requires Tidy(piece) && Tidy(rest)
    ensures Tidy(piece + rest)
  {
  }

  lemma ArtifactTidy(artifact: Option<Reference>, rest: string)
    requires Tidy(rest)
    ensures Tidy(WriteArtifact(artifact, rest))
  {
    if artifact.Some? {
      var r := artifact.value;
      var sha := WriteOptional(r.sha256, "}" + rest);
      assert Tidy(sha) by {
        if r.sha256.Some? {
          TextTidy(r.sha256.value, "}" + rest);
        }
      }
      TextTidy(r.path, ",\"sha256\":" + sha);
    }
  }

  lemma {:induction false} TextsTidy(keys: seq<string>, values: seq<string>, rest: string)
    requires |keys| == |values| && Tidy(rest)
    requires forall i :: 0 <= i < |keys| ==> Tidy(keys[i])
    ensures Tidy(WriteTexts(keys, values, rest))
  {
    if keys != [] {
      TextsTidy(keys[1..], values[1..], rest);
      TextTidy(values[0], WriteTexts(keys[1..], values[1..], rest));
    }
  }

  lemma KeysTidy()
    ensures Tidy(",\"decision\":") && Tidy(",\"evidence\":") && Tidy(",\"requirement\":") && Tidy(OPENING)
    ensures Tidy(",\"timestamp\":") && Tidy(",\"verdict\":") && Tidy(",\"verification\":")
  {
  }

  lemma DecimalTidy(n: nat, rest: string)
    requires Tidy(rest)
    ensures Tidy(SEQUENCE + (Decimal(n) + rest))
  {
    assert Tidy(SEQUENCE);
    assert Tidy(Decimal(n)) by {
      forall i | 0 <= i < |Decimal(n)| ensures !IsControl(Decimal(n)[i]) {
        assert IsDigit(Decimal(n)[i]);
      }
    }
    PieceTidy(Decimal(n), rest);
  }

  /** Whatever its fields hold, an event takes one line. */
  lemma LineIsOneLine(env: Env, e: Event)
    ensures '\n' !in Line(env, e) && Line(env, e) != ""
  {
    var raw := RawOf(env, e);
    var s4 := WriteTexts(AFTER, raw.after, "}");
    var s3 := SEQUENCE + (Decimal(raw.sequence) + s4);
    var s2 := WriteTexts(BEFORE, raw.before, s3);
    KeysTidy();
    TextsTidy(AFTER, raw.after, "}");
    DecimalTidy(raw.sequence, s4);
    TextsTidy(BEFORE, raw.before, s3);
    ArtifactTidy(raw.artifact, s2);
    PieceTidy(OPENING, WriteArtifact(raw.artifact, s2));
    assert Line(env, e)[0] == '{';
  }

  // ---- the codec of this log ----

  function MakeRaw(env: Env, sequence: nat, time: nat, r: Request): (raw: Raw)
    ensures |raw.before| == |raw.after| == 3
  {
    Raw(r.artifact, [r.decision, r.evidence, r.requirement], sequence, [env.stamp(time), r.verdict, r.verification])
  }

  function ReadLine(env: Env, line: string): Option<Event> {
    if Utf8Size(line) + 1 > MAX_EVIDENCE_LINE_BYTES then None else ReadEvent(env, line)
  }

  /** No line longer than 24 KiB, its newline included, is read. */
  lemma LongLineRefused(env: Env, line: string)
    requires Utf8Size(line + "\n") > 24_576
    ensures ReadLine(env, line).None?
  {
    LineSize(line);
  }

  function MakeEvent(env: Env, n: nat, t: nat, r: Request): Option<Event> {
    CheckRaw(env, MakeRaw(env, n, t, r))
  }

  /** Canonical lines within the line limit; events from requests whose fields pass the checks. */
  function LogCodec(env: Env): Codec {
    Codec(line => ReadLine(env, line), e => Line(env, e), (n: nat, t: nat, r: Request) => MakeEvent(env, n, t, r))
  }

  lemma MadeEvent(env: Env, n: nat, t: nat, r: Request)
    requires Calendar(env) && t <= MAX_TIME && CheckRaw(env, MakeRaw(env, n, t, r)).Some?
    ensures var e := CheckRaw(env, MakeRaw(env, n, t, r)).value;
            e.sequence == n && e.time == t && Recounts(e, r) && Settled(env, e)
  {
    assert CheckTime(env, env.stamp(t)) == Some(t);
    CheckedIsSettled(env, MakeRaw(env, n, t, r));
  }

  predicate FieldFits(env: Env, value: string, limit: nat) {
    var text := Markdown.Strip(value);
    text != "" && Utf8Size(text) <= limit && '\U{00}' !in text && !env.secret(text)
  }

  /** A request is in order exactly when its texts are bounded and harmless, its verdict is one, and its artifact is well named. */
  lemma RequestInOrder(env: Env, n: nat, t: nat, r: Request)
    requires Calendar(env) && 1 <= n && t <= MAX_TIME
    ensures MakeEvent(env, n, t, r).Some?
            <==> && FieldFits(env, r.requirement, 4096) && FieldFits(env, r.evidence, 4096)
                 && FieldFits(env, r.decision, 4096) && FieldFits(env, r.verification, 4096)
                 && r.verdict in {"VERIFIED", "NOT VERIFIED", "INCONCLUSIVE"}
                 && (r.artifact.Some? ==>
                       && FieldFits(env, r.artifact.value.path, 1024)
                       && env.canonicalPath(Markdown.Strip(r.artifact.value.path))
                       && (r.artifact.value.sha256.Some? ==>
                             |r.artifact.value.sha256.value| == 64 && AllHex(r.artifact.value.sha256.value)))
  {
    if r.artifact.Some? && r.artifact.value.sha256.Some? {
      LowerHex(r.artifact.value.sha256.value);
    }
    assert CheckTime(env, env.stamp(t)) == Some(t);
  }

  /** The line spelled out: each field stands after its own key. */
  lemma LineSpelledOut(env: Env, e: Event)
    ensures Line(env, e) ==
      "{\"artifact\":" + WriteArtifact(e.artifact,
      ",\"decision\":" + WriteText(e.decision,
      ",\"evidence\":" + WriteText(e.evidence,
      ",\"requirement\":" + WriteText(e.requirement,
      ",\"schema_version\":1,\"sequence\":" + (Decimal(e.sequence) +
      (",\"timestamp\":" + WriteText(env.stamp(e.time),
      ",\"verdict\":" + WriteText(e.verdict,
      ",\"verification\":" + WriteText(e.verification, "}")))))))))
  {
    var raw := RawOf(env, e);
    ThreeTexts(BEFORE, raw.before, SEQUENCE + (Decimal(raw.sequence) + WriteTexts(AFTER, raw.after, "}")));
    ThreeTexts(AFTER, raw.after, "}");
  }

  lemma ThreeTexts(keys: seq<string>, values: seq<string>, rest: string)
    requires |keys| == |values| == 3
    ensures WriteTexts(keys, values, rest)
         == keys[0] + WriteText(values[0], keys[1] + WriteText(values[1], keys[2] + WriteText(values[2], rest)))
  {
    assert keys[1..][1..] == keys[2..] && values[1..][1..] == values[2..];
    assert WriteTexts(keys[2..], values[2..], rest) == keys[2] + WriteText(values[2], rest) by {
      assert keys[2..][1..] == [] && values[2..][1..] == [];
    }
    assert WriteTexts(keys[1..], values[1..], rest) == keys[1] + WriteText(values[1], WriteTexts(keys[2..], values[2..], rest));
  }

  /** Everything proved of a sound codec's trail holds of this log. */
  lemma LogCodecIsSound(env: Env)
    requires Calendar(env)
    ensures Sound(LogCodec(env))
  {
    var c := LogCodec(env);
    forall n: nat, t: nat, r: Request | n >= 1 && t <= MAX_TIME && c.make(n, t, r).Some?
      ensures WritesBack(c, n, t, r, c.make(n, t, r).value)
    {
      var e := c.make(n, t, r).value;
      MadeEvent(env, n, t, r);
      LineReads(env, e);
      LineIsOneLine(env, e);
    }
  }
}

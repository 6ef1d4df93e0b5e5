/** Where a quoted passage stands in its document. */
module Quotes {
  import opened Wrappers
  import opened Text
  import Markdown

  predicate OccursAt(text: string, quote: string, i: nat) {
    i + |quote| <= |text| && text[i..i + |quote|] == quote
  }

  /** An occurrence is a way to cut the quote out of the text. */
  lemma OccurrenceCuts(text: string, quote: string, i: nat)
    ensures OccursAt(text, quote, i) <==> exists before, after :: text == before + quote + after && |before| == i
  {
    if OccursAt(text, quote, i) {
      assert text == text[..i] + quote + text[i + |quote|..] && |text[..i]| == i;
    }
    if before, after :| text == before + quote + after && |before| == i {
      assert text[i..i + |quote|] == quote;
    }
  }

  /** text.find(quote, from) */
  function Find(text: string, quote: string, from: nat): (r: Option<nat>)
    ensures r.Some? ==> from <= r.value && OccursAt(text, quote, r.value)
    ensures r.Some? ==> forall i :: from <= i < r.value ==> !OccursAt(text, quote, i)
    ensures r.None? ==> forall i :: from <= i ==> !OccursAt(text, quote, i)
    decreases |text| - from
  {
    if from + |quote| > |text| then None
    else if OccursAt(text, quote, from) then Some(from)
    else Find(text, quote, from + 1)
  }

  /** text.count("\n") */
  function Newlines(text: string): nat {
    if text == "" then 0 else (if text[0] == '\n' then 1 else 0) + Newlines(text[1..])
  }

  /** The line of position i, counted from 1; a newline belongs to the line it ends. */
  function LineOf(text: string, i: nat): nat
    requires i < |text|
  {
    Newlines(text[..i]) + 1
  }

  datatype Passage = Passage(offset: nat, lineStart: nat, lineEnd: nat)

  /** Finds the only occurrence of a quote and the lines it spans; overlapping occurrences count too. */
  method Locate(text: string, quote: string) returns (r: Option<Passage>)
    requires quote != ""
    ensures r.Some? ==> OccursAt(text, quote, r.value.offset)
                        && forall i: nat :: OccursAt(text, quote, i) ==> i == r.value.offset
    ensures r.None? ==> (forall i: nat :: !OccursAt(text, quote, i))
                        || exists i: nat, j: nat :: i < j && OccursAt(text, quote, i) && OccursAt(text, quote, j)
    ensures r.Some? ==> r.value.lineStart == LineOf(text, r.value.offset)
                        && r.value.lineEnd == LineOf(text, r.value.offset + |quote| - 1)
  {
    var offset := Find(text, quote, 0);
    if offset.None? {
      return None;
    }
    var again := Find(text, quote, offset.value + 1);
    if again.Some? {
      return None;
    }
    return Some(Passage(offset.value, Newlines(text[..offset.value]) + 1,
                        Newlines(text[..offset.value + |quote| - 1]) + 1));
  }

  lemma {:induction false} NewlinesConcat(a: string, b: string)
    ensures Newlines(a + b) == Newlines(a) + Newlines(b)
  {
    if a == "" {
      assert a + b == b;
    } else {
      assert (a + b)[1..] == a[1..] + b;
      NewlinesConcat(a[1..], b);
    }
  }

  lemma LinesRise(text: string, i: nat, j: nat)
    requires i <= j < |text|
    ensures LineOf(text, i) <= LineOf(text, j)
  {
    assert text[..j] == text[..i] + text[i..j];
    NewlinesConcat(text[..i], text[i..j]);
  }

  /** A line interval holds every character of the passage exactly when it holds its first and last lines. */
  lemma SmallestInterval(text: string, offset: nat, length: nat, low: nat, high: nat)
    requires length > 0 && offset + length <= |text|
    ensures (forall i :: offset <= i < offset + length ==> low <= LineOf(text, i) <= high)
            <==> low <= LineOf(text, offset) && LineOf(text, offset + length - 1) <= high
  {
    forall i | offset <= i < offset + length
      ensures LineOf(text, offset) <= LineOf(text, i) <= LineOf(text, offset + length - 1)
    {
      LinesRise(text, offset, i);
      LinesRise(text, i, offset + length - 1);
    }
  }

  lemma {:induction false} SplitCounts(text: string)
    ensures |Split(text, '\n')| == Newlines(text) + 1
  {
    if text != "" {
      SplitCounts(text[1..]);
    }
  }

  /** Two lists of lines whose last and first line are one. */
  function Glue(a: seq<string>, b: seq<string>): (glued: seq<string>)
    requires a != [] && b != []
    ensures glued != []
  {
    a[..|a| - 1] + [a[|a| - 1] + b[0]] + b[1..]
  }

  lemma GlueAfter(c: char, a: seq<string>, b: seq<string>)
    requires a != [] && b != []
    ensures [[]] + Glue(a, b) == Glue([[]] + a, b)
    ensures [[c] + Glue(a, b)[0]] + Glue(a, b)[1..] == Glue([[c] + a[0]] + a[1..], b)
  {
    if |a| == 1 {
      assert [c] + (a[0] + b[0]) == [c] + a[0] + b[0];
    }
  }

  /** Splitting the two halves of a text splits the text, but for the line they share. */
  lemma {:induction false} SplitHalves(p: string, s: string)
    ensures Split(p + s, '\n') == Glue(Split(p, '\n'), Split(s, '\n'))
  {
    var b := Split(s, '\n');
    if p == "" {
      GlueNothing(b);
      assert p + s == s;
    } else {
      SplitHalves(p[1..], s);
      HeadAndHalves(p[0], p[1..], s);
      assert p == [p[0]] + p[1..] && p + s == [p[0]] + (p[1..] + s);
    }
  }

  lemma GlueNothing(b: seq<string>)
    requires b != []
    ensures Glue(Split("", '\n'), b) == b
  {
    assert [] + b[0] == b[0];
  }

  lemma HeadAndHalves(c: char, p: string, s: string)
    requires Split(p + s, '\n') == Glue(Split(p, '\n'), Split(s, '\n'))
    ensures Split([c] + (p + s), '\n') == Glue(Split([c] + p, '\n'), Split(s, '\n'))
  {
    Markdown.SplitHead(c, p);
    Markdown.SplitHead(c, p + s);
    GlueAfter(c, Split(p, '\n'), Split(s, '\n'));
  }

  /** Cut at newlines, the document has the line in its place: position i lies in the LineOf-th part or ends it. */
  lemma LineIsInRange(text: string, i: nat)
    requires i < |text|
    ensures 1 <= LineOf(text, i) <= |Split(text, '\n')|
    ensures var before, line := Split(text[..i], '\n'), Split(text, '\n')[LineOf(text, i) - 1];
            var column := |before[|before| - 1]|;
            column <= |line| && if text[i] == '\n' then column == |line| else column < |line| && line[column] == text[i]
  {
    var p, s := text[..i], text[i..];
    assert text == p + s && s == [s[0]] + s[1..];
    SplitCounts(p);
    SplitHalves(p, s);
    Markdown.SplitHead(s[0], s[1..]);
  }

  // ---- the sources of an answer ----

  const MAX_QUOTE := 8000

  datatype Source = Source(path: string, quote: string)

  datatype Verified = Verified(source: Source, lineStart: nat, lineEnd: nat)

  ghost predicate UniqueAt(text: string, quote: string, offset: nat) {
    OccursAt(text, quote, offset) && forall i: nat :: OccursAt(text, quote, i) ==> i == offset
  }

  /** A known document under its canonical name, and a bounded quote that stands in it exactly once. */
  ghost predicate Supported(s: Source, documents: map<string, string>, canonical: string -> bool) {
    && s.path in documents && canonical(s.path)
    && Markdown.Strip(s.quote) != "" && |s.quote| <= MAX_QUOTE
    && exists offset: nat :: UniqueAt(documents[s.path], s.quote, offset)
  }

  lemma SupportedExactly(s: Source, documents: map<string, string>, canonical: string -> bool)
    ensures Supported(s, documents, canonical)
            <==> && s.path in documents && canonical(s.path) && !Markdown.Blank(s.quote) && |s.quote| <= 8_000
                 && exists offset: nat :: UniqueAt(documents[s.path], s.quote, offset)
  {
    Markdown.StripsToNothing(s.quote);
  }

  /** The lines of the quote's only occurrence. */
  ghost predicate Placed(v: Verified, documents: map<string, string>) {
    && v.source.path in documents && v.source.quote != ""
    && exists offset: nat ::
         && UniqueAt(documents[v.source.path], v.source.quote, offset)
         && v.lineStart == LineOf(documents[v.source.path], offset)
         && v.lineEnd == LineOf(documents[v.source.path], offset + |v.source.quote| - 1)
  }

  /** One source: refused, or placed by the lines of its quote. */
  method VerifyOne(s: Source, documents: map<string, string>, canonical: string -> bool) returns (r: Option<Verified>)
    ensures r.Some? <==> Supported(s, documents, canonical)
    ensures r.Some? ==> r.value.source == s && Placed(r.value, documents)
  {
    if s.path !in documents || !canonical(s.path) || Markdown.Strip(s.quote) == "" || |s.quote| > MAX_QUOTE {
      return None;
    }
    var passage := Locate(documents[s.path], s.quote);
    if passage.None? {
      return None;
    }
    assert UniqueAt(documents[s.path], s.quote, passage.value.offset);
    return Some(Verified(s, passage.value.lineStart, passage.value.lineEnd));
  }

  /** The loop over the sources: each supported, none repeated, each placed. */
  method VerifySources(sources: seq<Source>, documents: map<string, string>, canonical: string -> bool)
    returns (r: Option<seq<Verified>>)
    ensures r.Some? <==> && (forall i :: 0 <= i < |sources| ==> Supported(sources[i], documents, canonical))
                         && forall i, j :: 0 <= i < j < |sources| ==> sources[i] != sources[j]
    ensures r.Some? ==> |r.value| == |sources|
                        && forall i :: 0 <= i < |sources| ==> r.value[i].source == sources[i] && Placed(r.value[i], documents)
  {
    var verified: seq<Verified> := [];
    var identities: set<Source> := {};
    var i := 0;
    while i < |sources|
      invariant 0 <= i <= |sources| && |verified| == i
      invariant identities == set k | 0 <= k < i :: sources[k]
      invariant forall k :: 0 <= k < i ==> Supported(sources[k], documents, canonical)
      invariant forall j, k :: 0 <= j < k < i ==> sources[j] != sources[k]
      invariant forall k :: 0 <= k < i ==> verified[k].source == sources[k] && Placed(verified[k], documents)
    {
      var v := VerifyOne(sources[i], documents, canonical);
      if v.None? || sources[i] in identities {
        return None;
      }
      identities := identities + {sources[i]};
      verified := verified + [v.value];
      i := i + 1;
    }
    return Some(verified);
  }
}

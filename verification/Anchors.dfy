/** Heading anchors: numbered until fresh, and remembered for the eight texts used last. */
module Anchors {
  import opened HunkHeader

  // ---- one fresh slug ----

  /** The k-th try for a heading: its own slug, then the slug with a numeric suffix. */
  function Candidate(base: string, k: nat): string {
    if k == 0 then base else base + "-" + Decimal(k)
  }

  lemma CandidatesDiffer(base: string, j: nat, k: nat)
    requires j != k
    ensures Candidate(base, j) != Candidate(base, k)
  {
    if j > 0 && k > 0 {
      var a, b := base + "-" + Decimal(j), base + "-" + Decimal(k);
      assert a[|base| + 1..] == Decimal(j) && b[|base| + 1..] == Decimal(k);
      assert ToNat(Decimal(j)) == j && ToNat(Decimal(k)) == k;
    }
  }

  function Tried(base: string, k: nat): set<string> {
    set j | 0 <= j < k :: Candidate(base, j)
  }

  lemma TriedNext(base: string, k: nat)
    ensures Tried(base, k + 1) == Tried(base, k) + {Candidate(base, k)}
    ensures Candidate(base, k) !in Tried(base, k)
  {
    forall j | 0 <= j < k ensures Candidate(base, j) != Candidate(base, k) {
      CandidatesDiffer(base, j, k);
    }
  }

  lemma {:induction false} TriedSize(base: string, k: nat)
    ensures |Tried(base, k)| == k
  {
    if k > 0 {
      TriedSize(base, k - 1);
      TriedNext(base, k - 1);
    }
  }

  lemma SubsetSize(a: set<string>, b: set<string>)
    requires a <= b
    ensures |a| <= |b|
  {
    assert b == a + (b - a);
  }

  /** Pigeonhole: only so many tries can be taken. */
  lemma TriesBounded(anchors: set<string>, base: string, k: nat)
    requires forall j :: 0 <= j < k ==> Candidate(base, j) in anchors
    ensures k <= |anchors|
  {
    TriedSize(base, k);
    SubsetSize(Tried(base, k), anchors);
  }

  /** The first try that is not taken. */
  ghost predicate FirstFree(anchors: set<string>, base: string, slug: string) {
    exists k: nat :: slug == Candidate(base, k) && slug !in anchors
                     && forall j :: 0 <= j < k ==> Candidate(base, j) in anchors
  }

  // ---- all headings ----

  /** Each heading takes the first free slug after those before it. */
  ghost predicate Assigned(bases: seq<string>, slugs: seq<string>) {
    && |slugs| == |bases|
    && forall i :: 0 <= i < |bases| ==> FirstFree(Set(slugs[..i]), bases[i], slugs[i])
  }

  ghost function Set(slugs: seq<string>): set<string> {
    set i | 0 <= i < |slugs| :: slugs[i]
  }

  lemma FirstFreeUnique(anchors: set<string>, base: string, a: string, b: string)
    requires FirstFree(anchors, base, a) && FirstFree(anchors, base, b)
    ensures a == b
  {
    var j: nat :| a == Candidate(base, j) && a !in anchors
                  && forall i :: 0 <= i < j ==> Candidate(base, i) in anchors;
    var k: nat :| b == Candidate(base, k) && b !in anchors
                  && forall i :: 0 <= i < k ==> Candidate(base, i) in anchors;
  }

  lemma FirstFreeIsNew(anchors: set<string>, base: string, slug: string)
    requires FirstFree(anchors, base, slug)
    ensures slug !in anchors && |anchors + {slug}| == |anchors| + 1
  {
  }

  lemma AssignedFront(bases: seq<string>, slugs: seq<string>)
    requires Assigned(bases, slugs) && bases != []
    ensures var n := |bases| - 1;
            Assigned(bases[..n], slugs[..n]) && FirstFree(Set(slugs[..n]), bases[n], slugs[n])
  {
    var n := |bases| - 1;
    forall i | 0 <= i < n ensures FirstFree(Set(slugs[..n][..i]), bases[..n][i], slugs[..n][i]) {
      assert slugs[..n][..i] == slugs[..i];
    }
  }

  /** The slugs are determined by the headings. */
  lemma {:induction false} AssignedUnique(bases: seq<string>, a: seq<string>, b: seq<string>)
    requires Assigned(bases, a) && Assigned(bases, b)
    ensures a == b
  {
    if bases != [] {
      var n := |bases| - 1;
      AssignedFront(bases, a);
      AssignedFront(bases, b);
      AssignedUnique(bases[..n], a[..n], b[..n]);
      FirstFreeUnique(Set(a[..n]), bases[n], a[n], b[n]);
      assert a == a[..n] + [a[n]] && b == b[..n] + [b[n]];
    }
  }

  lemma {:induction false} EqualHeadingTakes(bases: seq<string>, slugs: seq<string>, base: string, k: nat)
    requires Assigned(bases, slugs) && (forall i :: 0 <= i < |bases| ==> bases[i] == base) && k < |bases|
    ensures slugs[k] == Candidate(base, k)
    decreases k
  {
    var taken := slugs[..k];
    forall i | 0 <= i < k ensures taken[i] == Candidate(base, i) {
      EqualHeadingTakes(bases, slugs, base, i);
    }
    TakenInOrder(taken, base);
    FirstFreeUnique(Set(taken), base, slugs[k], Candidate(base, k));
  }

  /** Of equal headings the first takes the plain slug, the second "-1" after it, and so on. */
  lemma EqualHeadingsNumbered(bases: seq<string>, slugs: seq<string>, base: string, k: nat)
    requires Assigned(bases, slugs) && (forall i :: 0 <= i < |bases| ==> bases[i] == base) && k < |bases|
    ensures slugs[k] == if k == 0 then base else if k == 1 then base + "-1" else base + "-" + Decimal(k)
  {
    EqualHeadingTakes(bases, slugs, base, k);
    assert Decimal(1) == "1";
  }

  lemma TakenInOrder(slugs: seq<string>, base: string)
    requires forall i :: 0 <= i < |slugs| ==> slugs[i] == Candidate(base, i)
    ensures FirstFree(Set(slugs), base, Candidate(base, |slugs|))
  {
    forall i | 0 <= i < |slugs| ensures Candidate(base, i) in Set(slugs) && Candidate(base, |slugs|) != slugs[i] {
      assert slugs[i] in Set(slugs);
      CandidatesDiffer(base, i, |slugs|);
    }
  }

  /** Every heading gets its own anchor, so there are as many anchors as headings. */
  lemma {:induction false} AnchorPerHeading(bases: seq<string>, slugs: seq<string>)
    requires Assigned(bases, slugs)
    ensures |Set(slugs)| == |bases|
  {
    if bases != [] {
      var n := |bases| - 1;
      AssignedFront(bases, slugs);
      AnchorPerHeading(bases[..n], slugs[..n]);
      SetLast(slugs);
      FirstFreeIsNew(Set(slugs[..n]), bases[n], slugs[n]);
    }
  }

  lemma SetLast(slugs: seq<string>)
    requires slugs != []
    ensures Set(slugs) == Set(slugs[..|slugs| - 1]) + {slugs[|slugs| - 1]}
  {
    SetSnoc(slugs[..|slugs| - 1], slugs[|slugs| - 1]);
    assert slugs == slugs[..|slugs| - 1] + [slugs[|slugs| - 1]];
  }

  lemma SetSnoc(slugs: seq<string>, slug: string)
    ensures Set(slugs + [slug]) == Set(slugs) + {slug}
  {
    var longer := slugs + [slug];
    forall s | s in Set(slugs) + {slug} ensures s in Set(longer) {
      if s == slug {
        assert longer[|slugs|] == s;
      } else {
        var i :| 0 <= i < |slugs| && slugs[i] == s;
        assert longer[i] == s;
      }
    }
  }

  /** The suffix search; it ends because the tries are all different and the anchors finitely many. */
  method FreshSlug(anchors: set<string>, base: string) returns (slug: string)
    ensures FirstFree(anchors, base, slug)
  {
    var suffix: nat := 0;
    slug := base;
    while slug in anchors
      invariant slug == Candidate(base, suffix)
      invariant forall j :: 0 <= j < suffix ==> Candidate(base, j) in anchors
      invariant suffix <= |anchors|
      decreases |anchors| - suffix
    {
      TriesBounded(anchors, base, suffix + 1);
      suffix := suffix + 1;
      slug := base + "-" + Decimal(suffix);
    }
  }

  /** The loop over the headings. */
  method HeadingAnchors(bases: seq<string>) returns (anchors: set<string>, ghost slugs: seq<string>)
    ensures Assigned(bases, slugs) && anchors == Set(slugs) && |anchors| == |bases|
  {
    anchors, slugs := {}, [];
    var i := 0;
    while i < |bases|
      invariant 0 <= i <= |bases|
      invariant Assigned(bases[..i], slugs) && anchors == Set(slugs)
    {
      var slug := FreshSlug(anchors, bases[i]);
      anchors := anchors + {slug};
      AssignedSnoc(bases[..i], slugs, bases[i], slug);
      SetSnoc(slugs, slug);
      slugs := slugs + [slug];
      assert bases[..i] + [bases[i]] == bases[..i + 1];
      i := i + 1;
    }
    assert bases[..i] == bases;
    AnchorPerHeading(bases, slugs);
  }

  lemma AssignedSnoc(bases: seq<string>, slugs: seq<string>, base: string, slug: string)
    requires Assigned(bases, slugs) && FirstFree(Set(slugs), base, slug)
    ensures Assigned(bases + [base], slugs + [slug])
  {
    forall i | 0 <= i < |bases| + 1
      ensures FirstFree(Set((slugs + [slug])[..i]), (bases + [base])[i], (slugs + [slug])[i])
    {
      assert (slugs + [slug])[..i] == slugs[..i];
      if i == |bases| {
        assert slugs[..i] == slugs;
      }
    }
  }

  // ---- the cache ----

  const CACHE_SIZE := 8

  /** The anchors of a list of headings. */
  ghost predicate AreAnchors(bases: seq<string>, anchors: set<string>) {
    exists slugs :: Assigned(bases, slugs) && anchors == Set(slugs)
  }

  lemma AnchorsUnique(bases: seq<string>, a: set<string>, b: set<string>)
    requires AreAnchors(bases, a) && AreAnchors(bases, b)
    ensures a == b
  {
    var s :| Assigned(bases, s) && a == Set(s);
    var t :| Assigned(bases, t) && b == Set(t);
    AssignedUnique(bases, s, t);
  }

  /** A text and the anchors computed for it. */
  datatype Entry = Entry(text: string, anchors: set<string>)

  /** The entries but for one text. */
  function Without(entries: seq<Entry>, text: string): (r: seq<Entry>)
    ensures |r| <= |entries|
    ensures forall i :: 0 <= i < |r| ==> r[i] in entries && r[i].text != text
    ensures (exists i :: 0 <= i < |entries| && entries[i].text == text) ==> |r| < |entries|
  {
    if entries == [] then []
    else if entries[0].text == text then Without(entries[1..], text)
    else [entries[0]] + Without(entries[1..], text)
  }

  /** The cache after a use: that entry is the most recent, and the least recent of nine goes. */
  function AfterUse(entries: seq<Entry>, entry: Entry): (r: seq<Entry>)
    ensures |entries| <= CACHE_SIZE ==> |r| <= CACHE_SIZE
    ensures r != [] && r[|r| - 1] == entry
  {
    var all := Without(entries, entry.text) + [entry];
    if |all| > CACHE_SIZE then all[|all| - CACHE_SIZE..] else all
  }

  /** Keyed by content, so an edited file is a new text; headingsOf stands for the Markdown parser. */
  class AnchorCache {
    const headingsOf: string -> seq<string>
    var entries: seq<Entry>

    ghost predicate Valid()
      reads this
    {
      && |entries| <= CACHE_SIZE
      && forall i :: 0 <= i < |entries| ==> AreAnchors(headingsOf(entries[i].text), entries[i].anchors)
    }

    constructor (headingsOf: string -> seq<string>)
      ensures Valid() && this.headingsOf == headingsOf && entries == []
    {
      this.headingsOf := headingsOf;
      entries := [];
    }

    /** The anchors of a text, from the cache or computed now: the same either way. */
    method Lookup(text: string) returns (anchors: set<string>)
      requires Valid()
      modifies this
      ensures Valid()
      ensures AreAnchors(headingsOf(text), anchors)
      ensures entries == AfterUse(old(entries), Entry(text, anchors))
    {
      var i := 0;
      while i < |entries| && entries[i].text != text
        invariant 0 <= i <= |entries|
      {
        i := i + 1;
      }
      if i < |entries| {
        anchors := entries[i].anchors;
      } else {
        ghost var slugs;
        anchors, slugs := HeadingAnchors(headingsOf(text));
      }
      entries := AfterUse(entries, Entry(text, anchors));
    }
  }
}

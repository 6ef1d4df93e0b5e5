/** The upstream manifest, its append-only review ledger, and the two validators that read them. */
module UpstreamDocs {
  import opened Slugs

  const MAX_SOURCES := 32
  const MAX_REVIEW_TRANSITIONS := 512
  const MAX_SOURCE_ID := 64

  // ---- documents ----

  /** 40 lowercase hexadecimal digits. */
  predicate IsFullSha(s: string) {
    && |s| == 40
    && forall i :: 0 <= i < |s| ==> '0' <= s[i] <= '9' || 'a' <= s[i] <= 'f'
  }

  datatype Identity = Identity(commit: string, subtree: string)

  predicate IsIdentity(i: Identity) {
    IsFullSha(i.commit) && IsFullSha(i.subtree)
  }

  /** One reviewed advance; review stands for the inventory digest and the dispositions. */
  datatype Transition = Transition(prior: Identity, next: Identity, review: string)

  /** What a manifest source and its review entry must agree on. */
  datatype Meta = Meta(repository: string, path: string, provenance: string, parity: string)

  datatype Source = Source(id: string, meta: Meta, ref: string, pin: Identity)

  datatype Review = Review(id: string, meta: Meta, genesis: Identity, transitions: seq<Transition>)

  datatype Docs = Docs(sources: seq<Source>, reviews: seq<Review>)

  function SourceIds(d: Docs): seq<string> {
    seq(|d.sources|, i requires 0 <= i < |d.sources| => d.sources[i].id)
  }

  function ReviewIds(d: Docs): seq<string> {
    seq(|d.reviews|, i requires 0 <= i < |d.reviews| => d.reviews[i].id)
  }

  predicate Distinct(ids: seq<string>) {
    forall i, j :: 0 <= i < j < |ids| ==> ids[i] != ids[j]
  }

  predicate Within(ids: seq<string>, others: seq<string>) {
    forall i :: 0 <= i < |ids| ==> ids[i] in others
  }

  /** Where an id stands in a list without duplicates. */
  function Position(ids: seq<string>, id: string): (k: nat)
    requires id in ids
    ensures k < |ids| && ids[k] == id
  {
    if ids[0] == id then 0 else 1 + Position(ids[1..], id)
  }

  function SourceNamed(d: Docs, id: string): Source
    requires id in SourceIds(d)
  {
    d.sources[Position(SourceIds(d), id)]
  }

  function ReviewNamed(d: Docs, id: string): Review
    requires id in ReviewIds(d)
  {
    d.reviews[Position(ReviewIds(d), id)]
  }

  // ---- chains ----

  /** Each transition starts where the one before it ended, and moves. */
  predicate Chained(from: Identity, transitions: seq<Transition>)
    decreases |transitions|
  {
    transitions == []
    || (&& IsIdentity(transitions[0].prior) && IsIdentity(transitions[0].next)
        && transitions[0].prior == from
        && transitions[0].next != transitions[0].prior
        && Chained(transitions[0].next, transitions[1..]))
  }

  /** Where the i-th transition must start. */
  function StartOf(from: Identity, transitions: seq<Transition>, i: nat): Identity
    requires i < |transitions|
  {
    if i == 0 then from else transitions[i - 1].next
  }

  /** Full hashes, from where the chain stands to somewhere else. */
  predicate LinkAt(from: Identity, transitions: seq<Transition>, i: nat)
    requires i < |transitions|
  {
    var t := transitions[i];
    && IsIdentity(t.prior) && IsIdentity(t.next)
    && t.prior == StartOf(from, transitions, i) && t.next != t.prior
  }

  predicate Linked(from: Identity, transitions: seq<Transition>) {
    forall i :: 0 <= i < |transitions| ==> LinkAt(from, transitions, i)
  }

  lemma LinkedCons(from: Identity, transitions: seq<Transition>)
    requires transitions != []
    ensures Linked(from, transitions) <==> LinkAt(from, transitions, 0) && Linked(transitions[0].next, transitions[1..])
  {
    var rest := transitions[1..];
    forall i | 0 <= i < |rest|
      ensures LinkAt(transitions[0].next, rest, i) <==> LinkAt(from, transitions, i + 1)
    {
      assert rest[i] == transitions[i + 1];
    }
    if LinkAt(from, transitions, 0) && Linked(transitions[0].next, rest) {
      forall i | 0 <= i < |transitions| ensures LinkAt(from, transitions, i) {
        assert i > 0 ==> LinkAt(transitions[0].next, rest, i - 1);
      }
    }
    if Linked(from, transitions) {
      forall i | 0 <= i < |rest| ensures LinkAt(transitions[0].next, rest, i) {
        assert LinkAt(from, transitions, i + 1);
      }
    }
  }

  /** The same link by link: full hashes, each start the end before it, and each a move. */
  lemma {:induction false} ChainLinks(from: Identity, transitions: seq<Transition>)
    ensures Chained(from, transitions) <==> Linked(from, transitions)
    decreases |transitions|
  {
    if transitions != [] {
      ChainLinks(transitions[0].next, transitions[1..]);
      LinkedCons(from, transitions);
    }
  }

  function Tip(from: Identity, transitions: seq<Transition>): Identity {
    if transitions == [] then from else transitions[|transitions| - 1].next
  }

  /** The review entry of a source: same description, and a chain from its genesis to the pin. */
  predicate ReviewFits(r: Review, s: Source) {
    && r.id == s.id && r.meta == s.meta
    && IsIdentity(r.genesis)
    && |r.transitions| <= MAX_REVIEW_TRANSITIONS
    && Chained(r.genesis, r.transitions)
    && Tip(r.genesis, r.transitions) == s.pin
  }

  lemma {:induction false} ChainedConcat(from: Identity, a: seq<Transition>, b: seq<Transition>)
    ensures Chained(from, a + b) <==> Chained(from, a) && Chained(Tip(from, a), b)
    decreases |a|
  {
    if a == [] {
      assert a + b == b;
    } else {
      assert (a + b)[1..] == a[1..] + b;
      ChainedConcat(a[0].next, a[1..], b);
      assert Tip(a[0].next, a[1..]) == Tip(from, a);
    }
  }

  method CheckChain(genesis: Identity, transitions: seq<Transition>, pin: Identity)
    returns (ok: bool)
    ensures ok <==> Chained(genesis, transitions) && Tip(genesis, transitions) == pin
    ensures ok <==> && Linked(genesis, transitions)
                    && pin == if transitions == [] then genesis else transitions[|transitions| - 1].next
  {
    ChainLinks(genesis, transitions);
    var prior := genesis;
    for k := 0 to |transitions|
      invariant Chained(genesis, transitions[..k])
      invariant prior == Tip(genesis, transitions[..k])
    {
      var t := transitions[k];
      ghost var done, rest := transitions[..k], transitions[k..];
      assert transitions == done + rest && rest[0] == t;
      ChainedConcat(genesis, done, rest);
      if !IsIdentity(t.prior) || !IsIdentity(t.next) || t.prior != prior || t.next == t.prior {
        return false;
      }
      assert [t][1..] == [];
      assert Chained(prior, [t]);
      ChainedConcat(genesis, done, [t]);
      assert transitions[..k + 1] == done + [t];
      prior := t.next;
    }
    assert transitions[..|transitions|] == transitions;
    ok := prior == pin;
  }

  // ---- the loader ----

  /** What loading the manifest accepts: between 1 and 32 sources with distinct short ids and pins. */
  predicate ManifestLoads(d: Docs) {
    && 1 <= |d.sources| <= MAX_SOURCES
    && Distinct(SourceIds(d))
    && forall i :: 0 <= i < |d.sources| ==>
         IsSlug(d.sources[i].id) && |d.sources[i].id| <= MAX_SOURCE_ID && IsIdentity(d.sources[i].pin)
  }

  /** One review entry names a manifest source and fits it. */
  predicate ReviewLoads(d: Docs, k: nat)
    requires k < |d.reviews|
  {
    && d.reviews[k].id in SourceIds(d)
    && ReviewFits(d.reviews[k], SourceNamed(d, d.reviews[k].id))
  }

  /** What loading the ledger against a loaded manifest accepts. */
  predicate LedgerLoads(d: Docs) {
    && |d.reviews| == |d.sources|
    && (forall k :: 0 <= k < |d.reviews| ==> ReviewLoads(d, k))
    && Distinct(ReviewIds(d))
    && Within(SourceIds(d), ReviewIds(d))
  }

  predicate LoaderAccepts(d: Docs) {
    ManifestLoads(d) && LedgerLoads(d)
  }

  predicate FortyHexDigits(s: string) {
    |s| == 40 && AllHex(s)
  }

  lemma OrdinaryId()
    ensures IsSlug("mattpocock-skills") && |"mattpocock-skills"| <= MAX_SOURCE_ID
  {
  }

  /** An ordinary pair loads: one source, reviewed once, its identities full lowercase hashes. */
  lemma OrdinaryLoads(id: string, meta: Meta, ref: string, genesis: Identity, pin: Identity, review: string)
    requires FortyHexDigits(genesis.commit) && FortyHexDigits(genesis.subtree)
    requires FortyHexDigits(pin.commit) && FortyHexDigits(pin.subtree) && pin != genesis
    requires id == "mattpocock-skills"
    ensures LoaderAccepts(Docs([Source(id, meta, ref, pin)],
                               [Review(id, meta, genesis, [Transition(genesis, pin, review)])]))
  {
    OrdinaryId();
    HexDigits(genesis.commit);
    HexDigits(genesis.subtree);
    HexDigits(pin.commit);
    HexDigits(pin.subtree);
    OneSourceLoads(id, meta, ref, genesis, pin, review);
  }

  lemma OneSourceLoads(id: string, meta: Meta, ref: string, genesis: Identity, pin: Identity, review: string)
    requires IsSlug(id) && |id| <= MAX_SOURCE_ID && IsIdentity(genesis) && IsIdentity(pin) && pin != genesis
    ensures LoaderAccepts(Docs([Source(id, meta, ref, pin)],
                               [Review(id, meta, genesis, [Transition(genesis, pin, review)])]))
  {
    var r := Review(id, meta, genesis, [Transition(genesis, pin, review)]);
    var d := Docs([Source(id, meta, ref, pin)], [r]);
    assert r.transitions[1..] == [] && Chained(genesis, r.transitions);
    assert SourceIds(d) == [id] && ReviewIds(d) == [id];
    assert ReviewLoads(d, 0);
  }

  /** What loads has full hashes, at most 32 sources and at most 512 transitions for each. */
  lemma LoadedBounds(d: Docs)
    requires LoaderAccepts(d)
    ensures 1 <= |d.sources| == |d.reviews| <= 32
    ensures forall i :: 0 <= i < |d.sources| ==>
              && FortyHexDigits(d.sources[i].pin.commit) && FortyHexDigits(d.sources[i].pin.subtree)
              && 1 <= |d.sources[i].id| <= 64
    ensures forall k :: 0 <= k < |d.reviews| ==>
              && |d.reviews[k].transitions| <= 512
              && FortyHexDigits(d.reviews[k].genesis.commit) && FortyHexDigits(d.reviews[k].genesis.subtree)
  {
    forall i | 0 <= i < |d.sources|
      ensures FortyHexDigits(d.sources[i].pin.commit) && FortyHexDigits(d.sources[i].pin.subtree)
      ensures 1 <= |d.sources[i].id| <= 64
    {
      HexDigits(d.sources[i].pin.commit);
      HexDigits(d.sources[i].pin.subtree);
    }
    forall k | 0 <= k < |d.reviews|
      ensures |d.reviews[k].transitions| <= 512
      ensures FortyHexDigits(d.reviews[k].genesis.commit) && FortyHexDigits(d.reviews[k].genesis.subtree)
    {
      assert ReviewLoads(d, k);
      HexDigits(d.reviews[k].genesis.commit);
      HexDigits(d.reviews[k].genesis.subtree);
    }
  }

  lemma HexDigits(s: string)
    ensures IsFullSha(s) <==> FortyHexDigits(s)
  {
    LowerHex(s);
  }

  // ---- the journal validator ----

  predicate GoodIds(ids: seq<string>) {
    && ids != [] && Distinct(ids)
    && forall i :: 0 <= i < |ids| ==> IsSlug(ids[i])
  }

  /** The four lists of a journal name the same sources. */
  predicate SameNames(d: Docs) {
    && GoodIds(SourceIds(d)) && GoodIds(ReviewIds(d))
    && Within(SourceIds(d), ReviewIds(d)) && Within(ReviewIds(d), SourceIds(d))
  }

  /** Every source of one side has a fitting review chain. */
  predicate ChainsHold(d: Docs)
    requires SameNames(d)
  {
    forall i :: 0 <= i < |d.sources| ==>
      && IsIdentity(d.sources[i].pin)
      && assert d.sources[i].id == SourceIds(d)[i];
         ReviewFits(ReviewNamed(d, d.sources[i].id), d.sources[i])
  }

  /** Nothing but the named source and its review entry differs. */
  predicate OthersKept(before: Docs, after: Docs, id: string)
    requires SourceIds(before) == SourceIds(after) && ReviewIds(before) == ReviewIds(after)
  {
    && |before.sources| == |SourceIds(before)| == |after.sources|
    && |before.reviews| == |ReviewIds(before)| == |after.reviews|
    && (forall i :: 0 <= i < |before.sources| && before.sources[i].id != id ==>
          before.sources[i] == after.sources[i])
    && (forall i :: 0 <= i < |before.reviews| && before.reviews[i].id != id ==>
          before.reviews[i] == after.reviews[i])
  }

  /** The named source moves to the head and its review gains exactly the transition that says so. */
  predicate SelectedAdvances(s: Source, s': Source, r: Review, r': Review, head: string) {
    && s'.meta == s.meta && s'.ref == s.ref && s'.id == s.id
    && s'.pin.commit == head
    && r.meta == s.meta && r'.meta == s'.meta
    && r'.id == r.id && r'.meta == r.meta && r'.genesis == r.genesis
    && |r'.transitions| == |r.transitions| + 1
    && r'.transitions[..|r.transitions|] == r.transitions
    && var t := r'.transitions[|r.transitions|];
       && IsIdentity(t.prior) && IsIdentity(t.next)
       && t.prior == s.pin && t.next == s'.pin
  }

  predicate ValidSnapshots(before: Docs, after: Docs, id: string, head: string) {
    && IsFullSha(head) && |id| <= MAX_SOURCE_ID && IsSlug(id)
    && SameNames(before) && SameNames(after)
    && SourceIds(before) == SourceIds(after) && ReviewIds(before) == ReviewIds(after)
    && id in SourceIds(before)
    && ChainsHold(before) && ChainsHold(after)
    && OthersKept(before, after, id)
    && SelectedAdvances(SourceNamed(before, id), SourceNamed(after, id),
                        ReviewNamed(before, id), ReviewNamed(after, id), head)
  }

  // ---- what an accepted journal is ----

  /** The pair of documents after one source has advanced by one transition. */
  function Advance(d: Docs, id: string, t: Transition): Docs
    requires id in SourceIds(d) && id in ReviewIds(d)
  {
    var p, q := Position(SourceIds(d), id), Position(ReviewIds(d), id);
    Docs(d.sources[p := d.sources[p].(pin := t.next)],
         d.reviews[q := d.reviews[q].(transitions := d.reviews[q].transitions + [t])])
  }

  /** The transition may be appended to the chain of the named source. */
  predicate Appendable(d: Docs, id: string, head: string, t: Transition)
    requires id in SourceIds(d) && id in ReviewIds(d)
  {
    && IsIdentity(t.prior) && IsIdentity(t.next)
    && t.prior == SourceNamed(d, id).pin && t.next != t.prior && t.next.commit == head
    && |ReviewNamed(d, id).transitions| < MAX_REVIEW_TRANSITIONS
  }

  /** One side of a valid journal. */
  predicate Sound(d: Docs) {
    SameNames(d) && ChainsHold(d)
  }

  lemma PositionUnique(ids: seq<string>, k: nat)
    requires Distinct(ids) && k < |ids|
    ensures Position(ids, ids[k]) == k
  {
    var p := Position(ids, ids[k]);
    assert ids[p] == ids[k];
  }

  lemma AdvanceKeepsIds(d: Docs, id: string, t: Transition)
    requires id in SourceIds(d) && id in ReviewIds(d)
    ensures SourceIds(Advance(d, id, t)) == SourceIds(d)
    ensures ReviewIds(Advance(d, id, t)) == ReviewIds(d)
  {
  }

  lemma AppendedFits(r: Review, s: Source, t: Transition)
    requires ReviewFits(r, s) && |r.transitions| < MAX_REVIEW_TRANSITIONS
    requires IsIdentity(t.prior) && IsIdentity(t.next) && t.prior == s.pin && t.next != t.prior
    ensures ReviewFits(r.(transitions := r.transitions + [t]), s.(pin := t.next))
  {
    assert [t][1..] == [];
    assert Chained(s.pin, [t]);
    ChainedConcat(r.genesis, r.transitions, [t]);
  }

  /** Advancing a sound pair by an appendable transition gives a sound pair. */
  lemma AdvanceSound(d: Docs, id: string, head: string, t: Transition)
    requires Sound(d) && id in SourceIds(d) && Appendable(d, id, head, t)
    ensures Sound(Advance(d, id, t))
  {
    var d' := Advance(d, id, t);
    AdvanceKeepsIds(d, id, t);
    var p := Position(SourceIds(d), id);
    assert d.sources[p].id == SourceIds(d)[p] == id;
    AppendedFits(ReviewNamed(d, id), d.sources[p], t);
    forall i | 0 <= i < |d'.sources|
      ensures IsIdentity(d'.sources[i].pin)
      ensures d'.sources[i].id in ReviewIds(d')
      ensures ReviewFits(ReviewNamed(d', d'.sources[i].id), d'.sources[i])
    {
      assert d'.sources[i].id == SourceIds(d')[i] == SourceIds(d)[i] == d.sources[i].id;
      if i == p {
        assert ReviewNamed(d', id) == ReviewNamed(d, id).(transitions := ReviewNamed(d, id).transitions + [t]);
      } else {
        assert SourceIds(d)[i] != SourceIds(d)[p];
        assert ReviewNamed(d', d.sources[i].id) == ReviewNamed(d, d.sources[i].id);
      }
    }
  }

  /** A valid journal holds a sound pair and that pair advanced once, and nothing else is valid. */
  lemma JournalIsOneAdvance(before: Docs, after: Docs, id: string, head: string)
    ensures ValidSnapshots(before, after, id, head)
            <==> && IsFullSha(head) && |id| <= MAX_SOURCE_ID && IsSlug(id)
                 && Sound(before) && id in SourceIds(before)
                 && exists t :: Appendable(before, id, head, t) && after == Advance(before, id, t)
  {
    if ValidSnapshots(before, after, id, head) {
      var t := ValidIsAdvance(before, after, id, head);
    }
    if IsFullSha(head) && |id| <= MAX_SOURCE_ID && IsSlug(id)
       && Sound(before) && id in SourceIds(before) {
      forall t | Appendable(before, id, head, t) && after == Advance(before, id, t)
        ensures ValidSnapshots(before, after, id, head)
      {
        AdvanceIsValid(before, id, head, t);
      }
    }
  }

  lemma LastOfFit(r: Review, s: Source, t: Transition, done: seq<Transition>)
    requires ReviewFits(r, s) && r.transitions == done + [t]
    ensures t.prior == Tip(r.genesis, done) && t.next != t.prior && |done| < MAX_REVIEW_TRANSITIONS
  {
    ChainedConcat(r.genesis, done, [t]);
  }

  lemma ValidIsAdvance(before: Docs, after: Docs, id: string, head: string) returns (t: Transition)
    requires ValidSnapshots(before, after, id, head)
    ensures Appendable(before, id, head, t) && after == Advance(before, id, t)
  {
    var p, q := Position(SourceIds(before), id), Position(ReviewIds(before), id);
    var r, r' := before.reviews[q], after.reviews[q];
    assert before.sources[p].id == SourceIds(before)[p] && r.id == ReviewIds(before)[q];
    assert after.sources[p].id == SourceIds(after)[p];
    var n := |r.transitions|;
    t := r'.transitions[n];
    assert r'.transitions == r.transitions + [t];
    LastOfFit(r', after.sources[p], t, r.transitions);
    SourcesAdvanced(before, after, id, head, t);
    ReviewsAdvanced(before, after, id, head, t);
  }

  lemma SourcesAdvanced(before: Docs, after: Docs, id: string, head: string, t: Transition)
    requires ValidSnapshots(before, after, id, head) && t.next == SourceNamed(after, id).pin
    ensures after.sources == Advance(before, id, t).sources
  {
    var expected := Advance(before, id, t);
    forall i | 0 <= i < |before.sources|
      ensures after.sources[i] == expected.sources[i]
    {
      PositionUnique(SourceIds(before), i);
      assert SourceIds(before)[i] == before.sources[i].id;
    }
  }

  lemma ReviewsAdvanced(before: Docs, after: Docs, id: string, head: string, t: Transition)
    requires ValidSnapshots(before, after, id, head)
    requires ReviewNamed(after, id).transitions == ReviewNamed(before, id).transitions + [t]
    ensures after.reviews == Advance(before, id, t).reviews
  {
    var expected := Advance(before, id, t);
    forall i | 0 <= i < |before.reviews|
      ensures after.reviews[i] == expected.reviews[i]
    {
      PositionUnique(ReviewIds(before), i);
      assert ReviewIds(before)[i] == before.reviews[i].id;
    }
  }

  lemma AdvanceIsValid(before: Docs, id: string, head: string, t: Transition)
    requires IsFullSha(head) && |id| <= MAX_SOURCE_ID && IsSlug(id)
    requires Sound(before) && id in SourceIds(before) && Appendable(before, id, head, t)
    ensures ValidSnapshots(before, Advance(before, id, t), id, head)
  {
    var after := Advance(before, id, t);
    AdvanceKeepsIds(before, id, t);
    AdvanceSound(before, id, head, t);
    var p, q := Position(SourceIds(before), id), Position(ReviewIds(before), id);
    assert before.sources[p].id == SourceIds(before)[p] && before.reviews[q].id == ReviewIds(before)[q];
    forall i | 0 <= i < |before.sources| && before.sources[i].id != id
      ensures before.sources[i] == after.sources[i]
    {
      assert SourceIds(before)[i] == before.sources[i].id;
    }
    forall i | 0 <= i < |before.reviews| && before.reviews[i].id != id
      ensures before.reviews[i] == after.reviews[i]
    {
      assert ReviewIds(before)[i] == before.reviews[i].id;
    }
    assert ReviewFits(before.reviews[q], before.sources[p]);
    var r := before.reviews[q];
    assert (r.transitions + [t])[..|r.transitions|] == r.transitions;
  }

  // ---- the loader and the journal validator compared ----

  function IdSet(ids: seq<string>): set<string> {
    set i | 0 <= i < |ids| :: ids[i]
  }

  lemma {:induction false} DistinctCount(ids: seq<string>)
    requires Distinct(ids)
    ensures |IdSet(ids)| == |ids|
  {
    if ids != [] {
      var n := |ids| - 1;
      DistinctCount(ids[..n]);
      assert IdSet(ids) == IdSet(ids[..n]) + {ids[n]};
      assert ids[n] !in IdSet(ids[..n]);
    }
  }

  lemma SameNamesSameCount(d: Docs)
    requires SameNames(d)
    ensures |d.sources| == |d.reviews|
  {
    DistinctCount(SourceIds(d));
    DistinctCount(ReviewIds(d));
    assert IdSet(SourceIds(d)) == IdSet(ReviewIds(d));
  }

  /** The bounds the loader checks and the journal validator does not. */
  predicate WithinLoaderBounds(d: Docs) {
    && |d.sources| <= MAX_SOURCES
    && forall i :: 0 <= i < |d.sources| ==> |d.sources[i].id| <= MAX_SOURCE_ID
  }

  /** The loader accepts exactly the sound pairs within its own bounds. */
  lemma LoaderAcceptsSound(d: Docs)
    ensures LoaderAccepts(d) <==> Sound(d) && WithinLoaderBounds(d)
  {
    if LoaderAccepts(d) {
      LoadedIsSound(d);
    }
    if Sound(d) && WithinLoaderBounds(d) {
      SoundLoads(d);
    }
  }

  lemma LoadedIsSound(d: Docs)
    requires LoaderAccepts(d)
    ensures Sound(d)
  {
    forall i | 0 <= i < |ReviewIds(d)|
      ensures IsSlug(ReviewIds(d)[i])
      ensures ReviewIds(d)[i] in SourceIds(d)
    {
      assert ReviewLoads(d, i) && d.reviews[i].id == ReviewIds(d)[i];
      var p := Position(SourceIds(d), ReviewIds(d)[i]);
      assert SourceIds(d)[p] == d.sources[p].id;
    }
    forall i | 0 <= i < |d.sources|
      ensures SourceIds(d)[i] in ReviewIds(d)
      ensures ReviewFits(ReviewNamed(d, d.sources[i].id), d.sources[i])
    {
      var id := SourceIds(d)[i];
      var q := Position(ReviewIds(d), id);
      assert ReviewLoads(d, q) && d.reviews[q].id == ReviewIds(d)[q] == id;
      PositionUnique(SourceIds(d), i);
    }
  }

  lemma SoundLoads(d: Docs)
    requires Sound(d) && WithinLoaderBounds(d)
    ensures LoaderAccepts(d)
  {
    SameNamesSameCount(d);
    forall i | 0 <= i < |d.sources|
      ensures IsSlug(d.sources[i].id)
    {
      assert SourceIds(d)[i] == d.sources[i].id;
    }
    forall k | 0 <= k < |d.reviews|
      ensures ReviewLoads(d, k)
    {
      var id := ReviewIds(d)[k];
      var p := Position(SourceIds(d), id);
      assert d.sources[p].id == SourceIds(d)[p] == id;
      PositionUnique(ReviewIds(d), k);
    }
  }

  lemma SameBounds(before: Docs, after: Docs)
    requires SourceIds(before) == SourceIds(after)
    ensures WithinLoaderBounds(before) ==> WithinLoaderBounds(after)
  {
    assert |before.sources| == |SourceIds(before)| == |SourceIds(after)| == |after.sources|;
    assert forall i :: 0 <= i < |before.sources| ==>
        before.sources[i].id == SourceIds(before)[i] == SourceIds(after)[i] == after.sources[i].id;
  }

  lemma ValidIsSound(before: Docs, after: Docs, id: string, head: string)
    requires ValidSnapshots(before, after, id, head)
    ensures Sound(before) && Sound(after) && SourceIds(before) == SourceIds(after)
  {
  }

  /** If a journal is valid, the loader accepts its one side exactly when it accepts the other. */
  lemma JournalSidesLoad(before: Docs, after: Docs, id: string, head: string)
    requires ValidSnapshots(before, after, id, head)
    ensures LoaderAccepts(before) <==> WithinLoaderBounds(before)
    ensures LoaderAccepts(after) <==> WithinLoaderBounds(before)
  {
    ValidIsSound(before, after, id, head);
    LoaderAcceptsSound(before);
    LoaderAcceptsSound(after);
    SameBounds(before, after);
    SameBounds(after, before);
  }

  /** A torn pair, one file from before and the other from after, is never accepted by the loader. */
  lemma TornPairRefused(before: Docs, after: Docs, id: string, head: string)
    requires ValidSnapshots(before, after, id, head)
    ensures !LoaderAccepts(Docs(after.sources, before.reviews))
    ensures !LoaderAccepts(Docs(before.sources, after.reviews))
  {
    var t := ValidIsAdvance(before, after, id, head);
    var p, q := Position(SourceIds(before), id), Position(ReviewIds(before), id);
    assert before.sources[p].id == SourceIds(before)[p];
    assert after.sources[p].id == SourceIds(after)[p];
    assert before.reviews[q].id == ReviewIds(before)[q];
    assert after.reviews[q].id == ReviewIds(after)[q];
    assert ReviewFits(before.reviews[q], before.sources[p]);
    if LoaderAccepts(Docs(after.sources, before.reviews)) {
      LoadedTip(Docs(after.sources, before.reviews), id);
    }
    if LoaderAccepts(Docs(before.sources, after.reviews)) {
      LoadedTip(Docs(before.sources, after.reviews), id);
    }
  }

  lemma LoadedTip(d: Docs, id: string)
    requires LoaderAccepts(d) && id in SourceIds(d) && id in ReviewIds(d)
    ensures Tip(ReviewNamed(d, id).genesis, ReviewNamed(d, id).transitions) == SourceNamed(d, id).pin
  {
    var q := Position(ReviewIds(d), id);
    assert ReviewLoads(d, q) && d.reviews[q].id == ReviewIds(d)[q] == id;
  }

  // ---- append-only history ----

  /** Every review of the earlier ledger is still there, with its transitions as a prefix. */
  predicate LedgerExtends(earlier: seq<Review>, later: seq<Review>) {
    && |earlier| == |later|
    && forall i :: 0 <= i < |earlier| ==>
         && later[i].id == earlier[i].id && later[i].meta == earlier[i].meta
         && later[i].genesis == earlier[i].genesis
         && earlier[i].transitions <= later[i].transitions
  }

  lemma LedgerExtendsTransitive(a: seq<Review>, b: seq<Review>, c: seq<Review>)
    requires LedgerExtends(a, b) && LedgerExtends(b, c)
    ensures LedgerExtends(a, c)
  {
  }

  /** How many transitions all reviews hold together. */
  function TransitionCount(reviews: seq<Review>): nat {
    if reviews == [] then 0
    else TransitionCount(reviews[..|reviews| - 1]) + |reviews[|reviews| - 1].transitions|
  }

  lemma {:induction false} UpdateCount(reviews: seq<Review>, q: nat, r: Review)
    requires q < |reviews|
    ensures TransitionCount(reviews[q := r]) + |reviews[q].transitions|
            == TransitionCount(reviews) + |r.transitions|
  {
    var n := |reviews| - 1;
    if q == n {
      assert reviews[q := r][..n] == reviews[..n];
    } else {
      assert reviews[q := r][..n] == reviews[..n][q := r];
      UpdateCount(reviews[..n], q, r);
    }
  }

  /** A valid journal extends the ledger, by exactly one transition in all. */
  lemma JournalExtends(before: Docs, after: Docs, id: string, head: string)
    requires ValidSnapshots(before, after, id, head)
    ensures LedgerExtends(before.reviews, after.reviews)
    ensures TransitionCount(after.reviews) == TransitionCount(before.reviews) + 1
  {
    var t := ValidIsAdvance(before, after, id, head);
    var q := Position(ReviewIds(before), id);
    UpdateCount(before.reviews, q, after.reviews[q]);
  }

  // ---- the loops of the source ----

  /** One review entry of the ledger against its manifest source. */
  method ParseReviewSource(r: Review, s: Source) returns (ok: bool)
    ensures ok <==> ReviewFits(r, s)
  {
    if r.id != s.id || r.meta != s.meta || !IsIdentity(r.genesis)
       || |r.transitions| > MAX_REVIEW_TRANSITIONS {
      return false;
    }
    ok := CheckChain(r.genesis, r.transitions, s.pin);
  }

  method LoadReviewLedger(d: Docs) returns (ok: bool)
    requires ManifestLoads(d)
    ensures ok <==> LedgerLoads(d)
  {
    if |d.reviews| != |d.sources| {
      return false;
    }
    for k := 0 to |d.reviews|
      invariant forall i :: 0 <= i < k ==> ReviewLoads(d, i)
    {
      assert ReviewIds(d)[k] == d.reviews[k].id;
      if d.reviews[k].id !in SourceIds(d) {
        assert !ReviewLoads(d, k);
        return false;
      }
      var fits := ParseReviewSource(d.reviews[k], SourceNamed(d, d.reviews[k].id));
      if !fits {
        assert !ReviewLoads(d, k);
        return false;
      }
    }
    ok := Distinct(ReviewIds(d)) && Within(SourceIds(d), ReviewIds(d));
  }

  method ValidateTransactionSourceChains(d: Docs) returns (ok: bool)
    requires SameNames(d)
    ensures ok <==> ChainsHold(d)
  {
    for k := 0 to |d.sources|
      invariant forall i :: 0 <= i < k ==> IsIdentity(d.sources[i].pin)
      invariant forall i :: 0 <= i < k ==>
        assert d.sources[i].id == SourceIds(d)[i];
        ReviewFits(ReviewNamed(d, d.sources[i].id), d.sources[i])
    {
      var s := d.sources[k];
      assert s.id == SourceIds(d)[k];
      if !IsIdentity(s.pin) {
        return false;
      }
      var fits := ParseReviewSource(ReviewNamed(d, s.id), s);
      if !fits {
        return false;
      }
    }
    ok := true;
  }

  method ValidateSerializedAcceptSnapshots(before: Docs, after: Docs, id: string, head: string)
    returns (ok: bool)
    ensures ok <==> ValidSnapshots(before, after, id, head)
  {
    if !IsFullSha(head) || |id| > MAX_SOURCE_ID || !IsSlug(id) {
      return false;
    }
    if !SameNames(before) || !SameNames(after) || id !in SourceIds(before)
       || SourceIds(before) != SourceIds(after) || ReviewIds(before) != ReviewIds(after) {
      return false;
    }
    var chained := ValidateTransactionSourceChains(before);
    if !chained {
      return false;
    }
    chained := ValidateTransactionSourceChains(after);
    if !chained {
      return false;
    }
    ok := OthersKept(before, after, id)
          && SelectedAdvances(SourceNamed(before, id), SourceNamed(after, id),
                              ReviewNamed(before, id), ReviewNamed(after, id), head);
  }
}

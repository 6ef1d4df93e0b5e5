/** Printing the bounded-context diff of two blobs: anchors, windows, work budget and hunks. */
module PatchPrinter {
  import opened Wrappers
  import opened Text
  import opened HunkHeader
  import opened UnifiedPatch
  import opened EditScript
  import opened DiffRoundTrip
  import opened DiffExactness
  import opened PatchReplay

  const MAX_DIFF_LINES := 20_000
  const WHOLE_DIFF_LINES := 5_000
  const DIFF_WINDOW_LINES := 128
  const MAX_COMPARE_DIFF_CELLS := 25_000_000

  // ---- anchors ----

  /** A position in both token sequences. */
  datatype Bound = Bound(oldIndex: nat, newIndex: nat)

  function Max(a: int, b: int): int {
    if a > b then a else b
  }

  /** Occurs once in a token sequence. */
  predicate Once(token: Token, tokens: seq<Token>) {
    multiset(tokens)[token] == 1
  }

  /** The last index of a token: what a dictionary filled from the left keeps. */
  function LastIndex(tokens: seq<Token>, token: Token): (k: nat)
    requires token in tokens
    ensures k < |tokens| && tokens[k] == token
    ensures forall i :: k < i < |tokens| ==> tokens[i] != token
  {
    var n := |tokens| - 1;
    if tokens[n] == token then n else LastIndex(tokens[..n], token)
  }

  /** Whether the old token at k starts a new window after the last bound. */
  predicate Anchors(before: seq<Token>, after: seq<Token>, k: nat, last: Bound)
    requires k < |before|
  {
    && Once(before[k], before) && Once(before[k], after)
    && k - last.oldIndex >= DIFF_WINDOW_LINES
    && LastIndex(after, before[k]) - last.newIndex >= DIFF_WINDOW_LINES
  }

  /** The bounds chosen among the first k old tokens. */
  function BoundsUpTo(before: seq<Token>, after: seq<Token>, k: nat): (bounds: seq<Bound>)
    requires k <= |before|
    ensures bounds != []
  {
    if k == 0 then [Bound(0, 0)]
    else
      var bounds := BoundsUpTo(before, after, k - 1);
      if Anchors(before, after, k - 1, bounds[|bounds| - 1])
      then bounds + [Bound(k - 1, LastIndex(after, before[k - 1]))]
      else bounds
  }

  /** All window bounds: only large files are cut at anchors. */
  function Bounds(before: seq<Token>, after: seq<Token>): (bounds: seq<Bound>)
    ensures |bounds| >= 2
  {
    var inner := if Max(|before|, |after|) > WHOLE_DIFF_LINES
                 then BoundsUpTo(before, after, |before|) else [Bound(0, 0)];
    inner + [Bound(|before|, |after|)]
  }

  /** An anchor: one token that occurs once on each side, at the two indices of the bound. */
  predicate IsAnchor(before: seq<Token>, after: seq<Token>, b: Bound) {
    && b.oldIndex < |before| && b.newIndex < |after|
    && before[b.oldIndex] == after[b.newIndex]
    && Once(before[b.oldIndex], before) && Once(after[b.newIndex], after)
  }

  /** Two bounds are a whole window apart on both sides. */
  predicate Apart(a: Bound, b: Bound) {
    && b.oldIndex >= a.oldIndex + DIFF_WINDOW_LINES
    && b.newIndex >= a.newIndex + DIFF_WINDOW_LINES
  }

  lemma {:induction false} BoundsUpToAnchored(before: seq<Token>, after: seq<Token>, k: nat)
    requires k <= |before|
    ensures var bounds := BoundsUpTo(before, after, k);
            && bounds[0] == Bound(0, 0)
            && (forall m :: 0 < m < |bounds| ==> IsAnchor(before, after, bounds[m]))
            && (forall m :: 0 < m < |bounds| ==> Apart(bounds[m - 1], bounds[m]))
  {
    if k > 0 {
      BoundsUpToAnchored(before, after, k - 1);
      var bounds := BoundsUpTo(before, after, k - 1);
      if Anchors(before, after, k - 1, bounds[|bounds| - 1]) {
        assert before[k - 1] in after;
      }
    }
  }

  /**
   * The bounds begin at the start and finish at the end of both sides; in between they are anchors,
   * each a whole window after the bound before it, so they rise strictly on both sides.
   */
  lemma BoundsAreAnchored(before: seq<Token>, after: seq<Token>)
    ensures var bounds := Bounds(before, after);
            var last := |bounds| - 1;
            && bounds[0] == Bound(0, 0) && bounds[last] == Bound(|before|, |after|)
            && (forall m :: 0 < m < last ==> IsAnchor(before, after, bounds[m]))
            && (forall m :: 0 < m < last ==> Apart(bounds[m - 1], bounds[m]))
            && (last > 1 ==> bounds[last - 1].oldIndex < |before| && bounds[last - 1].newIndex < |after|)
  {
    BoundsUpToAnchored(before, after, |before|);
  }

  // ---- every anchor a window away is used ----

  /**
   * The two ends, and in between anchors a whole window apart; and no anchor is passed over: when one is a
   * whole window past a bound on both sides, the next bound comes no later than that anchor.
   */
  ghost predicate CutAtAnchors(before: seq<Token>, after: seq<Token>, bounds: seq<Bound>) {
    && |bounds| >= 2 && bounds[0] == Bound(0, 0) && bounds[|bounds| - 1] == Bound(|before|, |after|)
    && (forall m :: 0 < m < |bounds| - 1 ==> AnchorsAt(before, after, bounds, m))
    && forall m, b :: 0 <= m < |bounds| - 1 && IsAnchor(before, after, b) ==> CutsBy(bounds, m, b)
  }

  /** The m-th bound is an anchor, a whole window after the one before it. */
  predicate AnchorsAt(before: seq<Token>, after: seq<Token>, bounds: seq<Bound>, m: nat)
    requires 0 < m < |bounds|
  {
    IsAnchor(before, after, bounds[m]) && Apart(bounds[m - 1], bounds[m])
  }

  /** If b is a whole window past the m-th bound, there is a next one before the end and it comes no later. */
  predicate CutsBy(bounds: seq<Bound>, m: nat, b: Bound)
    requires m + 1 < |bounds|
  {
    Apart(bounds[m], b) ==> m + 2 < |bounds| && bounds[m + 1].oldIndex <= b.oldIndex
  }

  /** If b is a whole window past the m-th bound, there is a next one and it comes no later. */
  predicate NextComesBy(bounds: seq<Bound>, m: nat, b: Bound)
    requires m < |bounds|
  {
    Apart(bounds[m], b) ==> m + 1 < |bounds| && bounds[m + 1].oldIndex <= b.oldIndex
  }

  lemma TwiceNotOnce(tokens: seq<Token>, i: nat, j: nat)
    requires i < j < |tokens| && tokens[i] == tokens[j]
    ensures !Once(tokens[i], tokens)
  {
    assert tokens == tokens[..j] + tokens[j..];
    assert tokens[..j][i] == tokens[i] && tokens[j..][0] == tokens[i];
  }

  lemma OnceAt(tokens: seq<Token>, i: nat, j: nat)
    requires i < |tokens| && j < |tokens| && tokens[i] == tokens[j] && Once(tokens[i], tokens)
    ensures i == j
  {
    if i < j {
      TwiceNotOnce(tokens, i, j);
    } else if j < i {
      TwiceNotOnce(tokens, j, i);
    }
  }

  lemma AnchorAt(before: seq<Token>, after: seq<Token>, b: Bound)
    requires IsAnchor(before, after, b)
    ensures LastIndex(after, before[b.oldIndex]) == b.newIndex
  {
    OnceAt(after, b.newIndex, LastIndex(after, before[b.oldIndex]));
  }

  /** So far, no anchor was passed over. */
  ghost predicate NonePassed(before: seq<Token>, after: seq<Token>, bounds: seq<Bound>, k: nat) {
    && (forall m :: 0 < m < |bounds| ==> bounds[m].oldIndex < k)
    && forall m, b :: 0 <= m < |bounds| && IsAnchor(before, after, b) && b.oldIndex < k ==> NextComesBy(bounds, m, b)
  }

  lemma NextPassesNone(before: seq<Token>, after: seq<Token>, bounds: seq<Bound>, k: nat)
    requires k < |before| && bounds != [] && NonePassed(before, after, bounds, k)
    ensures var last := bounds[|bounds| - 1];
            if Anchors(before, after, k, last)
            then NonePassed(before, after, bounds + [Bound(k, LastIndex(after, before[k]))], k + 1)
            else NonePassed(before, after, bounds, k + 1)
  {
    var anchors := Anchors(before, after, k, bounds[|bounds| - 1]);
    var longer := if anchors then bounds + [Bound(k, LastIndex(after, before[k]))] else bounds;
    forall m, b | 0 <= m < |longer| && IsAnchor(before, after, b) && b.oldIndex < k + 1
      ensures NextComesBy(longer, m, b)
    {
      if m < |bounds| && b.oldIndex < k {
        assert NextComesBy(bounds, m, b);
      }
      if b.oldIndex == k {
        AnchorAt(before, after, b);
      }
    }
  }

  lemma {:induction false} BoundsUpToPassNone(before: seq<Token>, after: seq<Token>, k: nat)
    requires k <= |before|
    ensures NonePassed(before, after, BoundsUpTo(before, after, k), k)
  {
    if k > 0 {
      BoundsUpToPassNone(before, after, k - 1);
      NextPassesNone(before, after, BoundsUpTo(before, after, k - 1), k - 1);
    }
  }

  /** Up to 5000 lines the files are compared whole; above that they are cut at every anchor a window away. */
  lemma BoundsAreCut(before: seq<Token>, after: seq<Token>)
    ensures |before| <= 5_000 && |after| <= 5_000 ==>
              Bounds(before, after) == [Bound(0, 0), Bound(|before|, |after|)]
    ensures |before| > 5_000 || |after| > 5_000 ==> CutAtAnchors(before, after, Bounds(before, after))
  {
    if |before| > 5_000 || |after| > 5_000 {
      var inner := BoundsUpTo(before, after, |before|);
      BoundsUpToAnchored(before, after, |before|);
      BoundsUpToPassNone(before, after, |before|);
      CutOf(before, after, inner);
    }
  }

  lemma CutOf(before: seq<Token>, after: seq<Token>, inner: seq<Bound>)
    requires inner != [] && inner[0] == Bound(0, 0) && NonePassed(before, after, inner, |before|)
    requires forall m :: 0 < m < |inner| ==> IsAnchor(before, after, inner[m])
    requires forall m :: 0 < m < |inner| ==> Apart(inner[m - 1], inner[m])
    ensures CutAtAnchors(before, after, inner + [Bound(|before|, |after|)])
  {
    var bounds := inner + [Bound(|before|, |after|)];
    forall m, b | 0 <= m < |bounds| - 1 && IsAnchor(before, after, b) ensures CutsBy(bounds, m, b) {
      assert NextComesBy(inner, m, b);
    }
    forall m | 0 < m < |bounds| - 1 ensures AnchorsAt(before, after, bounds, m) {
      assert Apart(inner[m - 1], inner[m]);
    }
  }

  lemma {:induction false} SameBound(before: seq<Token>, after: seq<Token>, x: seq<Bound>, y: seq<Bound>, m: nat)
    requires CutAtAnchors(before, after, x) && CutAtAnchors(before, after, y) && m < |x| - 1
    ensures m < |y| - 1 && x[m] == y[m]
  {
    if m > 0 {
      SameBound(before, after, x, y, m - 1);
      assert AnchorsAt(before, after, x, m);
      assert CutsBy(y, m - 1, x[m]);
      assert AnchorsAt(before, after, y, m);
      assert CutsBy(x, m - 1, y[m]);
      OnceAt(after, x[m].newIndex, y[m].newIndex);
    }
  }

  /** That is one list of bounds only. */
  lemma CutDetermined(before: seq<Token>, after: seq<Token>, x: seq<Bound>, y: seq<Bound>)
    requires CutAtAnchors(before, after, x) && CutAtAnchors(before, after, y)
    ensures x == y
  {
    forall m | 0 <= m < |x| - 1 ensures m < |y| - 1 && x[m] == y[m] {
      SameBound(before, after, x, y, m);
    }
    SameBound(before, after, y, x, |y| - 2);
    SameBound(before, after, x, y, |x| - 2);
  }

  // ---- windows and their scripts ----

  type Differ = (seq<Token>, seq<Token>) -> seq<Group>

  /** difflib is any function that returns a valid grouped script for every pair of sequences. */
  ghost predicate IsDiffer(differ: Differ) {
    forall a: seq<Token>, b: seq<Token> :: ValidScript(differ(a, b), 0, 0, |a|, |b|, a, b)
  }

  predicate Rising(bounds: seq<Bound>, before: seq<Token>, after: seq<Token>) {
    && |bounds| >= 2 && bounds[0] == Bound(0, 0)
    && bounds[|bounds| - 1] == Bound(|before|, |after|)
    && (forall m :: 0 < m < |bounds| ==> bounds[m - 1].oldIndex <= bounds[m].oldIndex
                                         && bounds[m - 1].newIndex <= bounds[m].newIndex)
    && (forall m :: 0 <= m < |bounds| ==> bounds[m].oldIndex <= |before| && bounds[m].newIndex <= |after|)
  }

  lemma BoundsRise(before: seq<Token>, after: seq<Token>)
    ensures Rising(Bounds(before, after), before, after)
  {
    BoundsAreAnchored(before, after);
  }

  function OldWindow(before: seq<Token>, after: seq<Token>, bounds: seq<Bound>, k: nat): seq<Token>
    requires Rising(bounds, before, after) && k + 1 < |bounds|
  {
    assert bounds[k + 1 - 1] == bounds[k];
    before[bounds[k].oldIndex..bounds[k + 1].oldIndex]
  }

  function NewWindow(before: seq<Token>, after: seq<Token>, bounds: seq<Bound>, k: nat): seq<Token>
    requires Rising(bounds, before, after) && k + 1 < |bounds|
  {
    assert bounds[k + 1 - 1] == bounds[k];
    after[bounds[k].newIndex..bounds[k + 1].newIndex]
  }

  /** The groups of one window, shifted to where it lies. */
  function WindowGroups(before: seq<Token>, after: seq<Token>, bounds: seq<Bound>, differ: Differ,
                        k: nat): seq<Group>
    requires Rising(bounds, before, after) && k + 1 < |bounds|
  {
    ShiftScript(differ(OldWindow(before, after, bounds, k), NewWindow(before, after, bounds, k)),
                bounds[k].oldIndex, bounds[k].newIndex)
  }

  function GroupsUpTo(before: seq<Token>, after: seq<Token>, bounds: seq<Bound>, differ: Differ,
                      k: nat): seq<Group>
    requires Rising(bounds, before, after) && k < |bounds|
  {
    if k == 0 then []
    else GroupsUpTo(before, after, bounds, differ, k - 1)
         + WindowGroups(before, after, bounds, differ, k - 1)
  }

  lemma DifferScript(differ: Differ, removed: seq<Token>, added: seq<Token>)
    requires IsDiffer(differ)
    ensures ValidScript(differ(removed, added), 0, 0, |removed|, |added|, removed, added)
  {
  }

  lemma WindowScript(before: seq<Token>, after: seq<Token>, bounds: seq<Bound>, differ: Differ, k: nat)
    requires Rising(bounds, before, after) && IsDiffer(differ) && k + 1 < |bounds|
    ensures ValidScript(WindowGroups(before, after, bounds, differ, k),
                        bounds[k].oldIndex, bounds[k].newIndex,
                        bounds[k + 1].oldIndex, bounds[k + 1].newIndex, before, after)
  {
    var from, to := bounds[k], bounds[k + 1];
    var removed, added := OldWindow(before, after, bounds, k), NewWindow(before, after, bounds, k);
    DifferScript(differ, removed, added);
    ShiftedScript(differ(removed, added), 0, 0, from.oldIndex, from.newIndex,
                  to.oldIndex, to.newIndex, before, after);
  }

  /** The scripts of the windows, shifted and put one after the other, are a script for the files. */
  lemma {:induction false} WindowScriptsJoin(before: seq<Token>, after: seq<Token>, bounds: seq<Bound>,
                                             differ: Differ, k: nat)
    requires Rising(bounds, before, after) && IsDiffer(differ) && k < |bounds|
    ensures ValidScript(GroupsUpTo(before, after, bounds, differ, k), 0, 0,
                        bounds[k].oldIndex, bounds[k].newIndex, before, after)
  {
    if k > 0 {
      WindowScriptsJoin(before, after, bounds, differ, k - 1);
      WindowScript(before, after, bounds, differ, k - 1);
      ScriptsJoin(GroupsUpTo(before, after, bounds, differ, k - 1),
                  WindowGroups(before, after, bounds, differ, k - 1), 0, 0,
                  bounds[k - 1].oldIndex, bounds[k - 1].newIndex,
                  bounds[k].oldIndex, bounds[k].newIndex, before, after);
    }
  }

  // ---- the work budget ----

  /** The cells one window costs. */
  function Cells(bounds: seq<Bound>, k: nat): (cells: nat)
    requires k + 1 < |bounds|
    ensures cells >= 1
  {
    var h, w := Max(1, bounds[k + 1].oldIndex - bounds[k].oldIndex),
                Max(1, bounds[k + 1].newIndex - bounds[k].newIndex);
    assert h * w >= 1 by { Product(h, w); }
    h * w
  }

  lemma Product(a: int, b: int)
    requires a >= 1 && b >= 1
    ensures a * b >= 1
  {
    assert a * b == (a - 1) * b + b;
    assert (a - 1) * b >= 0;
  }

  function CellsUpTo(bounds: seq<Bound>, k: nat): nat
    requires k < |bounds|
  {
    if k == 0 then 0 else CellsUpTo(bounds, k - 1) + Cells(bounds, k - 1)
  }

  lemma {:induction false} CellsGrow(bounds: seq<Bound>, k: nat, n: nat)
    requires k <= n < |bounds|
    ensures CellsUpTo(bounds, k) + (n - k) <= CellsUpTo(bounds, n)
  {
    if k < n {
      CellsGrow(bounds, k, n - 1);
    }
  }

  /** A window costs the product of the numbers of lines given to the differ, an empty side counting as one. */
  lemma WindowCost(before: seq<Token>, after: seq<Token>, bounds: seq<Bound>, k: nat)
    requires Rising(bounds, before, after) && k + 1 < |bounds|
    ensures var removed, added := |OldWindow(before, after, bounds, k)|, |NewWindow(before, after, bounds, k)|;
            Cells(bounds, k) == (if removed == 0 then 1 else removed) * (if added == 0 then 1 else added)
  {
  }

  // ---- what a large file costs ----

  /** Anchors come in the same order on both sides. */
  ghost predicate NotCrossing(before: seq<Token>, after: seq<Token>) {
    forall a, b :: IsAnchor(before, after, a) && IsAnchor(before, after, b) && a.oldIndex <= b.oldIndex ==>
      a.newIndex <= b.newIndex
  }

  /** From the start, or from an anchor, there is another within width lines, a whole window away, if so much is left. */
  ghost predicate Dense(before: seq<Token>, after: seq<Token>, width: nat) {
    && NotCrossing(before, after)
    && forall a: Bound ::
         && (a == Bound(0, 0) || IsAnchor(before, after, a))
         && (|before| > a.oldIndex + width || |after| > a.newIndex + width) ==>
           exists b :: IsAnchor(before, after, b) && Apart(a, b) && Within(a, b, width)
  }

  predicate Within(a: Bound, b: Bound, width: nat) {
    b.oldIndex <= a.oldIndex + width && b.newIndex <= a.newIndex + width
  }

  lemma NextWithin(before: seq<Token>, after: seq<Token>, bounds: seq<Bound>, width: nat, m: nat)
    requires CutAtAnchors(before, after, bounds) && Dense(before, after, width) && m + 1 < |bounds|
    ensures Within(bounds[m], bounds[m + 1], width)
  {
    var a, x := bounds[m], bounds[m + 1];
    assert m > 0 ==> AnchorsAt(before, after, bounds, m);
    assert m + 2 < |bounds| ==> AnchorsAt(before, after, bounds, m + 1);
    if |before| > a.oldIndex + width || |after| > a.newIndex + width {
      var b := AnchorWithin(before, after, width, a);
      assert CutsBy(bounds, m, b);
      InOrder(before, after, x, b);
    }
  }

  lemma AnchorWithin(before: seq<Token>, after: seq<Token>, width: nat, a: Bound) returns (b: Bound)
    requires Dense(before, after, width) && (a == Bound(0, 0) || IsAnchor(before, after, a))
    requires |before| > a.oldIndex + width || |after| > a.newIndex + width
    ensures IsAnchor(before, after, b) && Apart(a, b) && Within(a, b, width)
  {
    b :| IsAnchor(before, after, b) && Apart(a, b) && Within(a, b, width);
  }

  lemma InOrder(before: seq<Token>, after: seq<Token>, a: Bound, b: Bound)
    requires NotCrossing(before, after) && IsAnchor(before, after, a) && IsAnchor(before, after, b)
    requires a.oldIndex <= b.oldIndex
    ensures a.newIndex <= b.newIndex
  {
  }

  lemma {:induction false} BoundsSpread(before: seq<Token>, after: seq<Token>, bounds: seq<Bound>, m: nat)
    requires CutAtAnchors(before, after, bounds) && m < |bounds| - 1
    ensures DIFF_WINDOW_LINES * m <= bounds[m].oldIndex
  {
    if m > 0 {
      BoundsSpread(before, after, bounds, m - 1);
      assert AnchorsAt(before, after, bounds, m);
    }
  }

  lemma ProductAtMost(a: nat, b: nat, c: nat)
    requires a <= c && b <= c
    ensures a * b <= c * c
  {
    assert a * b <= c * b && c * b <= c * c;
  }

  lemma CellsWithin(bounds: seq<Bound>, k: nat, width: nat)
    requires k + 1 < |bounds| && width >= 1 && Within(bounds[k], bounds[k + 1], width)
    ensures Cells(bounds, k) <= width * width
  {
    ProductAtMost(Max(1, bounds[k + 1].oldIndex - bounds[k].oldIndex), Max(1, bounds[k + 1].newIndex - bounds[k].newIndex),
                  width);
  }

  ghost predicate EachAtMost(bounds: seq<Bound>, area: nat) {
    forall j :: 0 <= j && j + 1 < |bounds| ==> Cells(bounds, j) <= area
  }

  lemma {:induction false} CellsAtMost(bounds: seq<Bound>, area: nat, k: nat)
    requires k < |bounds| && EachAtMost(bounds, area)
    ensures CellsUpTo(bounds, k) <= k * area
  {
    if k > 0 {
      CellsAtMost(bounds, area, k - 1);
      assert Cells(bounds, k - 1) <= area;
      OneMore(k, area);
    }
  }

  lemma OneMore(k: nat, c: nat)
    requires k > 0
    ensures (k - 1) * c + c == k * c
  {
  }

  /** Large files with an anchor in every window cost at most the area of such a window for every 128 lines. */
  lemma DenseCost(before: seq<Token>, after: seq<Token>, width: nat, area: nat)
    requires (|before| > 5_000 || |after| > 5_000) && width >= 1 && area == width * width
    requires Dense(before, after, width)
    ensures var bounds := Bounds(before, after); CellsUpTo(bounds, |bounds| - 1) <= (|before| / 128 + 1) * area
  {
    BoundsAreCut(before, after);
    CutCost(before, after, Bounds(before, after), width, area);
  }

  lemma CutCost(before: seq<Token>, after: seq<Token>, bounds: seq<Bound>, width: nat, area: nat)
    requires CutAtAnchors(before, after, bounds) && Dense(before, after, width) && width >= 1 && area == width * width
    ensures CellsUpTo(bounds, |bounds| - 1) <= (|before| / 128 + 1) * area
  {
    WindowsArea(before, after, bounds, width, area);
    WindowsAtMost(before, after, bounds);
    CountedCost(bounds, area, |before| / 128 + 1);
  }

  lemma CountedCost(bounds: seq<Bound>, area: nat, count: nat)
    requires EachAtMost(bounds, area) && 0 < |bounds| <= count + 1
    ensures CellsUpTo(bounds, |bounds| - 1) <= count * area
  {
    CellsAtMost(bounds, area, |bounds| - 1);
    Scaled(|bounds| - 1, count, area);
  }

  lemma WindowsArea(before: seq<Token>, after: seq<Token>, bounds: seq<Bound>, width: nat, area: nat)
    requires CutAtAnchors(before, after, bounds) && Dense(before, after, width) && width >= 1 && area == width * width
    ensures EachAtMost(bounds, area)
  {
    forall j | 0 <= j && j + 1 < |bounds| ensures Cells(bounds, j) <= area {
      WindowAtMost(before, after, bounds, width, j);
    }
  }

  lemma WindowAtMost(before: seq<Token>, after: seq<Token>, bounds: seq<Bound>, width: nat, j: nat)
    requires CutAtAnchors(before, after, bounds) && Dense(before, after, width) && width >= 1 && j + 1 < |bounds|
    ensures Cells(bounds, j) <= width * width
  {
    NextWithin(before, after, bounds, width, j);
    CellsWithin(bounds, j, width);
  }

  lemma WindowsAtMost(before: seq<Token>, after: seq<Token>, bounds: seq<Bound>)
    requires CutAtAnchors(before, after, bounds)
    ensures |bounds| - 1 <= |before| / 128 + 1
  {
    BoundsSpread(before, after, bounds, |bounds| - 2);
    if |bounds| > 2 {
      assert AnchorsAt(before, after, bounds, |bounds| - 2);
    }
  }

  lemma Scaled(a: nat, b: nat, c: nat)
    requires a <= b
    ensures a * c <= b * c
  {
  }

  /** As many lines on both sides, none twice, and all the same but for one. */
  ghost predicate OneLineChanged(before: seq<Token>, after: seq<Token>, c: nat) {
    && |before| == |after| && c < |before|
    && (forall i, j :: 0 <= i < j < |before| ==> before[i] != before[j])
    && (forall i, j :: 0 <= i < j < |after| ==> after[i] != after[j])
    && (forall i :: 0 <= i < |before| && i != c ==> before[i] == after[i])
    && before[c] != after[c]
  }

  lemma {:induction false} DistinctOnce(tokens: seq<Token>, i: nat)
    requires i < |tokens| && forall i, j :: 0 <= i < j < |tokens| ==> tokens[i] != tokens[j]
    ensures Once(tokens[i], tokens)
  {
    var t := tokens[i];
    assert tokens == tokens[..i] + ([t] + tokens[i + 1..]);
    assert t !in tokens[..i] && t !in tokens[i + 1..];
    assert multiset(tokens) == multiset(tokens[..i]) + (multiset([t]) + multiset(tokens[i + 1..]));
  }

  lemma ChangedMatch(before: seq<Token>, after: seq<Token>, c: nat, i: nat, j: nat)
    requires OneLineChanged(before, after, c) && i < |before| && j < |before|
    ensures before[i] == after[j] <==> i == j && i != c
  {
    assert i != c ==> before[i] == after[i];
    assert j != c ==> before[j] == after[j];
  }

  lemma ChangedAnchors(before: seq<Token>, after: seq<Token>, c: nat, b: Bound)
    requires OneLineChanged(before, after, c)
    ensures IsAnchor(before, after, b) <==> b.oldIndex == b.newIndex < |before| && b.oldIndex != c
  {
    if b.oldIndex < |before| && b.newIndex < |after| {
      DistinctOnce(before, b.oldIndex);
      DistinctOnce(after, b.newIndex);
      ChangedMatch(before, after, c, b.oldIndex, b.newIndex);
    }
  }

  lemma ChangedDense(before: seq<Token>, after: seq<Token>, c: nat)
    requires OneLineChanged(before, after, c)
    ensures Dense(before, after, 129)
  {
    forall a, b | IsAnchor(before, after, a) && IsAnchor(before, after, b) && a.oldIndex <= b.oldIndex
      ensures a.newIndex <= b.newIndex
    {
      ChangedAnchors(before, after, c, a);
      ChangedAnchors(before, after, c, b);
    }
    forall a: Bound | (a == Bound(0, 0) || IsAnchor(before, after, a))
                      && (|before| > a.oldIndex + 129 || |after| > a.newIndex + 129)
      ensures exists b :: IsAnchor(before, after, b) && Apart(a, b) && Within(a, b, 129)
    {
      ChangedAnchors(before, after, c, a);
      var k := if a.oldIndex + 128 == c then a.oldIndex + 129 else a.oldIndex + 128;
      ChangedAnchors(before, after, c, Bound(k, k));
      assert Apart(a, Bound(k, k)) && Within(a, Bound(k, k), 129);
    }
  }

  /** One changed line among distinct ones is always within the budget of a fresh counter, at any length the printer takes. */
  lemma OneLineChangeFits(before: seq<Token>, after: seq<Token>, c: nat)
    requires OneLineChanged(before, after, c) && |before| <= MAX_DIFF_LINES
    ensures var bounds := Bounds(before, after); CellsUpTo(bounds, |bounds| - 1) <= MAX_COMPARE_DIFF_CELLS
  {
    var bounds, n := Bounds(before, after), |before|;
    BoundsAreCut(before, after);
    if n > 5_000 {
      ChangedDense(before, after, c);
      DenseCost(before, after, 129, 16_641);
      assert n / 128 + 1 <= 157;
      Scaled(n / 128 + 1, 157, 16_641);
    } else {
      assert CellsUpTo(bounds, 1) == CellsUpTo(bounds, 0) + Cells(bounds, 0);
      ProductAtMost(Max(1, n), Max(1, n), 5_000);
    }
  }

  // ---- printing the hunks ----

  datatype Printed = Printed(patch: string, additions: nat, deletions: nat)

  function PrintedFor(chunks: seq<Chunk>): Printed
    requires AllOrdered(chunks)
  {
    Printed(RenderPatch(chunks), ShownInAll(chunks, '+'), ShownInAll(chunks, '-'))
  }

  /** What the printer holds: the lines so far and its two counts. */
  datatype Tally = Tally(rendered: seq<string>, additions: nat, deletions: nat)

  function Show(t: Tally, events: seq<Event>): Tally {
    Tally(t.rendered + EventLines(events), t.additions + Shown(events, '+'),
          t.deletions + Shown(events, '-'))
  }

  lemma ShowNothing(t: Tally)
    ensures Show(t, []) == t
  {
    assert t.rendered + [] == t.rendered;
  }

  lemma ShowMore(t: Tally, a: seq<Event>, b: seq<Event>)
    ensures Show(Show(t, a), b) == Show(t, a + b)
  {
    EventLinesConcat(a, b);
    ShownConcat(a, b, '+');
    ShownConcat(a, b, '-');
    assert t.rendered + EventLines(a) + EventLines(b) == t.rendered + (EventLines(a) + EventLines(b));
  }

  /** append_line and the count beside it. */
  function ShowOne(t: Tally, e: Event): Tally {
    var line := t.rendered + [[e.prefix] + e.token.line];
    Tally(if e.token.newline then line else line + [NO_NEWLINE],
          t.additions + (if e.prefix == '+' then 1 else 0),
          t.deletions + (if e.prefix == '-' then 1 else 0))
  }

  lemma ShowOneShows(t: Tally, e: Event)
    ensures ShowOne(t, e) == Show(t, [e])
  {
    assert [e][1..] == [];
    assert EventLines([e]) == TokenLines(e) + EventLines([]) == TokenLines(e);
    assert ShowOne(t, e).rendered == t.rendered + TokenLines(e);
    assert Shown([e], '+') == (if e.prefix == '+' then 1 else 0) + Shown([], '+');
    assert Shown([e], '-') == (if e.prefix == '-' then 1 else 0) + Shown([], '-');
  }

  method AppendTokens(t: Tally, prefix: char, tokens: seq<Token>) returns (r: Tally)
    ensures r == Show(t, Events(prefix, tokens))
  {
    r := t;
    assert Events(prefix, tokens[..0]) == [];
    ShowNothing(t);
    for k := 0 to |tokens|
      invariant r == Show(t, Events(prefix, tokens[..k]))
    {
      var e := Event(prefix, tokens[k]);
      ShowMore(t, Events(prefix, tokens[..k]), [e]);
      assert Events(prefix, tokens[..k + 1]) == Events(prefix, tokens[..k]) + [e];
      ShowOneShows(r, e);
      r := ShowOne(r, e);
    }
    assert tokens[..|tokens|] == tokens;
  }

  method AppendOp(t: Tally, op: Op, before: seq<Token>, after: seq<Token>) returns (r: Tally)
    requires ValidOp(op, before, after)
    ensures r == Show(t, OpEvents(op, before, after))
  {
    var removed, added := before[op.oldFirst..op.oldLast], after[op.newFirst..op.newLast];
    if op.kind == Equal {
      r := AppendTokens(t, ' ', removed);
      return;
    }
    r := t;
    ghost var first, second: seq<Event> := [], [];
    ShowNothing(t);
    if op.kind == Replace || op.kind == Delete {
      first := Events('-', removed);
      r := AppendTokens(r, '-', removed);
    }
    ShowNothing(r);
    if op.kind == Replace || op.kind == Insert {
      second := Events('+', added);
      r := AppendTokens(r, '+', added);
    }
    ShowMore(t, first, second);
    assert OpEvents(op, before, after) == first + second;
  }

  /** After k operations done is shown and the rest of all is still to come, from (i, j) on. */
  ghost predicate Resumes(g: Group, k: nat, i: nat, j: nat, done: seq<Event>, all: seq<Event>,
                          before: seq<Token>, after: seq<Token>)
    requires g != []
  {
    && k <= |g|
    && ValidOps(g[k..], i, j, OldStop(g), NewStop(g), before, after)
    && all == done + OpsEvents(g[k..], i, j, OldStop(g), NewStop(g), before, after)
  }

  lemma ResumesNext(g: Group, k: nat, i: nat, j: nat, done: seq<Event>, all: seq<Event>,
                    before: seq<Token>, after: seq<Token>)
    requires k < |g| && Resumes(g, k, i, j, done, all, before, after)
    ensures ValidOp(g[k], before, after)
    ensures Resumes(g, k + 1, g[k].oldLast, g[k].newLast, done + OpEvents(g[k], before, after), all,
                    before, after)
  {
    assert g[k..][1..] == g[k + 1..] && g[k..][0] == g[k];
    var events := OpEvents(g[k], before, after);
    var rest := OpsEvents(g[k + 1..], g[k].oldLast, g[k].newLast, OldStop(g), NewStop(g), before, after);
    assert done + (events + rest) == done + events + rest;
  }

  /** All operations of one group, in order. */
  method AppendGroup(t: Tally, g: Group, before: seq<Token>, after: seq<Token>) returns (r: Tally)
    requires ValidGroup(g, before, after)
    ensures r == Show(t, GroupChunk(g, before, after).events)
  {
    r := t;
    ghost var all := GroupChunk(g, before, after).events;
    ghost var done: seq<Event>, i, j := [], g[0].oldFirst, g[0].newFirst;
    assert g[0..] == g;
    ShowNothing(t);
    for k := 0 to |g|
      invariant Resumes(g, k, i, j, done, all, before, after)
      invariant r == Show(t, done)
    {
      ResumesNext(g, k, i, j, done, all, before, after);
      r := AppendOp(r, g[k], before, after);
      ShowMore(t, done, OpEvents(g[k], before, after));
      done, i, j := done + OpEvents(g[k], before, after), g[k].oldLast, g[k].newLast;
    }
    assert done + [] == done;
  }

  /** What the printer holds after some chunks. */
  function TallyOf(chunks: seq<Chunk>): Tally
    requires AllOrdered(chunks)
  {
    Tally(ChunksLines(chunks), ShownInAll(chunks, '+'), ShownInAll(chunks, '-'))
  }

  /** What one more chunk adds to it: its header and its events. */
  function ShowChunk(t: Tally, c: Chunk): Tally
    requires Ordered(c)
  {
    Show(t.(rendered := t.rendered + [HeaderLine(c)]), c.events)
  }

  lemma TallySnoc(chunks: seq<Chunk>, c: Chunk)
    requires AllOrdered(chunks) && Ordered(c)
    ensures TallyOf(chunks + [c]) == ShowChunk(TallyOf(chunks), c)
  {
    ChunksSnoc(chunks, c, '+');
    ChunksSnoc(chunks, c, '-');
    LinesOfChunk(ChunksLines(chunks), c);
  }

  lemma LinesOfChunk(lines: seq<string>, c: Chunk)
    requires Ordered(c)
    ensures lines + ChunkLines(c) == lines + [HeaderLine(c)] + EventLines(c.events)
  {
    assert lines + ([HeaderLine(c)] + EventLines(c.events)) == lines + [HeaderLine(c)] + EventLines(c.events);
  }

  lemma TallyNext(chunks: seq<Chunk>, k: nat)
    requires AllOrdered(chunks) && k < |chunks|
    ensures TallyOf(chunks[..k + 1]) == ShowChunk(TallyOf(chunks[..k]), chunks[k])
  {
    TallySnoc(chunks[..k], chunks[k]);
    assert chunks[..k + 1] == chunks[..k] + [chunks[k]];
  }

  /** The header and the body of every group. */
  method RenderGroups(groups: seq<Group>, before: seq<Token>, after: seq<Token>) returns (p: Printed)
    requires AllValid(groups, before, after)
    requires AllOrdered(Chunks(groups, before, after))
    ensures p == PrintedFor(Chunks(groups, before, after))
  {
    var t := Tally([], 0, 0);
    ghost var chunks := Chunks(groups, before, after);
    for k := 0 to |groups|
      invariant t == TallyOf(chunks[..k])
    {
      var g := groups[k];
      TallyNext(chunks, k);
      var header := RenderHeader(g[0].oldFirst, OldStop(g), g[0].newFirst, NewStop(g));
      t := AppendGroup(t.(rendered := t.rendered + [header]), g, before, after);
    }
    assert chunks[..|groups|] == chunks;
    p := Printed(Join(t.rendered, '\n'), t.additions, t.deletions);
  }

  // ---- the whole print ----

  predicate Diffable(oldText: string, newText: string) {
    && Plain(oldText) && Plain(newText)
    && |TextLines(oldText).lines| <= MAX_DIFF_LINES && |TextLines(newText).lines| <= MAX_DIFF_LINES
  }

  /** Neither NUL nor carriage return, and at most 20000 lines. */
  predicate Reviewable(text: string) {
    '\U{00}' !in text && '\r' !in text && |TextLines(text).lines| <= 20_000
  }

  /** The groups of all windows. */
  function AllGroups(before: seq<Token>, after: seq<Token>, differ: Differ): seq<Group>
  {
    BoundsRise(before, after);
    GroupsUpTo(before, after, Bounds(before, after), differ, |Bounds(before, after)| - 1)
  }

  lemma AllGroupsValid(before: seq<Token>, after: seq<Token>, differ: Differ)
    requires IsDiffer(differ)
    ensures var groups := AllGroups(before, after, differ);
            && ValidScript(groups, 0, 0, |before|, |after|, before, after)
            && AllValid(groups, before, after)
            && AllOrdered(Chunks(groups, before, after))
  {
    var bounds, groups := Bounds(before, after), AllGroups(before, after, differ);
    BoundsRise(before, after);
    WindowScriptsJoin(before, after, bounds, differ, |bounds| - 1);
    ScriptGroupsValid(groups, 0, 0, |before|, |after|, before, after);
    ScriptChunksValid(groups, 0, 0, |before|, |after|, before, after);
    ValidChunksFit(Chunks(groups, before, after), 0, 0, |before|, |after|, before, after);
  }

  /** Cells that comparing two texts costs in all. */
  function TotalCells(oldText: string, newText: string): nat {
    var bounds := Bounds(Tokens(TextLines(oldText)), Tokens(TextLines(newText)));
    CellsUpTo(bounds, |bounds| - 1)
  }

  /** The work counter that all files of one comparison share. */
  class WorkCells {
    var cells: nat

    constructor ()
      ensures cells == 0
    {
      cells := 0;
    }
  }

  method AnchorBounds(before: seq<Token>, after: seq<Token>) returns (bounds: seq<Bound>)
    ensures bounds == Bounds(before, after)
  {
    bounds := [Bound(0, 0)];
    if Max(|before|, |after|) > WHOLE_DIFF_LINES {
      var oldCounts, newCounts := multiset(before), multiset(after);
      var newPositions: map<Token, nat> := NewPositions(after);
      for k := 0 to |before|
        invariant bounds == BoundsUpTo(before, after, k)
      {
        var token := before[k];
        if oldCounts[token] == 1 && newCounts[token] == 1 {
          assert token in after;
          var newIndex, last := newPositions[token], bounds[|bounds| - 1];
          if k - last.oldIndex >= DIFF_WINDOW_LINES && newIndex - last.newIndex >= DIFF_WINDOW_LINES {
            bounds := bounds + [Bound(k, newIndex)];
          }
        }
      }
    }
    bounds := bounds + [Bound(|before|, |after|)];
  }

  method NewPositions(after: seq<Token>) returns (positions: map<Token, nat>)
    ensures forall t :: t in positions <==> t in after
    ensures forall t :: t in after ==> positions[t] == LastIndex(after, t)
  {
    positions := map[];
    for k := 0 to |after|
      invariant forall t :: t in positions <==> t in after[..k]
      invariant forall t :: t in after[..k] ==> positions[t] == LastIndex(after[..k], t)
    {
      positions := positions[after[k] := k];
      assert after[..k + 1][..k] == after[..k];
      assert forall t :: t in after[..k + 1] <==> t in after[..k] || t == after[k];
    }
    assert after[..|after|] == after;
  }

  /**
   * Prints the diff of two blobs. It charges the shared counter window by window and refuses when
   * the sum does not fit; otherwise the patch is that of the joined window scripts.
   */
  method CompleteUnifiedPatch(oldText: string, newText: string, work: WorkCells, differ: Differ)
    returns (r: Option<Printed>)
    requires IsDiffer(differ) && work.cells <= MAX_COMPARE_DIFF_CELLS
    modifies work
    ensures old(work.cells) <= work.cells <= MAX_COMPARE_DIFF_CELLS
    ensures r.Some? ==> work.cells == old(work.cells) + TotalCells(oldText, newText)
    ensures Diffable(oldText, newText) <==> Reviewable(oldText) && Reviewable(newText)
    ensures var before, after := Tokens(TextLines(oldText)), Tokens(TextLines(newText));
            var groups := AllGroups(before, after, differ);
            && (r.Some? <==> Diffable(oldText, newText) && groups != []
                             && old(work.cells) + TotalCells(oldText, newText) <= MAX_COMPARE_DIFF_CELLS)
            && (r.Some? ==> AllValid(groups, before, after)
                            && AllOrdered(Chunks(groups, before, after))
                            && r.value == PrintedFor(Chunks(groups, before, after)))
  {
    if !Plain(oldText) || !Plain(newText) {
      return None;
    }
    var oldLines, newLines := TextLines(oldText), TextLines(newText);
    if |oldLines.lines| > MAX_DIFF_LINES || |newLines.lines| > MAX_DIFF_LINES {
      return None;
    }
    var before, after := Tokens(oldLines), Tokens(newLines);
    var bounds := AnchorBounds(before, after);
    BoundsRise(before, after);
    var groups, paid := ChargeWindows(before, after, bounds, work, differ);
    if !paid || groups == [] {
      return None;
    }
    AllGroupsValid(before, after, differ);
    var p := RenderGroups(groups, before, after);
    r := Some(p);
  }

  method ChargeWindows(before: seq<Token>, after: seq<Token>, bounds: seq<Bound>, work: WorkCells,
                       differ: Differ)
    returns (groups: seq<Group>, paid: bool)
    requires Rising(bounds, before, after) && work.cells <= MAX_COMPARE_DIFF_CELLS
    modifies work
    ensures old(work.cells) <= work.cells <= MAX_COMPARE_DIFF_CELLS
    ensures paid <==> old(work.cells) + CellsUpTo(bounds, |bounds| - 1) <= MAX_COMPARE_DIFF_CELLS
    ensures paid ==> work.cells == old(work.cells) + CellsUpTo(bounds, |bounds| - 1)
                     && groups == GroupsUpTo(before, after, bounds, differ, |bounds| - 1)
  {
    groups := [];
    for k := 0 to |bounds| - 1
      invariant work.cells == old(work.cells) + CellsUpTo(bounds, k) <= MAX_COMPARE_DIFF_CELLS
      invariant groups == GroupsUpTo(before, after, bounds, differ, k)
    {
      var comparisonCells := Cells(bounds, k);
      CellsGrow(bounds, k + 1, |bounds| - 1);
      if comparisonCells > MAX_COMPARE_DIFF_CELLS - work.cells {
        return groups, false;
      }
      work.cells := work.cells + comparisonCells;
      groups := groups + WindowGroups(before, after, bounds, differ, k);
    }
    paid := true;
  }

  lemma TwoEventLines(a: Event, b: Event)
    ensures EventLines([a, b]) == TokenLines(a) + TokenLines(b)
  {
    assert [a, b][1..] == [b] && [b][1..] == [];
    assert EventLines([b]) == TokenLines(b) + EventLines([]);
    assert EventLines([a, b]) == TokenLines(a) + EventLines([b]);
  }

  lemma FirstHeader()
    ensures RenderHeader(0, 1, 0, 1) == "@@ -1 +1 @@ source-tree-exact"
  {
    HeaderSpelledOut(0, 1, 0, 1);
    assert Decimal(1) == "1";
    assert "@@ -" + "1" + " +" + "1" + " @@ source-tree-exact" == "@@ -1 +1 @@ source-tree-exact";
  }

  lemma ChangedChunk(old': Token, new': Token)
    ensures var before, after, g := [old'], [new'], [Op(Replace, 0, 1, 0, 1)];
            && ValidGroup(g, before, after)
            && GroupChunk(g, before, after) == Chunk(0, 1, 0, 1, [Event('-', old'), Event('+', new')])
  {
    var before, after, g := [old'], [new'], [Op(Replace, 0, 1, 0, 1)];
    var events := [Event('-', old'), Event('+', new')];
    assert before[0..1] == before && after[0..1] == after && g[1..] == [];
    assert Events('-', before) == [Event('-', old')] && Events('+', after) == [Event('+', new')];
    assert OpEvents(g[0], before, after) == events;
    assert OpsEvents(g[1..], 1, 1, 1, 1, before, after) == [];
    assert OpsEvents(g, 0, 0, 1, 1, before, after) == events + [] == events;
  }

  /** A changed line, spelled out: the header, the old line, then the new one, here without a newline at its end. */
  lemma ChangedLinePrinted(line: string, other: string)
    ensures var before, after := [Token(line, true)], [Token(other, false)];
            var g := [Op(Replace, 0, 1, 0, 1)];
            && ValidGroup(g, before, after) && Ordered(GroupChunk(g, before, after))
            && ChunkLines(GroupChunk(g, before, after))
               == ["@@ -1 +1 @@ source-tree-exact", "-" + line, "+" + other, "\\ No newline at end of file"]
  {
    var a, b := Event('-', Token(line, true)), Event('+', Token(other, false));
    ChangedChunk(Token(line, true), Token(other, false));
    FirstHeader();
    TwoEventLines(a, b);
    assert TokenLines(a) == ["-" + line] + [] && TokenLines(b) == ["+" + other] + [NO_NEWLINE];
  }

  /** A printed patch replays to the new text exactly when no line it shows holds a line boundary. */
  lemma PrintedRoundTrip(oldText: string, newText: string, differ: Differ)
    requires IsDiffer(differ) && Diffable(oldText, newText) && oldText != newText
    ensures var before, after := Tokens(TextLines(oldText)), Tokens(TextLines(newText));
            var groups := AllGroups(before, after, differ);
            && groups != [] && AllValid(groups, before, after)
            && var chunks := Chunks(groups, before, after);
               && AllOrdered(chunks)
               && var p := PrintedFor(chunks);
                  Patched(oldText, p.patch, p.additions, p.deletions) == Some(newText)
                  <==> Clean(chunks) && Utf8Size(newText) <= MAX_TEXT_BLOB_BYTES
  {
    var before, after := Tokens(TextLines(oldText)), Tokens(TextLines(newText));
    var groups := AllGroups(before, after, differ);
    AllGroupsValid(before, after, differ);
    DifferencePrintsHunk(oldText, newText, groups);
    RoundTripExactly(oldText, newText, groups);
  }
}

/** Setup as it runs: the result lists, the receipt, and the two passes over the plan. */
module BootstrapRun {
  import opened Wrappers
  import opened Bootstrap
  import Gitignore

  const DISCOVERY: Path := [".pkstack", "discovery.json"]

  /** The result's lists of paths. */
  datatype Report = Report(created: seq<Path>, updated: seq<Path>, pending: seq<Path>, stale: set<Path>,
                           settled: seq<Path>, preserved: seq<Path>, conflicts: seq<Path>) {
    predicate Ok() {
      conflicts == [] && pending == [] && stale == {}
    }
  }

  const NO_REPORT := Report([], [], [], {}, [], [], [])

  function Filed(r: Report, path: Path, v: Verdict): Report {
    match v
    case Blocked(parent) => if parent in r.conflicts then r else r.(conflicts := r.conflicts + [parent])
    case NotFile => r.(conflicts := r.conflicts + [path])
    case Conflict => r.(conflicts := r.conflicts + [path])
    case Pending => r.(pending := r.pending + [path])
    case Preserved => r.(preserved := r.preserved + [path])
    case Unchanged => r.(settled := r.settled + [path])
    case Created => r.(created := r.created + [path])
    case Updated => r.(updated := r.updated + [path])
  }

  /** What a pass changes: the workspace, its lists, and the hashes for the receipt. */
  datatype Pass = Pass(tree: Tree, report: Report, managed: Hashes)

  /** How the pass treats a plan: the hash, the old receipt, and the two flags. */
  datatype Mode = Mode(hash: Bytes -> string, previous: Hashes, update: bool, dryRun: bool)

  function Step(m: Mode, s: Pass, op: Op): Pass {
    var v := Judge(m.hash, s.tree, op, m.previous, m.update);
    Pass(if m.dryRun then s.tree else Apply(s.tree, op, v),
         Filed(s.report, op.path, v),
         Managed(m.hash, s.tree, op, v, m.previous, s.managed))
  }

  function Steps(m: Mode, s: Pass, ops: seq<Op>): Pass
    decreases |ops|
  {
    if ops == [] then s else Steps(m, Step(m, s, ops[0]), ops[1..])
  }

  function FiledAll(r: Report, ops: seq<Op>, vs: seq<Verdict>): Report
    requires |ops| == |vs|
    decreases |ops|
  {
    if ops == [] then r else FiledAll(Filed(r, ops[0].path, vs[0]), ops[1..], vs[1..])
  }

  // ---- what a pass computes ----

  /** A dry pass files the preview's verdicts, a real one the outcome's, over the final tree. */
  lemma {:induction false} StepsAre(m: Mode, s: Pass, ops: seq<Op>)
    ensures var after := Steps(m, s, ops);
            var vs := if m.dryRun then Preview(m.hash, s.tree, ops, m.previous, m.update)
                      else Outcome(m.hash, s.tree, ops, m.previous, m.update);
            && after.tree == (if m.dryRun then s.tree else Final(m.hash, s.tree, ops, m.previous, m.update))
            && after.report == FiledAll(s.report, ops, vs)
    decreases |ops|
  {
    if ops != [] {
      StepsAre(m, Step(m, s, ops[0]), ops[1..]);
    }
  }

  /** The list a verdict is filed in. */
  ghost function ListOf(r: Report, v: Verdict): seq<Path> {
    match v
    case Created => r.created
    case Updated => r.updated
    case Pending => r.pending
    case Unchanged => r.settled
    case Preserved => r.preserved
    case _ => r.conflicts
  }

  /** Whether the verdict v on the file p puts the path into the list of kind: a path that
      could not be written under lists what stands in its way, any other file lists itself. */
  ghost predicate Lists(kind: Verdict, p: Path, v: Verdict, path: Path) {
    if v.Blocked? || v.NotFile? || v.Conflict? then
      (kind.Blocked? || kind.NotFile? || kind.Conflict?) && path == (if v.Blocked? then v.parent else p)
    else
      kind == v && path == p
  }

  lemma FiledLists(r: Report, p: Path, v: Verdict, kind: Verdict, path: Path)
    ensures path in ListOf(Filed(r, p, v), kind) <==> path in ListOf(r, kind) || Lists(kind, p, v, path)
  {
  }

  /** Each list gains exactly the paths whose verdict belongs in it. */
  lemma {:induction false} ListsByVerdict(r: Report, ops: seq<Op>, vs: seq<Verdict>, kind: Verdict, path: Path)
    requires |ops| == |vs|
    ensures path in ListOf(FiledAll(r, ops, vs), kind)
            <==> path in ListOf(r, kind) || exists i :: 0 <= i < |ops| && Lists(kind, ops[i].path, vs[i], path)
    decreases |ops|
  {
    if ops != [] {
      var rest, others := ops[1..], vs[1..];
      FiledLists(r, ops[0].path, vs[0], kind, path);
      ListsByVerdict(Filed(r, ops[0].path, vs[0]), rest, others, kind, path);
      if i :| 0 <= i < |rest| && Lists(kind, rest[i].path, others[i], path) {
        assert Lists(kind, ops[i + 1].path, vs[i + 1], path);
      }
      if i :| 0 <= i < |ops| && Lists(kind, ops[i].path, vs[i], path) {
        assert i > 0 ==> Lists(kind, rest[i - 1].path, others[i - 1], path);
      }
    }
  }

  /** The lists show no blocker exactly when every verdict was good. */
  lemma {:induction false} OkExactly(r: Report, ops: seq<Op>, vs: seq<Verdict>)
    requires |ops| == |vs|
    ensures FiledAll(r, ops, vs).Ok() <==> r.Ok() && AllGood(vs)
    decreases |ops|
  {
    if ops != [] {
      OkExactly(Filed(r, ops[0].path, vs[0]), ops[1..], vs[1..]);
      if AllGood(vs[1..]) && Good(vs[0]) {
        forall i | 0 <= i < |vs| ensures Good(vs[i]) {
          assert i > 0 ==> vs[i] == vs[1..][i - 1];
        }
      }
    }
  }

  lemma {:induction false} StepsConcat(m: Mode, s: Pass, a: seq<Op>, b: seq<Op>)
    ensures Steps(m, s, a + b) == Steps(m, Steps(m, s, a), b)
    decreases |a|
  {
    if a == [] {
      assert a + b == b;
    } else {
      assert (a + b)[1..] == a[1..] + b;
      StepsConcat(m, Step(m, s, a[0]), a[1..], b);
    }
  }

  // ---- the receipt ----

  /** The hashes of the files the plan manages, seeds aside. */
  ghost predicate IsReceipt(hash: Bytes -> string, ops: seq<Op>, managed: Hashes) {
    && (forall i :: 0 <= i < |ops| && !ops[i].seedOnly ==>
          ops[i].path in managed && managed[ops[i].path] == hash(ops[i].content))
    && forall path :: path in managed ==> exists i :: 0 <= i < |ops| && !ops[i].seedOnly && ops[i].path == path
  }

  lemma GoodNext(m: Mode, s: Pass, ops: seq<Op>)
    requires ops != [] && !m.dryRun && AllGood(Outcome(m.hash, s.tree, ops, m.previous, m.update))
    ensures Good(Judge(m.hash, s.tree, ops[0], m.previous, m.update))
    ensures AllGood(Outcome(m.hash, Step(m, s, ops[0]).tree, ops[1..], m.previous, m.update))
  {
    var vs := Outcome(m.hash, s.tree, ops, m.previous, m.update);
    var rest := Outcome(m.hash, Step(m, s, ops[0]).tree, ops[1..], m.previous, m.update);
    assert vs == [Judge(m.hash, s.tree, ops[0], m.previous, m.update)] + rest;
    assert Good(vs[0]);
    forall k | 0 <= k < |rest| ensures Good(rest[k]) {
      assert vs[k + 1] == rest[k];
    }
  }

  lemma {:induction false} OthersHashKept(m: Mode, s: Pass, ops: seq<Op>, path: Path)
    requires forall i :: 0 <= i < |ops| ==> ops[i].path != path
    ensures var managed := Steps(m, s, ops).managed;
            path in managed <==> path in s.managed
    ensures path in s.managed ==> Steps(m, s, ops).managed[path] == s.managed[path]
    decreases |ops|
  {
    if ops != [] {
      OthersHashKept(m, Step(m, s, ops[0]), ops[1..], path);
    }
  }

  lemma {:induction false} ManagedAt(m: Mode, s: Pass, ops: seq<Op>, i: nat)
    requires Independent(ops) && AllGood(Outcome(m.hash, s.tree, ops, m.previous, m.update)) && !m.dryRun
    requires i < |ops| && !ops[i].seedOnly
    ensures var managed := Steps(m, s, ops).managed;
            ops[i].path in managed && managed[ops[i].path] == m.hash(ops[i].content)
    decreases |ops|
  {
    GoodNext(m, s, ops);
    var next := Step(m, s, ops[0]);
    if i == 0 {
      forall k | 0 <= k < |ops| - 1 ensures ops[1..][k].path != ops[0].path {
        assert !Clash(ops[0].path, ops[k + 1].path);
      }
      OthersHashKept(m, next, ops[1..], ops[0].path);
    } else {
      ManagedAt(m, next, ops[1..], i - 1);
    }
  }

  lemma {:induction false} ManagedOnly(m: Mode, s: Pass, ops: seq<Op>, path: Path)
    requires AllGood(Outcome(m.hash, s.tree, ops, m.previous, m.update)) && !m.dryRun
    requires path in Steps(m, s, ops).managed && path !in s.managed
    ensures exists i :: 0 <= i < |ops| && !ops[i].seedOnly && ops[i].path == path
    decreases |ops|
  {
    if ops != [] {
      GoodNext(m, s, ops);
      var next := Step(m, s, ops[0]);
      if path in next.managed {
        assert !ops[0].seedOnly && ops[0].path == path;
      } else {
        ManagedOnly(m, next, ops[1..], path);
        var i :| 0 <= i < |ops| - 1 && !ops[1..][i].seedOnly && ops[1..][i].path == path;
        assert ops[i + 1] == ops[1..][i];
      }
    }
  }

  /** Every hash in the receipt is that of the file it names: the check before it is written cannot fail. */
  ghost predicate Verified(hash: Bytes -> string, t: Tree, managed: Hashes) {
    forall path :: path in managed ==> path in t.files && hash(t.files[path]) == managed[path]
  }

  lemma ReceiptVerifies(m: Mode, t: Tree, ops: seq<Op>)
    requires Independent(ops) && AllGood(Outcome(m.hash, t, ops, m.previous, m.update)) && !m.dryRun
    ensures var after := Steps(m, Pass(t, NO_REPORT, map[]), ops);
            IsReceipt(m.hash, ops, after.managed) && Verified(m.hash, after.tree, after.managed)
  {
    var start := Pass(t, NO_REPORT, map[]);
    var after := Steps(m, start, ops);
    StepsAre(m, start, ops);
    forall i | 0 <= i < |ops| && !ops[i].seedOnly
      ensures ops[i].path in after.managed && after.managed[ops[i].path] == m.hash(ops[i].content)
    {
      ManagedAt(m, start, ops, i);
    }
    forall path | path in after.managed
      ensures exists i :: 0 <= i < |ops| && !ops[i].seedOnly && ops[i].path == path
    {
      ManagedOnly(m, start, ops, path);
    }
    forall path | path in after.managed
      ensures path in after.tree.files && m.hash(after.tree.files[path]) == after.managed[path]
    {
      var i :| 0 <= i < |ops| && !ops[i].seedOnly && ops[i].path == path;
      StandsAfter(m.hash, t, ops, m.previous, m.update, i);
    }
  }

  // ---- the .gitignore file ----

  /** What stands at .gitignore. It is kept apart from the managed files: its text is read, not its bytes. */
  datatype IgnoreFile = NoFile | Holds(raw: string) | NotAFile

  const IGNORE_KEY: Path := [".gitignore:pkstack-runtime-block"]

  function IgnoreText(g: IgnoreFile): (text: string)
    ensures '\r' !in text
  {
    if g.Holds? then Gitignore.Universal(g.raw) else ""
  }

  function JudgeIgnore(g: IgnoreFile): Verdict {
    if g.NotAFile? then NotFile
    else if Gitignore.Ensured(IgnoreText(g)).None? then Unchanged
    else if g.Holds? then Updated
    else Created
  }

  /** The file after the step. */
  function Ignoring(g: IgnoreFile): IgnoreFile {
    if g.NotAFile? || Gitignore.Ensured(IgnoreText(g)).None? then g
    else Holds(Gitignore.Ensured(IgnoreText(g)).value)
  }

  lemma IgnoreVerdict(g: IgnoreFile)
    ensures !JudgeIgnore(g).Blocked? && (Good(JudgeIgnore(g)) <==> !g.NotAFile?)
  {
  }

  /** A missing file is created, one with all entries is left, any other is updated, and what is no file is a conflict. */
  lemma IgnoreCases(g: IgnoreFile)
    ensures g.NoFile? ==> JudgeIgnore(g).Created?
    ensures g.NotAFile? ==> JudgeIgnore(g).NotFile? && Ignoring(g) == g
    ensures g.Holds? ==>
              if forall e :: e in Gitignore.ENTRIES ==> Gitignore.HasEntry(IgnoreText(g), e)
              then JudgeIgnore(g).Unchanged? && Ignoring(g) == g
              else JudgeIgnore(g).Updated?
  {
    Gitignore.NothingMissing(IgnoreText(g));
    if g.NoFile? {
      assert !Gitignore.HasEntry("", Gitignore.ENTRIES[0]);
    }
  }

  /** Once ensured, every entry is there and the next setup leaves the file alone. */
  lemma IgnoringSettles(g: IgnoreFile)
    requires !g.NotAFile?
    ensures JudgeIgnore(Ignoring(g)).Unchanged?
    ensures forall e :: e in Gitignore.ENTRIES ==> Gitignore.HasEntry(IgnoreText(Ignoring(g)), e)
  {
    Gitignore.EnsuredHoldsAll(IgnoreText(g));
    if Gitignore.Ensured(IgnoreText(g)).Some? {
      Gitignore.EnsuredPlain(IgnoreText(g));
    }
  }

  // ---- the run ----

  function Keys(ops: seq<Op>): set<Path> {
    set i | 0 <= i < |ops| :: ops[i].path
  }

  /** Files of an old receipt that the plan no longer names and that are still there. */
  function Stale(t: Tree, previous: Hashes, ops: seq<Op>): set<Path> {
    set path | path in previous && path !in Keys(ops) && (path in t.files || path in t.dirs)
  }

  function DiscoveryOp(content: Bytes): Op {
    Op(DISCOVERY, content, true, false)
  }

  function WithDiscovery(ops: seq<Op>, content: Bytes): seq<Op> {
    ops + [DiscoveryOp(content)]
  }

  /** The plan as carried out: the discovery file says what is found after the other writes. */
  function RealPlan(m: Mode, t: Tree, ops: seq<Op>, discover: Tree -> Bytes): seq<Op> {
    WithDiscovery(ops, discover(Final(m.hash, t, ops, m.previous, m.update)))
  }

  /** The report of a preview: the plan, then .gitignore. */
  function Foreseen(m: Mode, t: Tree, w: Verdict, plan: seq<Op>): Report {
    var listed := FiledAll(NO_REPORT, plan, Preview(m.hash, t, plan, m.previous, m.update));
    Filed(listed.(stale := Stale(t, m.previous, plan)), IGNORE_KEY, w)
  }

  /** No conflict, no pending update, no stale file. */
  predicate Clear(m: Mode, t: Tree, w: Verdict, plan: seq<Op>) {
    && AllGood(Preview(m.hash, t, plan, m.previous, m.update))
    && Stale(t, m.previous, plan) == {}
    && Good(w)
  }

  /** The report of a real run: the plan, then .gitignore, then the discovery file with its new text. */
  function Performed(m: Mode, t: Tree, w: Verdict, ops: seq<Op>, text: Bytes): Report {
    Filed(Filed(FiledAll(NO_REPORT, ops, Preview(m.hash, t, ops, m.previous, m.update)), IGNORE_KEY, w),
          DISCOVERY, Judge(m.hash, t, DiscoveryOp(text), m.previous, m.update))
  }

  /** The discovery file may be written: it is absent, as the receipt has it, or already what it must be. */
  predicate DiscoveryFits(m: Mode, t: Tree, text: Bytes) {
    DISCOVERY in t.files ==>
      || m.hash(t.files[DISCOVERY]) == m.hash(text)
      || (DISCOVERY in m.previous && m.hash(t.files[DISCOVERY]) == m.previous[DISCOVERY])
  }

  /** How setup ended: blocked or only previewed, changed under its feet, or committed. */
  datatype End = Previewed | NotCommitted | Raised | Committed

  class Setup {
    var tree: Tree
    var ignored: IgnoreFile
    var receipt: Option<Hashes>
    // The pass under way.
    var report: Report
    var managed: Hashes

    constructor (tree: Tree, ignored: IgnoreFile, receipt: Option<Hashes>)
      ensures this.tree == tree && this.ignored == ignored && this.receipt == receipt
    {
      this.tree, this.ignored, this.receipt := tree, ignored, receipt;
      report, managed := NO_REPORT, map[];
    }

    function Current(): Pass
      reads this
    {
      Pass(tree, report, managed)
    }

    /** One managed file: compared, filed in a list, and written unless this is a dry run. */
    method ApplyFile(m: Mode, op: Op)
      modifies this`tree, this`report, this`managed
      ensures Current() == Step(m, old(Current()), op)
    {
      var blocker := Blocker(tree, op.path, 1);
      if blocker.Some? {
        if blocker.value !in report.conflicts {
          report := report.(conflicts := report.conflicts + [blocker.value]);
        }
        return;
      }
      if op.path !in tree.files && op.path in tree.dirs {
        report := report.(conflicts := report.conflicts + [op.path]);
        return;
      }
      var existing := if op.path in tree.files then Some(m.hash(tree.files[op.path])) else None;
      if op.seedOnly {
        if existing.Some? {
          report := report.(preserved := report.preserved + [op.path]);
          return;
        }
        report := report.(created := report.created + [op.path]);
        if !m.dryRun {
          tree := Write(tree, op);
        }
        return;
      }
      var desired := m.hash(op.content);
      if existing == Some(desired) {
        managed := managed[op.path := desired];
        report := report.(settled := report.settled + [op.path]);
        return;
      }
      if existing.Some? {
        if op.path !in m.previous || existing.value != m.previous[op.path] {
          if op.path in m.previous {
            managed := managed[op.path := m.previous[op.path]];
          }
          report := report.(conflicts := report.conflicts + [op.path]);
          return;
        }
        if !m.update && !op.refreshOwned {
          managed := managed[op.path := existing.value];
          report := report.(pending := report.pending + [op.path]);
          return;
        }
        report := report.(updated := report.updated + [op.path]);
      } else {
        report := report.(created := report.created + [op.path]);
      }
      managed := managed[op.path := desired];
      if !m.dryRun {
        tree := Write(tree, op);
      }
    }

    /** The loop over a plan. */
    method ApplyAll(m: Mode, ops: seq<Op>)
      modifies this`tree, this`report, this`managed
      ensures Current() == Steps(m, old(Current()), ops)
    {
      var i := 0;
      assert ops[0..] == ops;
      while i < |ops|
        invariant 0 <= i <= |ops|
        invariant Steps(m, Current(), ops[i..]) == Steps(m, old(Current()), ops)
      {
        assert ops[i..][0] == ops[i] && ops[i..][1..] == ops[i + 1..];
        ApplyFile(m, ops[i]);
        i := i + 1;
      }
    }

    /** The .gitignore step: the missing entries are added, unless this is a dry run. */
    method EnsureGitignore(dryRun: bool)
      modifies this`ignored, this`report
      ensures report == Filed(old(report), IGNORE_KEY, JudgeIgnore(old(ignored)))
      ensures ignored == if dryRun then old(ignored) else Ignoring(old(ignored))
    {
      if ignored.NotAFile? {
        report := report.(conflicts := report.conflicts + [IGNORE_KEY]);
        return;
      }
      var content := Gitignore.Ensured(IgnoreText(ignored));
      if content.None? {
        report := report.(settled := report.settled + [IGNORE_KEY]);
        return;
      }
      if ignored.Holds? {
        report := report.(updated := report.updated + [IGNORE_KEY]);
      } else {
        report := report.(created := report.created + [IGNORE_KEY]);
      }
      if !dryRun {
        ignored := Holds(content.value);
      }
    }

    /** The dry pass: the preview's lists and the stale files; nothing else changes. */
    method MakePreview(m: Mode, plan: seq<Op>)
      requires m.dryRun
      modifies this`tree, this`ignored, this`report, this`managed
      ensures tree == old(tree) && ignored == old(ignored)
      ensures report == Foreseen(m, tree, JudgeIgnore(ignored), plan)
      ensures report.Ok() <==> Clear(m, tree, JudgeIgnore(ignored), plan)
    {
      report, managed := NO_REPORT, map[];
      ghost var start := Current();
      ApplyAll(m, plan);
      StepsAre(m, start, plan);
      report := report.(stale := Stale(tree, m.previous, plan));
      EnsureGitignore(true);
      IgnoreVerdict(ignored);
      ForeseenOk(m, tree, JudgeIgnore(ignored), plan);
    }

    /** The real pass: the plan, .gitignore, and last the discovery file, from what the workspace has become. */
    method Perform(m: Mode, ops: seq<Op>, discover: Tree -> Bytes)
      requires !m.dryRun
      modifies this`tree, this`ignored, this`report, this`managed
      ensures Current() == RealPass(m, old(tree), JudgeIgnore(old(ignored)), ops, discover)
      ensures ignored == Ignoring(old(ignored))
    {
      report, managed := NO_REPORT, map[];
      ApplyAll(m, ops);
      StepsAre(m, Pass(old(tree), NO_REPORT, map[]), ops);
      EnsureGitignore(false);
      ApplyFile(m, DiscoveryOp(discover(tree)));
    }

    /** Preview first; only a clear preview is followed by writes, and only a clear run by a new receipt. */
    method Run(hash: Bytes -> string, ops: seq<Op>, discover: Tree -> Bytes, update: bool, dryRun: bool) returns (end: End)
      modifies this
      ensures var m, w := Mode(hash, old(Previous()), update, true), JudgeIgnore(old(ignored));
              var plan, planned := WithDiscovery(ops, discover(old(tree))), RealPlan(m, old(tree), ops, discover);
              var text := discover(Final(hash, old(tree), ops, m.previous, update));
              // The preview decides, and a blocked or dry run changes nothing.
              && (end.Previewed? <==> dryRun || !Clear(m, old(tree), w, plan))
              && (end.Previewed? ==>
                    && tree == old(tree) && ignored == old(ignored)
                    && report == Foreseen(m, old(tree), w, plan))
              && (!end.Previewed? ==>
                    && tree == Final(hash, old(tree), planned, m.previous, update)
                    && ignored == Ignoring(old(ignored)))
              && (!end.Committed? ==> receipt == old(receipt))
              // A clear preview comes true but for the discovery file, whose text is that of the new workspace.
              && (!end.Previewed? && Independent(plan) ==>
                    && (end.Committed? <==> DiscoveryFits(m, old(tree), text))
                    && (end.Committed? || end.NotCommitted?)
                    && report == Performed(m, old(tree), w, ops, text)
                    && Others(report) == Others(Foreseen(m, old(tree), w, plan))
                    && (end.Committed? ==>
                          && report.Ok() && Recorded(hash, tree, planned, receipt)
                          && JudgeIgnore(ignored).Unchanged?))
    {
      var previous := Previous();
      var plan := WithDiscovery(ops, discover(tree));
      var dry, live := Mode(hash, previous, update, true), Mode(hash, previous, update, false);
      ghost var tree0, w := tree, JudgeIgnore(ignored);
      IgnoreVerdict(ignored);
      MakePreview(dry, plan);
      if dryRun || !report.Ok() {
        return Previewed;
      }
      Perform(live, ops, discover);
      RealTree(live, tree0, w, ops, discover);
      if Independent(plan) {
        IgnoringSettles(old(ignored));
        RealRun(dry, live, tree0, w, ops, discover);
      }
      if !report.Ok() {
        return NotCommitted;
      }
      if exists path | path in managed :: path !in tree.files || hash(tree.files[path]) != managed[path] {
        return Raised;
      }
      receipt := Some(managed);
      return Committed;
    }

    function Previous(): Hashes
      reads this
    {
      if receipt.Some? then receipt.value else map[]
    }
  }

  /** A preview is clear exactly when all verdicts are good and every file of the old receipt is planned again or gone. */
  lemma ClearExactly(m: Mode, t: Tree, w: Verdict, plan: seq<Op>)
    ensures Clear(m, t, w, plan)
            <==> && (forall i :: 0 <= i < |plan| ==> Good(Judge(m.hash, t, plan[i], m.previous, m.update))) && Good(w)
                 && forall path :: path in m.previous && (path in t.files || path in t.dirs) ==>
                      exists i :: 0 <= i < |plan| && plan[i].path == path
  {
    assert forall path :: path in Stale(t, m.previous, plan) <==>
             path in m.previous && path !in Keys(plan) && (path in t.files || path in t.dirs);
  }

  lemma ForeseenOk(m: Mode, t: Tree, w: Verdict, plan: seq<Op>)
    requires !w.Blocked?
    ensures Foreseen(m, t, w, plan).Ok() <==> Clear(m, t, w, plan)
  {
    var vs := Preview(m.hash, t, plan, m.previous, m.update);
    OkExactly(NO_REPORT, plan, vs);
    NoStale(NO_REPORT, plan, vs);
  }

  /** A real pass, from empty lists. */
  function RealPass(m: Mode, t: Tree, w: Verdict, ops: seq<Op>, discover: Tree -> Bytes): Pass {
    var middle := Steps(m, Pass(t, NO_REPORT, map[]), ops);
    Step(m, middle.(report := Filed(middle.report, IGNORE_KEY, w)), DiscoveryOp(discover(middle.tree)))
  }

  /** Apart from its lists, a real pass is one over the real plan. */
  lemma RealTree(m: Mode, t: Tree, w: Verdict, ops: seq<Op>, discover: Tree -> Bytes)
    requires !m.dryRun
    ensures var plan, after := RealPlan(m, t, ops, discover), RealPass(m, t, w, ops, discover);
            && after.tree == Steps(m, Pass(t, NO_REPORT, map[]), plan).tree == Final(m.hash, t, plan, m.previous, m.update)
            && after.managed == Steps(m, Pass(t, NO_REPORT, map[]), plan).managed
  {
    var start := Pass(t, NO_REPORT, map[]);
    var middle := Steps(m, start, ops);
    StepsAre(m, start, ops);
    StepsAre(m, start, RealPlan(m, t, ops, discover));
    var last := DiscoveryOp(discover(middle.tree));
    StepsConcat(m, start, ops, [last]);
    assert [last][1..] == [];
    assert Steps(m, middle, [last]) == Step(m, middle, last);
  }

  // ---- the lists of the two passes ----

  function Without(paths: seq<Path>, path: Path): seq<Path>
    decreases |paths|
  {
    if paths == [] then []
    else
      var last := paths[|paths| - 1];
      Without(paths[..|paths| - 1], path) + (if last == path then [] else [last])
  }

  /** The lists with the discovery file taken out. */
  function Others(r: Report): Report {
    Report(Without(r.created, DISCOVERY), Without(r.updated, DISCOVERY), Without(r.pending, DISCOVERY),
           r.stale - {DISCOVERY}, Without(r.settled, DISCOVERY), Without(r.preserved, DISCOVERY), Without(r.conflicts, DISCOVERY))
  }

  lemma WithoutSnoc(paths: seq<Path>, last: Path)
    ensures Without(paths + [last], DISCOVERY) == Without(paths, DISCOVERY) + if last == DISCOVERY then [] else [last]
  {
    assert (paths + [last])[..|paths|] == paths;
  }

  lemma OthersFiled(r: Report, path: Path, v: Verdict)
    requires !v.Blocked?
    ensures Others(Filed(r, path, v)) == if path == DISCOVERY then Others(r) else Filed(Others(r), path, v)
  {
    match v
    case Created => WithoutSnoc(r.created, path);
    case Updated => WithoutSnoc(r.updated, path);
    case Pending => WithoutSnoc(r.pending, path);
    case Unchanged => WithoutSnoc(r.settled, path);
    case Preserved => WithoutSnoc(r.preserved, path);
    case _ => WithoutSnoc(r.conflicts, path);
  }

  lemma {:induction false} FiledAllSnoc(r: Report, ops: seq<Op>, op: Op, vs: seq<Verdict>, v: Verdict)
    requires |ops| == |vs|
    ensures FiledAll(r, ops + [op], vs + [v]) == Filed(FiledAll(r, ops, vs), op.path, v)
    decreases |ops|
  {
    if ops == [] {
      assert ops + [op] == [op] && vs + [v] == [v] && [op][1..] == [] && [v][1..] == [];
    } else {
      assert (ops + [op])[1..] == ops[1..] + [op] && (vs + [v])[1..] == vs[1..] + [v];
      FiledAllSnoc(Filed(r, ops[0].path, vs[0]), ops[1..], op, vs[1..], v);
    }
  }

  lemma PreviewSnoc(m: Mode, t: Tree, ops: seq<Op>, op: Op)
    ensures Preview(m.hash, t, ops + [op], m.previous, m.update)
         == Preview(m.hash, t, ops, m.previous, m.update) + [Judge(m.hash, t, op, m.previous, m.update)]
  {
  }

  lemma ClearParts(m: Mode, t: Tree, w: Verdict, ops: seq<Op>, text: Bytes)
    requires Clear(m, t, w, WithDiscovery(ops, text))
    ensures AllGood(Preview(m.hash, t, ops, m.previous, m.update))
    ensures Good(Judge(m.hash, t, DiscoveryOp(text), m.previous, m.update))
  {
    var vs := Preview(m.hash, t, WithDiscovery(ops, text), m.previous, m.update);
    PreviewSnoc(m, t, ops, DiscoveryOp(text));
    assert Good(vs[|ops|]);
    forall i | 0 <= i < |ops| ensures Good(Preview(m.hash, t, ops, m.previous, m.update)[i]) {
      assert Good(vs[i]);
    }
  }

  /** A discovery file that passed the preview is not blocked, whatever text it will get. */
  lemma DiscoveryGood(m: Mode, t: Tree, text: Bytes, text1: Bytes)
    requires Good(Judge(m.hash, t, DiscoveryOp(text), m.previous, m.update))
    ensures Good(Judge(m.hash, t, DiscoveryOp(text1), m.previous, m.update)) <==> DiscoveryFits(m, t, text1)
    ensures !Judge(m.hash, t, DiscoveryOp(text1), m.previous, m.update).Blocked?
  {
  }

  /** Out of the discovery file's way, the real run's lists are the preview's. */
  lemma ListsComeTrue(m: Mode, t: Tree, w: Verdict, ops: seq<Op>, text: Bytes, text1: Bytes)
    requires !w.Blocked? && Clear(m, t, w, WithDiscovery(ops, text))
    ensures Others(Performed(m, t, w, ops, text1)) == Others(Foreseen(m, t, w, WithDiscovery(ops, text)))
  {
    var vs := Preview(m.hash, t, ops, m.previous, m.update);
    var r, v := FiledAll(NO_REPORT, ops, vs), Judge(m.hash, t, DiscoveryOp(text), m.previous, m.update);
    ClearParts(m, t, w, ops, text);
    DiscoveryGood(m, t, text, text1);
    NoStale(NO_REPORT, ops, vs);
    PreviewSnoc(m, t, ops, DiscoveryOp(text));
    FiledAllSnoc(NO_REPORT, ops, DiscoveryOp(text), vs, v);
    OthersFiled(r, DISCOVERY, v);
    OthersFiled(Filed(r, DISCOVERY, v), IGNORE_KEY, w);
    OthersFiled(r, IGNORE_KEY, w);
    OthersFiled(Filed(r, IGNORE_KEY, w), DISCOVERY, Judge(m.hash, t, DiscoveryOp(text1), m.previous, m.update));
  }

  lemma {:induction false} NoStale(r: Report, ops: seq<Op>, vs: seq<Verdict>)
    requires |ops| == |vs|
    ensures FiledAll(r, ops, vs).stale == r.stale
    decreases |ops|
  {
    if ops != [] {
      NoStale(Filed(r, ops[0].path, vs[0]), ops[1..], vs[1..]);
    }
  }

  // ---- the real run ----

  /** What a committed run leaves: the planned files, and a receipt of exactly those it manages. */
  ghost predicate Recorded(hash: Bytes -> string, t: Tree, plan: seq<Op>, receipt: Option<Hashes>) {
    && receipt.Some? && IsReceipt(hash, plan, receipt.value) && Verified(hash, t, receipt.value)
    && (forall i :: 0 <= i < |plan| ==> Blocker(t, plan[i].path, 1).None? && plan[i].path in t.files)
  }

  lemma SamePathsIndependent(ops: seq<Op>, text: Bytes, text1: Bytes)
    requires Independent(WithDiscovery(ops, text))
    ensures Independent(WithDiscovery(ops, text1)) && Independent(ops)
  {
    var plan, plan1 := WithDiscovery(ops, text), WithDiscovery(ops, text1);
    forall i, j | 0 <= i < j < |plan| ensures !Clash(plan1[i].path, plan1[j].path) {
      assert plan[i].path == plan1[i].path && plan[j].path == plan1[j].path;
    }
    forall i, j | 0 <= i < j < |ops| ensures !Clash(ops[i].path, ops[j].path) {
      assert plan[i] == ops[i] && plan[j] == ops[j];
    }
  }

  /** The real run of a clear preview is good, file by file, exactly when the discovery file may get its new text. */
  lemma RealVerdicts(m: Mode, t: Tree, w: Verdict, ops: seq<Op>, text: Bytes, text1: Bytes)
    requires Independent(WithDiscovery(ops, text)) && Clear(m, t, w, WithDiscovery(ops, text))
    ensures AllGood(Outcome(m.hash, t, WithDiscovery(ops, text1), m.previous, m.update)) <==> DiscoveryFits(m, t, text1)
    ensures Performed(m, t, w, ops, text1).Ok() <==> DiscoveryFits(m, t, text1)
  {
    var plan := WithDiscovery(ops, text1);
    var vs := Preview(m.hash, t, plan, m.previous, m.update);
    SamePathsIndependent(ops, text, text1);
    PreviewPredicts(m.hash, t, plan, m.previous, m.update);
    PreviewSnoc(m, t, ops, DiscoveryOp(text1));
    ClearParts(m, t, w, ops, text);
    DiscoveryGood(m, t, text, text1);
    OkExactly(NO_REPORT, ops, Preview(m.hash, t, ops, m.previous, m.update));
    assert AllGood(vs) ==> Good(vs[|ops|]);
  }

  lemma RealReport(dry: Mode, live: Mode, t: Tree, w: Verdict, ops: seq<Op>, text: Bytes, discover: Tree -> Bytes)
    requires live == dry.(dryRun := false) && Independent(WithDiscovery(ops, text))
    ensures RealPass(live, t, w, ops, discover).report
         == Performed(dry, t, w, ops, discover(Final(dry.hash, t, ops, dry.previous, dry.update)))
  {
    var start := Pass(t, NO_REPORT, map[]);
    StepsAre(live, start, ops);
    SamePathsIndependent(ops, text, text);
    PreviewPredicts(dry.hash, t, ops, dry.previous, dry.update);
    DiscoveryJudged(dry, t, ops, text, discover(Final(dry.hash, t, ops, dry.previous, dry.update)));
  }

  /** The writes before it change no verdict on the discovery file. */
  lemma DiscoveryJudged(m: Mode, t: Tree, ops: seq<Op>, text: Bytes, text1: Bytes)
    requires Independent(WithDiscovery(ops, text))
    ensures Judge(m.hash, Final(m.hash, t, ops, m.previous, m.update), DiscoveryOp(text1), m.previous, m.update)
         == Judge(m.hash, t, DiscoveryOp(text1), m.previous, m.update)
  {
    forall i | 0 <= i < |ops| ensures !Clash(ops[i].path, DISCOVERY) {
      var plan := WithDiscovery(ops, text);
      assert plan[i] == ops[i] && plan[|ops|].path == DISCOVERY;
    }
    JudgeApart(m, t, ops, DiscoveryOp(text1));
  }

  lemma {:induction false} JudgeApart(m: Mode, t: Tree, ops: seq<Op>, op: Op)
    requires forall i :: 0 <= i < |ops| ==> !Clash(ops[i].path, op.path)
    ensures Judge(m.hash, Final(m.hash, t, ops, m.previous, m.update), op, m.previous, m.update)
         == Judge(m.hash, t, op, m.previous, m.update)
    decreases |ops|
  {
    if ops != [] {
      var v := Judge(m.hash, t, ops[0], m.previous, m.update);
      JudgeStable(m.hash, t, ops[0], v, op, m.previous, m.update);
      JudgeApart(m, Apply(t, ops[0], v), ops[1..], op);
    }
  }

  /** What a real run of a clear preview comes to. */
  lemma RealRun(dry: Mode, live: Mode, t: Tree, w: Verdict, ops: seq<Op>, discover: Tree -> Bytes)
    requires live == dry.(dryRun := false)
    requires Independent(WithDiscovery(ops, discover(t))) && Clear(dry, t, w, WithDiscovery(ops, discover(t)))
    ensures var planned, after := RealPlan(dry, t, ops, discover), RealPass(live, t, w, ops, discover);
            var text := discover(Final(dry.hash, t, ops, dry.previous, dry.update));
            && after.report == Performed(dry, t, w, ops, text)
            && Others(after.report) == Others(Foreseen(dry, t, w, WithDiscovery(ops, discover(t))))
            && (after.report.Ok() <==> DiscoveryFits(dry, t, text))
            && (after.report.Ok() ==> Recorded(dry.hash, after.tree, planned, Some(after.managed)))
  {
    var planned, after := RealPlan(dry, t, ops, discover), RealPass(live, t, w, ops, discover);
    var text := discover(Final(dry.hash, t, ops, dry.previous, dry.update));
    RealTree(live, t, w, ops, discover);
    RealReport(dry, live, t, w, ops, discover(t), discover);
    ListsComeTrue(dry, t, w, ops, discover(t), text);
    RealVerdicts(dry, t, w, ops, discover(t), text);
    SamePathsIndependent(ops, discover(t), text);
    if after.report.Ok() {
      ReceiptVerifies(live, t, planned);
      forall i | 0 <= i < |planned|
        ensures Blocker(after.tree, planned[i].path, 1).None? && planned[i].path in after.tree.files
      {
        StandsAfter(dry.hash, t, planned, dry.previous, dry.update, i);
      }
    }
  }

  // ---- running setup again ----

  /** On what a committed run left, with its receipt, all files but the discovery file rest; that one may be refreshed. */
  lemma RecordedJudged(m: Mode, t: Tree, ops: seq<Op>, text: Bytes, text1: Bytes)
    requires Recorded(m.hash, t, WithDiscovery(ops, text), Some(m.previous))
    ensures forall i :: 0 <= i < |ops| ==> Resting(Judge(m.hash, t, ops[i], m.previous, m.update))
    ensures Good(Judge(m.hash, t, DiscoveryOp(text1), m.previous, m.update)) && DiscoveryFits(m, t, text1)
    ensures Judge(m.hash, t, DiscoveryOp(text), m.previous, m.update).Unchanged?
  {
    var plan := WithDiscovery(ops, text);
    forall i | 0 <= i < |ops| ensures Resting(Judge(m.hash, t, ops[i], m.previous, m.update)) {
      assert plan[i] == ops[i];
    }
    assert plan[|ops|] == DiscoveryOp(text);
  }

  /**
   * Setup run again after a committed run has a clear preview and commits, whatever is discovered now; only the
   * discovery file can change, and when the discovery is still the same nothing does.
   */
  lemma SecondRunIsClear(m: Mode, t: Tree, g: IgnoreFile, ops: seq<Op>, text: Bytes, text1: Bytes)
    requires Recorded(m.hash, t, WithDiscovery(ops, text), Some(m.previous)) && JudgeIgnore(g).Unchanged?
    ensures Clear(m, t, JudgeIgnore(g), WithDiscovery(ops, text1)) && DiscoveryFits(m, t, text1) && Ignoring(g) == g
    ensures Final(m.hash, t, ops, m.previous, m.update) == t
    ensures Final(m.hash, t, WithDiscovery(ops, text), m.previous, m.update) == t
    ensures forall i :: 0 <= i < |ops| ==> Resting(Preview(m.hash, t, ops, m.previous, m.update)[i])
  {
    var plan, plan1 := WithDiscovery(ops, text), WithDiscovery(ops, text1);
    RecordedJudged(m, t, ops, text, text1);
    RestingKeeps(m.hash, t, ops, m.previous, m.update);
    forall i | 0 <= i < |plan| ensures Resting(Judge(m.hash, t, plan[i], m.previous, m.update)) {
      assert i < |ops| ==> plan[i] == ops[i];
    }
    RestingKeeps(m.hash, t, plan, m.previous, m.update);
    forall i | 0 <= i < |plan1| ensures Good(Preview(m.hash, t, plan1, m.previous, m.update)[i]) {
      assert i < |ops| ==> plan1[i] == ops[i];
    }
    ReceiptNotStale(m.hash, ops, text, text1, m.previous);
  }

  lemma ReceiptNotStale(hash: Bytes -> string, ops: seq<Op>, text: Bytes, text1: Bytes, managed: Hashes)
    requires IsReceipt(hash, WithDiscovery(ops, text), managed)
    ensures forall t: Tree :: Stale(t, managed, WithDiscovery(ops, text1)) == {}
  {
    var plan, plan1 := WithDiscovery(ops, text), WithDiscovery(ops, text1);
    forall path | path in managed ensures path in Keys(plan1) {
      var i :| 0 <= i < |plan| && !plan[i].seedOnly && plan[i].path == path;
      assert plan1[i].path == path;
    }
  }
}

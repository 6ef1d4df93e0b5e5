/** The verified goal: its record, its validity, and the transitions that change it. */
module Goal {
  import opened Wrappers

  const MAX_BUDGET := 20

  // ---- the record ----

  datatype Status = Active | Passed | Exhausted

  datatype ContractSource = Explicit | FeatureMap | Spec

  datatype Artifact = Artifact(path: string, sha256: string)

  datatype Contract = Contract(argv: seq<string>, display: string, source: ContractSource,
                               feature: Option<string>, spec: Option<string>,
                               artifacts: seq<Artifact>)

  /** One verifier attempt; evidence stands for its captured output and timing. */
  datatype Result = Result(passed: bool, exitCode: int, timedOut: bool, evidence: string)

  datatype Record = Record(id: string, objective: string, status: Status, contract: Contract,
                           digest: string, attempts: nat, maxAttempts: nat,
                           created: string, updated: string,
                           last: Option<Result>, history: seq<Result>)

  // What the record's checks take from outside: hashing, display, the command policy and formats.
  datatype Env = Env(digest: Contract -> string, display: seq<string> -> string,
                     allowed: seq<string> -> bool, isUuid: string -> bool, isSha256: string -> bool,
                     isBlank: string -> bool)

  // ---- validity ----

  /** The spec paths a spec contract must bind: one intent, the design and the bridge. */
  predicate BindsSpec(c: Contract, spec: string) {
    var base := ".kiro/specs/" + spec;
    && |c.artifacts| == 3
    && (forall i, j :: 0 <= i < j < 3 ==> c.artifacts[i].path != c.artifacts[j].path)
    && (exists i :: 0 <= i < 3 && c.artifacts[i].path == base + "/design.md")
    && (exists i :: 0 <= i < 3 && c.artifacts[i].path == base + "/pkstack-verification.json")
    && (exists i :: 0 <= i < 3 && (c.artifacts[i].path == base + "/requirements.md"
                                   || c.artifacts[i].path == base + "/bugfix.md"))
  }

  predicate ValidContract(env: Env, c: Contract, checkPolicy: bool) {
    && c.argv != [] && c.display == env.display(c.argv)
    && (checkPolicy ==> env.allowed(c.argv))
    && (c.source == FeatureMap ==> c.feature.Some? && c.feature.value != "")
    && (if c.source == Spec then
          && c.spec.Some? && c.spec.value != "" && BindsSpec(c, c.spec.value)
          && forall i :: 0 <= i < |c.artifacts| ==> env.isSha256(c.artifacts[i].sha256)
        else c.artifacts == [])
  }

  predicate Consistent(r: Result) {
    r.passed == (r.exitCode == 0 && !r.timedOut)
  }

  function LastOf(history: seq<Result>): Option<Result> {
    if history == [] then None else Some(history[|history| - 1])
  }

  /** The clauses about attempts, history and status. */
  predicate SoundEvidence(g: Record) {
    && 1 <= g.maxAttempts <= MAX_BUDGET
    && g.attempts <= g.maxAttempts
    && |g.history| == g.attempts
    && g.last == LastOf(g.history)
    && (forall i :: 0 <= i < |g.history| ==> Consistent(g.history[i]))
    && (forall i :: 0 <= i < |g.history| - 1 ==> !g.history[i].passed)
    && match g.status
       case Active => g.attempts < g.maxAttempts && (g.last.Some? ==> !g.last.value.passed)
       case Passed => g.last.Some? && g.last.value.passed
       case Exhausted => g.attempts == g.maxAttempts && g.last.Some? && !g.last.value.passed
  }

  predicate Valid(env: Env, g: Record, checkPolicy: bool) {
    && g.id != "" && !env.isBlank(g.objective) && env.isUuid(g.id)
    && g.digest == env.digest(g.contract)
    && ValidContract(env, g.contract, checkPolicy)
    && SoundEvidence(g)
  }

  /** The contracts that are resolved: from a command, from a feature, or from a spec and its files. */
  function CommandContract(env: Env, argv: seq<string>): Contract {
    Contract(argv, env.display(argv), Explicit, None, None, [])
  }

  function FeatureContract(env: Env, argv: seq<string>, feature: string): Contract {
    Contract(argv, env.display(argv), FeatureMap, Some(feature), None, [])
  }

  function SpecContract(env: Env, argv: seq<string>, feature: Option<string>, spec: string,
                        artifacts: seq<Artifact>): Contract
  {
    Contract(argv, env.display(argv), Spec, feature, Some(spec), artifacts)
  }

  ghost function Paths(artifacts: seq<Artifact>): set<string> {
    set i | 0 <= i < |artifacts| :: artifacts[i].path
  }

  /** Three artifacts: the design, the bridge, and the intent, which is of one of two kinds. */
  ghost predicate ThreeFiles(artifacts: seq<Artifact>, spec: string) {
    var base := ".kiro/specs/" + spec;
    var shared := {base + "/design.md", base + "/pkstack-verification.json"};
    && |artifacts| == 3
    && (Paths(artifacts) == shared + {base + "/requirements.md"} || Paths(artifacts) == shared + {base + "/bugfix.md"})
  }

  lemma SuffixesDiffer(base: string, x: string, y: string)
    requires x != y
    ensures base + x != base + y
  {
    assert (base + x)[|base|..] == x && (base + y)[|base|..] == y;
  }

  lemma FourNames(base: string)
    ensures base + "/design.md" != base + "/pkstack-verification.json"
    ensures base + "/requirements.md" != base + "/design.md" && base + "/bugfix.md" != base + "/design.md"
    ensures base + "/requirements.md" != base + "/pkstack-verification.json"
    ensures base + "/bugfix.md" != base + "/pkstack-verification.json"
  {
    assert |"/design.md"| == 10 && |"/pkstack-verification.json"| == 26;
    assert |"/requirements.md"| == 16 && |"/bugfix.md"| == 10 && "/bugfix.md"[1] == 'b' && "/design.md"[1] == 'd';
    SuffixesDiffer(base, "/bugfix.md", "/design.md");
  }

  /** Three artifacts are distinct when their paths make up a set of three. */
  lemma ThreeDistinct(artifacts: seq<Artifact>, x: string, y: string, z: string)
    requires |artifacts| == 3 && x != y && y != z && x != z
    ensures (exists i :: 0 <= i < 3 && artifacts[i].path == x) && (exists i :: 0 <= i < 3 && artifacts[i].path == y)
            && (exists i :: 0 <= i < 3 && artifacts[i].path == z)
            <==> Paths(artifacts) == {x, y, z}
    ensures Paths(artifacts) == {x, y, z} ==>
              forall i, j :: 0 <= i < j < 3 ==> artifacts[i].path != artifacts[j].path
  {
    var a, b, c := artifacts[0].path, artifacts[1].path, artifacts[2].path;
    assert Paths(artifacts) == {a, b, c};
  }

  /** A spec is bound exactly by its three files, in any order. */
  lemma BindsSpecExactly(c: Contract, spec: string)
    ensures BindsSpec(c, spec) <==> ThreeFiles(c.artifacts, spec)
  {
    var base := ".kiro/specs/" + spec;
    FourNames(base);
    if |c.artifacts| == 3 {
      ThreeDistinct(c.artifacts, base + "/design.md", base + "/pkstack-verification.json", base + "/requirements.md");
      ThreeDistinct(c.artifacts, base + "/design.md", base + "/pkstack-verification.json", base + "/bugfix.md");
    }
  }

  /** Which resolved contracts may be stored; and of any other, only one that has the form of such a contract. */
  lemma ContractsExactly(env: Env, argv: seq<string>, feature: string, from: Option<string>, spec: string,
                         artifacts: seq<Artifact>)
    ensures ValidContract(env, CommandContract(env, argv), true) <==> argv != [] && env.allowed(argv)
    ensures ValidContract(env, FeatureContract(env, argv, feature), true)
            <==> argv != [] && env.allowed(argv) && feature != ""
    ensures ValidContract(env, SpecContract(env, argv, from, spec, artifacts), true)
            <==> && argv != [] && env.allowed(argv) && spec != "" && ThreeFiles(artifacts, spec)
                 && forall a :: a in artifacts ==> env.isSha256(a.sha256)
  {
    BindsSpecExactly(SpecContract(env, argv, from, spec, artifacts), spec);
  }

  lemma ContractForm(env: Env, c: Contract, checkPolicy: bool)
    requires ValidContract(env, c, checkPolicy)
    ensures match c.source
            case Explicit => c == CommandContract(env, c.argv).(feature := c.feature, spec := c.spec)
            case FeatureMap =>
              c.feature.Some? && c == FeatureContract(env, c.argv, c.feature.value).(spec := c.spec)
            case Spec => c.spec.Some? && c == SpecContract(env, c.argv, c.feature, c.spec.value, c.artifacts)
  {
  }

  /** Some attempt ended with exit code 0 in time. */
  ghost predicate CleanExit(history: seq<Result>) {
    exists i :: 0 <= i < |history| && history[i].exitCode == 0 && !history[i].timedOut
  }

  ghost function StatusOf(history: seq<Result>, maxAttempts: nat): Status {
    if CleanExit(history) then Passed else if |history| == maxAttempts then Exhausted else Active
  }

  /** The evidence decides: status and last result are functions of the attempts, the only clean one being the last. */
  lemma EvidenceDecides(g: Record)
    ensures SoundEvidence(g)
            <==> && 1 <= g.maxAttempts <= 20 && g.attempts == |g.history| <= g.maxAttempts
                 && (forall r :: r in g.history ==> r.passed == (r.exitCode == 0 && !r.timedOut))
                 && !CleanExit(if g.history == [] then [] else g.history[..|g.history| - 1])
                 && g.last == LastOf(g.history) && g.status == StatusOf(g.history, g.maxAttempts)
  {
    if g.history != [] {
      var n := |g.history| - 1;
      assert g.history[n] in g.history;
      assert forall i :: 0 <= i < n ==> g.history[..n][i] == g.history[i];
    }
  }

  // ---- the transitions as values ----

  /** A new goal. */
  function Started(env: Env, id: string, objective: string, contract: Contract, budget: nat,
                   now: string): Record
  {
    Record(id, objective, Active, contract, env.digest(contract), 0, budget, now, now, None, [])
  }

  /** The goal after one more recorded attempt. */
  function Attempted(g: Record, r: Result, now: string): Record {
    var status := if r.passed then Passed
                  else if g.attempts + 1 >= g.maxAttempts then Exhausted else Active;
    g.(attempts := g.attempts + 1, last := Some(r), history := g.history + [r], status := status,
       updated := now)
  }

  /** A pass ends the goal; without one, so does the last attempt it may have. */
  function StatusAfter(g: Record, r: Result): Status {
    if r.passed then Passed else if g.attempts + 1 == g.maxAttempts then Exhausted else Active
  }

  /** Whether a resume with this proposed budget is allowed. */
  predicate MayResume(g: Record, proposed: int) {
    && g.status != Passed
    && 1 <= proposed <= MAX_BUDGET
    && proposed >= g.attempts
    && !(g.status == Active && proposed == g.attempts)
    && !(g.status == Exhausted && proposed <= g.attempts)
  }

  function Resumed(g: Record, proposed: nat, now: string): Record {
    g.(maxAttempts := proposed, status := Active, updated := now)
  }

  /** The proposed budget of a resume: an absolute one wins over an increment. */
  function Proposed(g: Record, add: int, absolute: Option<int>): int {
    if absolute.Some? then absolute.value else g.maxAttempts + add
  }

  /** Recording an attempt on a valid active goal gives a valid goal: saving it is never refused. */
  lemma AttemptedValid(env: Env, g: Record, r: Result, now: string)
    requires Valid(env, g, true) && g.status == Active && Consistent(r)
    ensures Valid(env, Attempted(g, r, now), true)
  {
    var g' := Attempted(g, r, now);
    assert forall i :: 0 <= i < |g.history| ==> g'.history[i] == g.history[i];
    assert LastOf(g.history).Some? ==> !g.history[|g.history| - 1].passed;
  }

  lemma ResumedValid(env: Env, g: Record, proposed: nat, now: string)
    requires Valid(env, g, true) && MayResume(g, proposed)
    ensures Valid(env, Resumed(g, proposed, now), true)
  {
  }

  // ---- the store ----

  /** What the state file may hold. */
  datatype File = Missing | Corrupt | OldSchema | Holds(goal: Record)

  datatype Loading = Nothing | Loaded(goal: Record) | Bad | Unsupported

  function Load(env: Env, file: File, checkPolicy: bool): Loading {
    match file
    case Missing => Nothing
    case Corrupt => Bad
    case OldSchema => Unsupported
    case Holds(g) => if Valid(env, g, checkPolicy) then Loaded(g) else Bad
  }

  /** A stored goal whose contract is not the one hashed, or whose id or objective is none, does not load. */
  lemma ForgedRefused(env: Env, g: Record, checkPolicy: bool)
    requires g.digest != env.digest(g.contract) || env.isBlank(g.objective) || !env.isUuid(g.id)
    ensures Load(env, Holds(g), checkPolicy) == Bad
  {
  }

  /** A goal whose command the policy may by now refuse, but nothing else is wrong with it. */
  predicate Readable(env: Env, file: File) {
    file.Holds? && Valid(env, file.goal, false)
  }

  /** Entering a lock first loads the state and refuses what it cannot read. */
  predicate LockOpens(env: Env, file: File, allowCorrupt: bool) {
    match Load(env, file, false)
    case Unsupported => false
    case Bad => allowCorrupt
    case _ => true
  }

  /** Saving validates once more; None is a refusal that leaves the file alone. */
  function Saved(env: Env, g: Record): Option<File> {
    if Valid(env, g, true) then Some(Holds(g)) else None
  }

  /** What start leaves in the file, or None when it raises. */
  function StartFile(env: Env, file: File, id: string, objective: string, contract: Contract,
                     budget: int, now: string): Option<File>
  {
    if env.isBlank(objective) || !(1 <= budget <= MAX_BUDGET) || !env.allowed(contract.argv) then None
    else if !LockOpens(env, file, false) || Load(env, file, true) != Nothing then None
    else Saved(env, Started(env, id, objective, contract, budget, now))
  }

  /** The goal a verifier run starts from, or None when verify raises before running. */
  function Snapshot(env: Env, file: File, specUnchanged: bool): Option<Record> {
    if !LockOpens(env, file, false) then None
    else
      match Load(env, file, true)
      case Loaded(g) =>
        if g.status != Active || (g.contract.source == Spec && !specUnchanged) then None else Some(g)
      case _ => None
  }

  /** What verify leaves in the file after its run, or None when the result is discarded. */
  function CommitFile(env: Env, file: File, prior: Record, r: Result, specUnchanged: bool, now: string)
    : Option<File>
  {
    if !LockOpens(env, file, false) then None
    else
      match Load(env, file, true)
      case Loaded(g) =>
        if g.id != prior.id || g != prior || (g.contract.source == Spec && !specUnchanged) then None
        else Saved(env, Attempted(g, r, now))
      case _ => None
  }

  function ResumeFile(env: Env, file: File, add: int, absolute: Option<int>, now: string): Option<File> {
    if add < 0 || !LockOpens(env, file, false) then None
    else
      match Load(env, file, true)
      case Loaded(g) =>
        var proposed := Proposed(g, add, absolute);
        if MayResume(g, proposed) then Saved(env, Resumed(g, proposed, now)) else None
      case _ => None
  }

  /** What clear leaves in the file, or None when it raises or changes nothing. */
  function ClearFile(env: Env, file: File, force: bool): Option<File> {
    if !LockOpens(env, file, force) then None
    else
      match Load(env, file, !force)
      case Nothing => None
      case Unsupported => None
      case Bad => if force then Some(Missing) else None
      case Loaded(g) => if g.status == Active && !force then None else Some(Missing)
  }

  /** The goal state file and the archive of unreadable states beside it. */
  class GoalStore {
    var file: File
    var archived: seq<File>

    constructor ()
      ensures file == Missing && archived == []
    {
      file, archived := Missing, [];
    }

    method Save(env: Env, g: Record) returns (ok: bool)
      modifies this`file
      ensures ok <==> Saved(env, g).Some?
      ensures file == if ok then Saved(env, g).value else old(file)
    {
      ok := Valid(env, g, true);
      if ok {
        file := Holds(g);
      }
    }

    method StartGoal(env: Env, id: string, objective: string, contract: Contract, budget: int,
                     now: string)
      returns (ok: bool)
      modifies this`file
      ensures ok <==>
                && old(file) == Missing && !env.isBlank(objective) && 1 <= budget <= MAX_BUDGET
                && id != "" && env.isUuid(id) && ValidContract(env, contract, true)
      ensures ok ==> file == Holds(Record(id, objective, Active, contract, env.digest(contract),
                                          0, budget, now, now, None, []))
      ensures !ok ==> file == old(file)
      ensures StartFile(env, old(file), id, objective, contract, budget, now) == if ok then Some(file) else None
    {
      if env.isBlank(objective) || budget < 1 || budget > MAX_BUDGET || !env.allowed(contract.argv) {
        return false;
      }
      if !LockOpens(env, file, false) || Load(env, file, true) != Nothing {
        return false;
      }
      ok := Save(env, Started(env, id, objective, contract, budget, now));
    }

    /** The first locked section of verify. */
    method BeginVerify(env: Env, specUnchanged: bool) returns (prior: Option<Record>)
      ensures prior.Some? <==> && file.Holds? && Valid(env, file.goal, true) && file.goal.status == Active
                               && (file.goal.contract.source == Spec ==> specUnchanged)
      ensures prior.Some? ==> prior.value == file.goal
      ensures prior == Snapshot(env, file, specUnchanged)
    {
      if !LockOpens(env, file, false) {
        return None;
      }
      var loading := Load(env, file, true);
      if !loading.Loaded? || loading.goal.status == Passed || loading.goal.status == Exhausted {
        return None;
      }
      if loading.goal.contract.source == Spec && !specUnchanged {
        return None;
      }
      prior := Some(loading.goal);
    }

    /** The second locked section of verify: records the result or discards it. */
    method CommitVerify(env: Env, prior: Record, r: Result, specUnchanged: bool, now: string)
      returns (ok: bool)
      requires prior.status == Active && Consistent(r)
      modifies this`file
      ensures ok <==> && (old(file) == Holds(prior)) && Valid(env, prior, true)
                      && (prior.contract.source == Spec ==> specUnchanged)
      ensures ok ==> file == Holds(prior.(attempts := prior.attempts + 1, history := prior.history + [r], last := Some(r),
                                          status := StatusAfter(prior, r), updated := now))
      ensures !ok ==> file == old(file)
      ensures CommitFile(env, old(file), prior, r, specUnchanged, now) == if ok then Some(file) else None
    {
      if !LockOpens(env, file, false) {
        return false;
      }
      var loading := Load(env, file, true);
      if !loading.Loaded? || loading.goal.id != prior.id || loading.goal != prior {
        return false;
      }
      if prior.contract.source == Spec && !specUnchanged {
        return false;
      }
      AttemptedValid(env, prior, r, now);
      var g := prior;
      g := g.(attempts := g.attempts + 1, last := Some(r), history := g.history + [r]);
      if r.passed {
        g := g.(status := Passed);
      } else if g.attempts >= g.maxAttempts {
        g := g.(status := Exhausted);
      } else {
        g := g.(status := Active);
      }
      g := g.(updated := now);
      ok := Save(env, g);
    }

    method ResumeGoal(env: Env, add: int, absolute: Option<int>, now: string) returns (ok: bool)
      modifies this`file
      // The new budget, absolute if one is given, must leave an attempt.
      ensures ok <==>
                && 0 <= add && old(file).Holds? && Valid(env, old(file).goal, true) && old(file).goal.status != Passed
                && var g := old(file).goal;
                   var budget := if absolute.Some? then absolute.value else g.maxAttempts + add;
                   g.attempts < budget <= MAX_BUDGET
      ensures ok ==>
                && var g := old(file).goal;
                   var budget := if absolute.Some? then absolute.value else g.maxAttempts + add;
                   0 <= budget && file == Holds(g.(maxAttempts := budget, status := Active, updated := now))
      ensures !ok ==> file == old(file)
      ensures ResumeFile(env, old(file), add, absolute, now) == if ok then Some(file) else None
    {
      if add < 0 {
        return false;
      }
      if !LockOpens(env, file, false) {
        return false;
      }
      var loading := Load(env, file, true);
      if !loading.Loaded? || loading.goal.status == Passed {
        return false;
      }
      var g := loading.goal;
      var proposed := Proposed(g, add, absolute);
      if !(1 <= proposed <= MAX_BUDGET) || proposed < g.attempts
         || (g.status == Active && proposed == g.attempts)
         || (g.status == Exhausted && proposed <= g.attempts) {
        return false;
      }
      ResumedValid(env, g, proposed, now);
      ok := Save(env, Resumed(g, proposed, now));
    }

    /** An unreadable state is kept in the archive before a forced clear removes it. */
    method ClearGoal(env: Env, force: bool) returns (ok: bool)
      modifies this`file, this`archived
      ensures ok <==>
                match old(file)
                case Missing => false
                case OldSchema => false
                case Corrupt => force
                case Holds(g) => force || (Valid(env, g, true) && g.status != Active)
      ensures file == if ok then Missing else old(file)
      ensures archived == if ok && !Readable(env, old(file)) then old(archived) + [old(file)] else old(archived)
      ensures ClearFile(env, old(file), force) == if ok then Some(file) else None
    {
      if !LockOpens(env, file, force) {
        return false;
      }
      match Load(env, file, !force)
      case Nothing => ok := false;
      case Unsupported => ok := false;
      case Bad =>
        ok := force;
        if force {
          archived := archived + [file];
          file := Missing;
        }
      case Loaded(g) =>
        ok := force || g.status != Active;
        if ok {
          file := Missing;
        }
    }
  }
}

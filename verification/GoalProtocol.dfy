/** Goal commands of several processes, interleaved around an unlocked verifier run. */
module GoalProtocol {
  import opened Wrappers
  import opened Goal

  // ---- the system ----

  /** A verifier run that holds the verification lock: its snapshot and, once it ended, its result. */
  datatype Verifier = Verifier(prior: Record, outcome: Option<Result>)

  /** One finished verifier execution: the state it was started from and what came out. */
  datatype Execution = Execution(prior: Record, result: Result)

  /** The state file, the one run that may be under way, and what has happened so far. */
  datatype System = System(file: File, verifier: Option<Verifier>, executions: seq<Execution>,
                           used: set<string>)

  datatype Step =
    | Start(id: string, objective: string, contract: Contract, budget: int, now: string)
    | Begin(specUnchanged: bool)
    | Execute(result: Result)
    | Commit(specUnchanged: bool, now: string)
    | Abandon
    | Resume(add: int, absolute: Option<int>, now: string)
    | Clear(force: bool)
    | Damage(file: File)

  /** What a step that is refused leaves behind is the system unchanged. */
  function Or(s: System, file: Option<File>): System {
    if file.None? then s else s.(file := file.value)
  }

  /** When a step may be taken: one run at a time, fresh ids, consistent results. */
  predicate Enabled(s: System, step: Step) {
    match step
    case Start(id, _, _, _, _) => id !in s.used
    case Begin(_) => s.verifier.None?
    case Execute(result) => s.verifier.Some? && s.verifier.value.outcome.None? && Consistent(result)
    case Commit(_, _) => s.verifier.Some? && s.verifier.value.outcome.Some?
    case Abandon => s.verifier.Some?
    case Damage(file) => file == Corrupt || file == OldSchema
    case _ => true
  }

  function Apply(env: Env, s: System, step: Step): System
    requires Enabled(s, step)
  {
    match step
    case Start(id, objective, contract, budget, now) =>
      Or(s, StartFile(env, s.file, id, objective, contract, budget, now)).(used := s.used + {id})
    case Begin(specUnchanged) =>
      var prior := Snapshot(env, s.file, specUnchanged);
      if prior.None? then s else s.(verifier := Some(Verifier(prior.value, None)))
    case Execute(result) =>
      s.(verifier := Some(s.verifier.value.(outcome := Some(result))),
         executions := s.executions + [Execution(s.verifier.value.prior, result)])
    case Commit(specUnchanged, now) =>
      var v := s.verifier.value;
      Or(s, CommitFile(env, s.file, v.prior, v.outcome.value, specUnchanged, now)).(verifier := None)
    case Abandon => s.(verifier := None)
    case Resume(add, absolute, now) => Or(s, ResumeFile(env, s.file, add, absolute, now))
    case Clear(force) => Or(s, ClearFile(env, s.file, force))
    case Damage(file) => s.(file := file)
  }

  const INITIAL := System(Missing, None, [], {})

  /** A run: the systems before and after each step. */
  ghost predicate IsRun(env: Env, run: seq<System>, steps: seq<Step>) {
    && |run| == |steps| + 1 && run[0] == INITIAL
    && forall i :: 0 <= i < |steps| ==> Enabled(run[i], steps[i]) && run[i + 1] == Apply(env, run[i], steps[i])
  }

  // ---- what every state satisfies ----

  /** The result at index i came from an execution of this goal in the state with i results. */
  predicate Came(g: Record, i: nat, e: Execution)
    requires i < |g.history|
  {
    && e.result == g.history[i]
    && e.prior.id == g.id && e.prior.contract == g.contract && e.prior.digest == g.digest
    && e.prior.history == g.history[..i] && e.prior.status == Active
  }

  ghost predicate HasSource(g: Record, i: nat, executions: seq<Execution>)
    requires i < |g.history|
  {
    exists e :: e in executions && Came(g, i, e)
  }

  ghost predicate EveryResultCame(g: Record, executions: seq<Execution>) {
    forall i :: 0 <= i < |g.history| ==> HasSource(g, i, executions)
  }

  ghost predicate Inv(env: Env, s: System) {
    && (s.file.Holds? ==>
          && Valid(env, s.file.goal, true) && s.file.goal.id in s.used
          && EveryResultCame(s.file.goal, s.executions))
    && (s.verifier.Some? ==>
          && Valid(env, s.verifier.value.prior, true) && s.verifier.value.prior.status == Active
          && s.verifier.value.prior.id in s.used
          && (s.verifier.value.outcome.Some? ==>
                && Consistent(s.verifier.value.outcome.value)
                && Execution(s.verifier.value.prior, s.verifier.value.outcome.value) in s.executions))
  }

  lemma MoreExecutions(g: Record, executions: seq<Execution>, e: Execution)
    requires EveryResultCame(g, executions)
    ensures EveryResultCame(g, executions + [e])
  {
    forall i | 0 <= i < |g.history|
      ensures HasSource(g, i, executions + [e])
    {
      assert HasSource(g, i, executions);
      var x :| x in executions && Came(g, i, x);
      assert x in executions + [e];
    }
  }

  lemma AttemptCame(prior: Record, r: Result, now: string, executions: seq<Execution>)
    requires EveryResultCame(prior, executions) && Execution(prior, r) in executions
    requires prior.status == Active
    ensures EveryResultCame(Attempted(prior, r, now), executions)
  {
    var g := Attempted(prior, r, now);
    forall i | 0 <= i < |g.history|
      ensures HasSource(g, i, executions)
    {
      assert g.history[..i] == prior.history[..i];
      if i < |prior.history| {
        assert HasSource(prior, i, executions);
        var x :| x in executions && Came(prior, i, x);
        assert Came(g, i, x);
      } else {
        assert prior.history[..i] == prior.history;
        assert Came(g, i, Execution(prior, r));
      }
    }
  }

  lemma InvStep(env: Env, s: System, step: Step)
    requires Inv(env, s) && Enabled(s, step)
    ensures Inv(env, Apply(env, s, step))
  {
    match step
    case Execute(result) =>
      if s.file.Holds? {
        MoreExecutions(s.file.goal, s.executions, Execution(s.verifier.value.prior, result));
      }
    case Commit(specUnchanged, now) =>
      var v := s.verifier.value;
      if CommitFile(env, s.file, v.prior, v.outcome.value, specUnchanged, now).Some? {
        AttemptCame(v.prior, v.outcome.value, now, s.executions);
      }
    case Resume(add, absolute, now) =>
      if ResumeFile(env, s.file, add, absolute, now).Some? {
        var g := s.file.goal;
        ResumeKeepsCame(g, Proposed(g, add, absolute), now, s.executions);
      }
    case _ =>
  }

  lemma ResumeKeepsCame(g: Record, proposed: nat, now: string, executions: seq<Execution>)
    requires EveryResultCame(g, executions)
    ensures EveryResultCame(Resumed(g, proposed, now), executions)
  {
    forall i | 0 <= i < |g.history|
      ensures HasSource(Resumed(g, proposed, now), i, executions)
    {
      assert HasSource(g, i, executions);
      var x :| x in executions && Came(g, i, x);
      assert Came(Resumed(g, proposed, now), i, x);
    }
  }

  lemma {:induction false} RunInv(env: Env, run: seq<System>, steps: seq<Step>, k: nat)
    requires IsRun(env, run, steps) && k < |run|
    ensures Inv(env, run[k])
  {
    if k > 0 {
      RunInv(env, run, steps, k - 1);
      InvStep(env, run[k - 1], steps[k - 1]);
    }
  }

  /**
   * In every state of every interleaving the stored goal is valid and has at most 20 attempts, and
   * every recorded result is that of an execution of this very goal's contract, started from the
   * state that held exactly the results before it; two results never share an execution.
   */
  lemma EveryAttemptIsARun(env: Env, run: seq<System>, steps: seq<Step>, k: nat)
    requires IsRun(env, run, steps) && k < |run| && run[k].file.Holds?
    ensures var g := run[k].file.goal;
            && Valid(env, g, true) && g.attempts == |g.history| <= MAX_BUDGET
            && EveryResultCame(g, run[k].executions)
    ensures var g := run[k].file.goal;
            forall i, j, e :: 0 <= i < j < |g.history| && Came(g, i, e) ==> !Came(g, j, e)
  {
    RunInv(env, run, steps, k);
    var g := run[k].file.goal;
    forall i, j, e | 0 <= i < j < |g.history| && Came(g, i, e)
      ensures !Came(g, j, e)
    {
      assert |g.history[..i]| == i && |g.history[..j]| == j;
    }
  }

  /** A commit records its result against the state it was started from, or leaves the file alone. */
  lemma CommitIsExact(env: Env, s: System, specUnchanged: bool, now: string)
    requires Inv(env, s) && Enabled(s, Commit(specUnchanged, now))
    ensures var v, s' := s.verifier.value, Apply(env, s, Commit(specUnchanged, now));
            && s'.verifier == None
            && (if s.file == Holds(v.prior) && (v.prior.contract.source == Spec ==> specUnchanged)
                then s'.file == Holds(Attempted(v.prior, v.outcome.value, now))
                else s'.file == s.file)
  {
    var v := s.verifier.value;
    if s.file == Holds(v.prior) {
      AttemptedValid(env, v.prior, v.outcome.value, now);
    }
  }

  /** No other step touches the history of a stored goal. */
  lemma OnlyCommitRecords(env: Env, s: System, step: Step)
    requires Inv(env, s) && Enabled(s, step)
    requires s.file.Holds? && Apply(env, s, step).file.Holds?
    requires s.file.goal.id == Apply(env, s, step).file.goal.id
    requires s.file.goal.history != Apply(env, s, step).file.goal.history
    ensures step.Commit?
    ensures Apply(env, s, step).file.goal.history
            == s.file.goal.history + [s.verifier.value.outcome.value]
  {
  }

  // ---- the lifetime of one goal ----

  /** What may become of a goal that keeps its id. */
  predicate Evolves(g: Record, g': Record) {
    && g'.id == g.id && g'.objective == g.objective && g'.created == g.created
    && g'.contract == g.contract && g'.digest == g.digest
    && g.history <= g'.history
    && (g.status == Passed ==> g' == g)
  }

  /** If a state still holds the goal at all, it holds an evolution of it. */
  predicate Continues(g: Record, s: System) {
    g.id in s.used && (s.file.Holds? && s.file.goal.id == g.id ==> Evolves(g, s.file.goal))
  }

  lemma ContinuesStep(env: Env, g: Record, s: System, step: Step)
    requires Inv(env, s) && Enabled(s, step) && Continues(g, s)
    ensures Continues(g, Apply(env, s, step))
  {
    var s' := Apply(env, s, step);
    if step.Commit? {
      CommitIsExact(env, s, step.specUnchanged, step.now);
    }
  }

  lemma {:induction false} RunContinues(env: Env, run: seq<System>, steps: seq<Step>, g: Record,
                                        i: nat, k: nat)
    requires IsRun(env, run, steps) && i <= k < |run| && run[i].file == Holds(g)
    ensures Continues(g, run[k])
    decreases k - i
  {
    RunInv(env, run, steps, i);
    if i < k {
      RunContinues(env, run, steps, g, i, k - 1);
      RunInv(env, run, steps, k - 1);
      ContinuesStep(env, g, run[k - 1], steps[k - 1]);
    }
  }

  /**
   * Over any interleaving a goal keeps its contract, digest and objective, its history only grows,
   * and a pass is final: whatever later holds its id is an evolution of it.
   */
  lemma GoalLifetime(env: Env, run: seq<System>, steps: seq<Step>, i: nat, k: nat)
    requires IsRun(env, run, steps) && i <= k < |run|
    requires run[i].file.Holds? && run[k].file.Holds? && run[i].file.goal.id == run[k].file.goal.id
    ensures Evolves(run[i].file.goal, run[k].file.goal)
  {
    RunContinues(env, run, steps, run[i].file.goal, i, k);
  }

  // ---- how a goal leaves the file ----

  /** Damage, a forced clear, or a clear of a goal that is no longer active. */
  predicate Removes(s: System, step: Step) {
    || step.Damage?
    || (step.Clear? && s.file.Holds? && (step.force || s.file.goal.status != Active))
  }

  predicate HoldsId(s: System, id: string) {
    s.file.Holds? && s.file.goal.id == id
  }

  /** No start, resume or verifier takes a stored goal away, and no clear an active one unless it is forced. */
  lemma OnlyRemovalsRemove(env: Env, s: System, step: Step)
    requires Inv(env, s) && Enabled(s, step) && s.file.Holds?
    ensures !HoldsId(Apply(env, s, step), s.file.goal.id) ==> Removes(s, step)
  {
    if step.Commit? {
      CommitIsExact(env, s, step.specUnchanged, step.now);
    }
  }

  lemma {:induction false} NotRemoved(env: Env, run: seq<System>, steps: seq<Step>, i: nat, k: nat)
    requires IsRun(env, run, steps) && i <= k < |run| && run[i].file.Holds?
    requires forall m :: i <= m < k ==> !Removes(run[m], steps[m])
    ensures HoldsId(run[k], run[i].file.goal.id)
    decreases k - i
  {
    if i < k {
      NotRemoved(env, run, steps, i, k - 1);
      RunInv(env, run, steps, k - 1);
      OnlyRemovalsRemove(env, run[k - 1], steps[k - 1]);
    }
  }

  /** A goal found in the file is still there later, as an evolution of itself, unless something removed it. */
  lemma GoalStays(env: Env, run: seq<System>, steps: seq<Step>, i: nat, k: nat)
    requires IsRun(env, run, steps) && i <= k < |run| && run[i].file.Holds?
    requires forall m :: i <= m < k ==> !Removes(run[m], steps[m])
    ensures HoldsId(run[k], run[i].file.goal.id) && Evolves(run[i].file.goal, run[k].file.goal)
  {
    NotRemoved(env, run, steps, i, k);
    GoalLifetime(env, run, steps, i, k);
  }

  /** Attempts left over all resumes. */
  function AttemptsLeft(g: Record): int {
    MAX_BUDGET - g.attempts
  }

  /** Every recorded attempt uses one of at most 20, whatever is resumed in between. */
  lemma RepairLoopEnds(env: Env, run: seq<System>, steps: seq<Step>, i: nat, k: nat)
    requires IsRun(env, run, steps) && i <= k < |run|
    requires run[i].file.Holds? && run[k].file.Holds? && run[i].file.goal.id == run[k].file.goal.id
    ensures var g, g' := run[i].file.goal, run[k].file.goal;
            && 0 <= AttemptsLeft(g') <= AttemptsLeft(g) <= MAX_BUDGET
            && (g.history != g'.history ==> AttemptsLeft(g') < AttemptsLeft(g))
  {
    GoalLifetime(env, run, steps, i, k);
    RunInv(env, run, steps, i);
    RunInv(env, run, steps, k);
  }
}

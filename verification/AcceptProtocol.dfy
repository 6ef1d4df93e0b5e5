/** The accept transaction: every write a step, a crash between any two of them. */
module AcceptProtocol {
  import opened Wrappers
  import opened UpstreamDocs

  /** The recovery journal: both snapshots, the source and the head the invocation was bound to. */
  datatype Journal = Journal(before: Docs, after: Docs, id: string, head: string)

  predicate ValidJournal(j: Journal) {
    && ValidSnapshots(j.before, j.after, j.id, j.head)
    && WithinLoaderBounds(j.before)
  }

  /** The files: manifest and ledger (each replaced as a whole), journal and proposal. */
  datatype Disk = Disk(docs: Docs, journal: Option<Journal>, proposal: bool)

  /** How an invocation that reaches the cleanup ended. */
  datatype Ending = Accepted | Recovered | Refused

  /** The write an invocation performs next; Idle also after a crash or a raised error. */
  datatype Pc =
    | Idle
    | CommitLedger
    | CommitManifest
    | UndoLedger
    | UndoManifest
    | UndoJournal
    | RedoLedger
    | RedoManifest
    | Reproof
    | RollbackLedger
    | RollbackManifest
    | RemoveProposal(ending: Ending)
    | RemoveJournal(ending: Ending)

  datatype State = State(disk: Disk, pc: Pc)

  /** One file replaced atomically. */
  function WithLedger(d: Disk, docs: Docs): Disk {
    d.(docs := d.docs.(reviews := docs.reviews))
  }

  function WithManifest(d: Disk, docs: Docs): Disk {
    d.(docs := d.docs.(sources := docs.sources))
  }

  /** What the next write of an invocation does to the disk when it takes effect. */
  function Effect(s: State): Disk
    requires s.disk.journal.Some?
  {
    var j := s.disk.journal.value;
    match s.pc
    case CommitLedger => WithLedger(s.disk, j.after)
    case CommitManifest => WithManifest(s.disk, j.after)
    case UndoLedger => WithLedger(s.disk, j.before)
    case UndoManifest => WithManifest(s.disk, j.before)
    case UndoJournal => s.disk.(journal := None)
    case RedoLedger => WithLedger(s.disk, j.after)
    case RedoManifest => WithManifest(s.disk, j.after)
    case RollbackLedger => WithLedger(s.disk, j.before)
    case RollbackManifest => WithManifest(s.disk, j.before)
    case RemoveProposal(_) => s.disk.(proposal := false)
    case RemoveJournal(_) => s.disk.(journal := None)
    case _ => s.disk
  }

  /** Where a write leads when it returns normally. */
  function OnSuccess(pc: Pc): Pc {
    match pc
    case CommitLedger => CommitManifest
    case CommitManifest => RemoveProposal(Accepted)
    case UndoLedger => UndoManifest
    case UndoManifest => UndoJournal
    case RedoLedger => RedoManifest
    case RedoManifest => Reproof
    case RollbackLedger => RollbackManifest
    case RollbackManifest => RemoveProposal(Refused)
    case RemoveProposal(ending) => RemoveJournal(ending)
    case _ => Idle
  }

  /** Where a write leads when it raises: only the two commit writes are undone in process. */
  function OnFailure(pc: Pc): Pc {
    if pc == CommitLedger || pc == CommitManifest then UndoLedger else Idle
  }

  /** Each of the two files holds its before or its after snapshot. */
  predicate Mixed(docs: Docs, j: Journal) {
    && (docs.sources == j.before.sources || docs.sources == j.after.sources)
    && (docs.reviews == j.before.reviews || docs.reviews == j.after.reviews)
  }

  /** A fresh accept: no journal, loadable files, a proposal, and a valid advance of them. */
  predicate CanBegin(s: State, j: Journal) {
    && s.pc == Idle && s.disk.journal.None? && s.disk.proposal
    && LoaderAccepts(s.disk.docs)
    && j.before == s.disk.docs
    && ValidSnapshots(j.before, j.after, j.id, j.head)
  }

  /** A recovery: the journal is valid, bound to this head, and does not conflict with the files. */
  predicate CanRecover(s: State, head: string) {
    && s.pc == Idle && s.disk.journal.Some?
    && var j := s.disk.journal.value;
       j.head == head && ValidSnapshots(j.before, j.after, j.id, j.head) && Mixed(s.disk.docs, j)
  }

  /** One step of the system. */
  ghost predicate Next(s: State, s': State) {
    // the journal is written; the invocation goes on, or dies right after
    || (exists j :: CanBegin(s, j) && s'.disk == s.disk.(journal := Some(j))
                    && (s'.pc == CommitLedger || s'.pc == Idle))
    || (exists head :: CanRecover(s, head) && s' == s.(pc := RedoLedger))
    // the next write takes effect and returns, takes effect and raises, or raises without effect
    || Writes(s, s')
    // the final reproof passes or fails
    || (s.pc == Reproof && s'.disk == s.disk
        && (s'.pc == RemoveProposal(Recovered) || s'.pc == RollbackLedger))
    // the process dies between two writes
    || s' == s.(pc := Idle)
    // somebody leaves a proposal
    || s' == s.(disk := s.disk.(proposal := true))
  }

  predicate Writes(s: State, s': State) {
    && s.pc != Idle && s.pc != Reproof && s.disk.journal.Some?
    && ((s'.disk == Effect(s) && (s'.pc == OnSuccess(s.pc) || s'.pc == OnFailure(s.pc)))
        || (s'.disk == s.disk && s'.pc == OnFailure(s.pc)))
  }

  predicate Init(s: State) {
    s.pc == Idle && s.disk.journal.None? && LoaderAccepts(s.disk.docs)
  }

  // ---- the invariant ----

  /** What the files hold while an invocation is at a given write. */
  predicate Holds(docs: Docs, pc: Pc, j: Journal) {
    match pc
    case CommitLedger => docs == j.before
    case CommitManifest => docs == Docs(j.before.sources, j.after.reviews)
    case UndoManifest => docs.reviews == j.before.reviews
    case UndoJournal => docs == j.before
    case RedoManifest => docs.reviews == j.after.reviews
    case Reproof => docs == j.after
    case RollbackManifest => docs.reviews == j.before.reviews
    case RemoveProposal(ending) => docs == (if ending == Refused then j.before else j.after)
    case RemoveJournal(ending) => docs == (if ending == Refused then j.before else j.after)
    case _ => true
  }

  /** The files as the journal and the next write see them. */
  predicate FilesFit(s: State) {
    if s.disk.journal.None? then s.pc == Idle
    else Mixed(s.disk.docs, s.disk.journal.value) && Holds(s.disk.docs, s.pc, s.disk.journal.value)
  }

  predicate Inv(s: State) {
    && FilesFit(s)
    && (if s.disk.journal.None? then LoaderAccepts(s.disk.docs) else ValidJournal(s.disk.journal.value))
  }

  lemma JournalSides(j: Journal)
    requires ValidJournal(j)
    ensures LoaderAccepts(j.before) && LoaderAccepts(j.after)
  {
    JournalSidesLoad(j.before, j.after, j.id, j.head);
  }

  /** Every write keeps the files fitting, whether it returns, raises or is lost. */
  lemma WriteKeepsFiles(s: State, s': State)
    requires FilesFit(s) && Writes(s, s')
    ensures FilesFit(s')
    ensures s'.disk.journal == s.disk.journal || s'.disk.journal.None?
    ensures s'.disk.journal.None? ==>
              && s'.disk.docs == s.disk.docs
              && s.disk.docs == (if s.pc == UndoJournal || s.pc == RemoveJournal(Refused)
                                 then s.disk.journal.value.before else s.disk.journal.value.after)
              && (s.pc == UndoJournal || s.pc.RemoveJournal?)
  {
  }

  /** What a step may do to the journal: nothing, write one that fits the files, or remove it. */
  lemma StepKeepsFiles(s: State, s': State)
    requires FilesFit(s) && Next(s, s')
    ensures FilesFit(s')
    ensures s.disk.journal.None? && s'.disk.journal.None? ==> s'.disk.docs == s.disk.docs
    ensures s.disk.journal.None? && s'.disk.journal.Some? ==>
              s'.disk.docs == s.disk.docs && CanBegin(s, s'.disk.journal.value)
    ensures s.disk.journal.Some? && s'.disk.journal.Some? ==> s'.disk.journal == s.disk.journal
    ensures s.disk.journal.Some? && s'.disk.journal.None? ==> Writes(s, s')
  {
    if Writes(s, s') {
      WriteKeepsFiles(s, s');
    }
  }

  lemma InvInductive(s: State, s': State)
    requires Inv(s) && Next(s, s')
    ensures Inv(s')
  {
    StepKeepsFiles(s, s');
    if s.disk.journal.None? && s'.disk.journal.Some? {
      LoaderAcceptsSound(s.disk.docs);
    }
    if s.disk.journal.Some? && s'.disk.journal.None? {
      JournalSides(s.disk.journal.value);
      WriteKeepsFiles(s, s');
    }
  }

  // ---- runs ----

  ghost predicate IsRun(run: seq<State>) {
    && run != [] && Init(run[0])
    && forall i :: 0 < i < |run| ==> Next(run[i - 1], run[i])
  }

  lemma {:induction false} RunInv(run: seq<State>, k: nat)
    requires IsRun(run) && k < |run|
    ensures Inv(run[k])
  {
    if k > 0 {
      RunInv(run, k - 1);
      InvInductive(run[k - 1], run[k]);
    }
  }

  lemma RunFiles(run: seq<State>, k: nat)
    requires IsRun(run) && k < |run|
    ensures FilesFit(run[k])
  {
    RunInv(run, k);
  }

  /**
   * In every state of every run, with a crash or a failed write anywhere: without a journal the two
   * files are a pair the loader accepts; with one each file is its before or its after snapshot,
   * and both complete snapshots are pairs the loader accepts.
   */
  lemma CrashSafety(run: seq<State>, k: nat)
    requires IsRun(run) && k < |run|
    ensures var disk := run[k].disk;
            if disk.journal.None? then LoaderAccepts(disk.docs)
            else var j := disk.journal.value;
                 && Mixed(disk.docs, j)
                 && LoaderAccepts(j.before) && LoaderAccepts(j.after)
                 && (LoaderAccepts(disk.docs) <==> disk.docs == j.before || disk.docs == j.after)
  {
    RunInv(run, k);
    var disk := run[k].disk;
    if disk.journal.Some? {
      var j := disk.journal.value;
      JournalSides(j);
      TornPairRefused(j.before, j.after, j.id, j.head);
      assert disk.docs == Docs(disk.docs.sources, disk.docs.reviews);
    }
  }

  /** A journal goes away only with the files complete: before, or after unless recovery was refused. */
  lemma JournalEndsComplete(run: seq<State>, k: nat)
    requires IsRun(run) && k + 1 < |run|
    requires run[k].disk.journal.Some? && run[k + 1].disk.journal.None?
    ensures var j, docs, pc := run[k].disk.journal.value, run[k + 1].disk.docs, run[k].pc;
            && docs == run[k].disk.docs
            && (pc == RemoveJournal(Accepted) || pc == RemoveJournal(Recovered) ==> docs == j.after)
            && (pc == RemoveJournal(Refused) || pc == UndoJournal ==> docs == j.before)
            && (pc == UndoJournal || pc.RemoveJournal?)
  {
    RunFiles(run, k);
    assert Next(run[k + 1 - 1], run[k + 1]);
    StepKeepsFiles(run[k], run[k + 1]);
    WriteKeepsFiles(run[k], run[k + 1]);
  }

  // ---- append-only history ----

  /** The last ledger that was not in doubt. */
  function Settled(s: State): seq<Review> {
    if s.disk.journal.None? then s.disk.docs.reviews else s.disk.journal.value.before.reviews
  }

  lemma LedgerExtendsSelf(a: seq<Review>)
    ensures LedgerExtends(a, a)
  {
  }

  lemma SettledGrows(s: State, s': State)
    requires Inv(s) && Next(s, s')
    ensures LedgerExtends(Settled(s), Settled(s'))
  {
    LedgerExtendsSelf(Settled(s));
    StepKeepsFiles(s, s');
    if s.disk.journal.Some? && s'.disk.journal.None? {
      WriteKeepsFiles(s, s');
      var j := s.disk.journal.value;
      JournalExtends(j.before, j.after, j.id, j.head);
    }
  }

  /** Between any two settled moments of a run, the later ledger extends the earlier one. */
  lemma {:induction false} HistoryIsAppendOnly(run: seq<State>, i: nat, k: nat)
    requires IsRun(run) && i <= k < |run|
    ensures LedgerExtends(Settled(run[i]), Settled(run[k]))
    decreases k - i
  {
    if i == k {
      LedgerExtendsSelf(Settled(run[i]));
    } else {
      HistoryIsAppendOnly(run, i, k - 1);
      RunInv(run, k - 1);
      SettledGrows(run[k - 1], run[k]);
      LedgerExtendsTransitive(Settled(run[i]), Settled(run[k - 1]), Settled(run[k]));
    }
  }

  // ---- recovery completes ----

  /** The states of a recovery that is not interrupted, up to its cleanup. */
  function Redo(s: State): seq<State>
    requires s.disk.journal.Some?
  {
    var j := s.disk.journal.value;
    [s, s.(pc := RedoLedger), State(WithLedger(s.disk, j.after), RedoManifest),
     State(s.disk.(docs := j.after), Reproof)]
  }

  function Rollback(s: State): seq<State>
    requires s.disk.journal.Some?
  {
    var j := s.disk.journal.value;
    [State(s.disk, RollbackLedger), State(WithLedger(s.disk, j.before), RollbackManifest)]
  }

  function Cleanup(disk: Disk, ending: Ending): seq<State> {
    [State(disk, RemoveProposal(ending)), State(disk.(proposal := false), RemoveJournal(ending)),
     State(Disk(disk.docs, None, false), Idle)]
  }

  /** All states of an uninterrupted recovery whose reproof passes or fails. */
  function Recovery(s: State, passes: bool): seq<State>
    requires s.disk.journal.Some?
  {
    var j := s.disk.journal.value;
    var proved := s.disk.(docs := j.after);
    if passes then Redo(s) + Cleanup(proved, Recovered)
    else Redo(s) + Undone(State(proved, Reproof))
  }

  ghost predicate Steps(states: seq<State>) {
    forall i :: 0 < i < |states| ==> Next(states[i - 1], states[i])
  }

  lemma StepsJoin(a: seq<State>, b: seq<State>)
    requires Steps(a) && Steps(b) && a != [] && b != [] && Next(a[|a| - 1], b[0])
    ensures Steps(a + b)
  {
    var ab := a + b;
    forall i | 0 < i < |ab|
      ensures Next(ab[i - 1], ab[i])
    {
      if i < |a| {
        assert ab[i] == a[i] && ab[i - 1] == a[i - 1];
      } else if i == |a| {
        assert ab[i] == b[0] && ab[i - 1] == a[|a| - 1];
      } else {
        assert ab[i] == b[i - |a|] && ab[i - 1] == b[i - |a| - 1];
      }
    }
  }

  lemma WriteIsStep(s: State)
    requires s.disk.journal.Some? && s.pc != Idle && s.pc != Reproof
    ensures Next(s, State(Effect(s), OnSuccess(s.pc)))
  {
    assert Writes(s, State(Effect(s), OnSuccess(s.pc)));
  }

  lemma RedoSteps(s: State)
    requires s.disk.journal.Some? && Next(s, s.(pc := RedoLedger))
    ensures Steps(Redo(s))
  {
    var states := Redo(s);
    RedoWrites(s);
    assert states[0] == s;
  }

  lemma RedoWrites(s: State)
    requires s.disk.journal.Some?
    ensures Next(Redo(s)[1], Redo(s)[2]) && Next(Redo(s)[2], Redo(s)[3])
  {
    var s1, s2 := Redo(s)[1], Redo(s)[2];
    WriteIsStep(s1);
    WriteIsStep(s2);
    assert s2 == State(Effect(s1), OnSuccess(RedoLedger));
    assert Redo(s)[3] == State(Effect(s2), OnSuccess(RedoManifest));
  }

  lemma ReproofPasses(disk: Disk)
    ensures Next(State(disk, Reproof), State(disk, RemoveProposal(Recovered)))
  {
  }

  lemma RollbackSteps(s: State)
    requires s.disk.journal.Some? && s.pc == Reproof
    ensures Steps(Rollback(s)) && Next(s, Rollback(s)[0])
    ensures Next(Rollback(s)[1], State(s.disk.(docs := s.disk.journal.value.before), RemoveProposal(Refused)))
  {
    var states := Rollback(s);
    WriteIsStep(states[0]);
    WriteIsStep(states[1]);
    assert states[1] == State(Effect(states[0]), OnSuccess(RollbackLedger));
  }

  lemma CleanupSteps(disk: Disk, ending: Ending)
    requires disk.journal.Some?
    ensures Steps(Cleanup(disk, ending))
  {
    var states := Cleanup(disk, ending);
    WriteIsStep(states[0]);
    WriteIsStep(states[1]);
  }

  /**
   * From any interrupted state of any run, rerunning accept with the journal's head completes: every
   * step of it is possible, and it ends without a journal at the after pair if the reproof passes and
   * at the before pair if it fails. Nothing the journal holds is lost by the interruption.
   */
  lemma RecoveryCompletes(run: seq<State>, passes: bool)
    requires IsRun(run) && run[|run| - 1].disk.journal.Some? && run[|run| - 1].pc == Idle
    ensures var s := run[|run| - 1];
            var j, steps := s.disk.journal.value, Recovery(s, passes);
            && CanRecover(s, j.head) && Steps(steps) && steps[0] == s
            && steps[|steps| - 1]
               == State(Disk(if passes then j.after else j.before, None, false), Idle)
  {
    RunCanRecover(run);
    RecoverySteps(run[|run| - 1], passes);
  }

  lemma RecoverySteps(s: State, passes: bool)
    requires s.disk.journal.Some? && Next(s, s.(pc := RedoLedger))
    ensures var j, steps := s.disk.journal.value, Recovery(s, passes);
            && Steps(steps) && steps[0] == s
            && steps[|steps| - 1]
               == State(Disk(if passes then j.after else j.before, None, false), Idle)
  {
    var j := s.disk.journal.value;
    var proved := s.disk.(docs := j.after);
    RedoSteps(s);
    if passes {
      CleanupSteps(proved, Recovered);
      ReproofPasses(proved);
      StepsJoin(Redo(s), Cleanup(proved, Recovered));
    } else {
      UndoneSteps(State(proved, Reproof));
      StepsJoin(Redo(s), Undone(State(proved, Reproof)));
    }
  }

  function Undone(s: State): seq<State>
    requires s.disk.journal.Some?
  {
    Rollback(s) + Cleanup(s.disk.(docs := s.disk.journal.value.before), Refused)
  }

  lemma UndoneSteps(s: State)
    requires s.disk.journal.Some? && s.pc == Reproof
    ensures Steps(Undone(s)) && Next(s, Undone(s)[0])
  {
    var restored := s.disk.(docs := s.disk.journal.value.before);
    RollbackSteps(s);
    CleanupSteps(restored, Refused);
    StepsJoin(Rollback(s), Cleanup(restored, Refused));
  }

  lemma RunCanRecover(run: seq<State>)
    requires IsRun(run) && run[|run| - 1].disk.journal.Some? && run[|run| - 1].pc == Idle
    ensures var s := run[|run| - 1];
            CanRecover(s, s.disk.journal.value.head) && Next(s, s.(pc := RedoLedger))
  {
    RunInv(run, |run| - 1);
    var s := run[|run| - 1];
    RecoverIsStep(s, s.disk.journal.value.head);
  }

  lemma RecoverIsStep(s: State, head: string)
    requires CanRecover(s, head)
    ensures Next(s, s.(pc := RedoLedger))
  {
  }
}

/** The accept command as it writes its files, each write able to raise or to be the last: a run of the protocol. */
module AcceptFiles {
  import opened Wrappers
  import opened UpstreamDocs
  import opened AcceptProtocol

  /** How one write ends for the process: it goes on, it raises, or it dies there. */
  datatype Signal = Returned | Raised | Died

  /** How the command ends. */
  datatype Exit =
    | AcceptedNow   // accepted by this invocation
    | CompletedNow  // an interrupted accept was completed
    | ReproofFailed // an interrupted accept was undone
    | WriteUndone   // a commit write failed and was rolled back
    | RefusedFirst  // refused before any write
    | Offered       // a dry run: everything holds, nothing is written
    | Interrupted   // an error or the end of the process left the journal to the next invocation

  predicate Writing(pc: Pc) {
    pc != Idle && pc != Reproof
  }

  lemma WriteIsNext(s: State, after: Disk)
    requires Writing(s.pc) && s.disk.journal.Some? && after == Effect(s)
    ensures Next(s, State(after, OnSuccess(s.pc)))
    ensures Next(s, State(after, OnFailure(s.pc))) && Next(s, State(s.disk, OnFailure(s.pc)))
  {
    assert Writes(s, State(after, OnSuccess(s.pc)));
    assert Writes(s, State(after, OnFailure(s.pc))) && Writes(s, State(s.disk, OnFailure(s.pc)));
  }

  lemma DeathIsNext(s: State)
    ensures Next(s, s.(pc := Idle))
  {
  }

  lemma BeginIsNext(s: State, j: Journal, pc: Pc)
    requires CanBegin(s, j) && (pc == CommitLedger || pc == Idle)
    ensures Next(s, State(s.disk.(journal := Some(j)), pc))
  {
  }

  lemma ReproofIsNext(s: State, pc: Pc)
    requires s.pc == Reproof && (pc == RemoveProposal(Recovered) || pc == RollbackLedger)
    ensures Next(s, s.(pc := pc))
  {
  }

  lemma RunExtends(run: seq<State>, s: State)
    requires IsRun(run) && Next(run[|run| - 1], s)
    ensures IsRun(run + [s])
  {
    var longer := run + [s];
    forall i | 0 < i < |longer| ensures Next(longer[i - 1], longer[i]) {
      if i < |run| {
        assert longer[i - 1] == run[i - 1] && longer[i] == run[i];
      }
    }
  }

  class AcceptFiles {
    var disk: Disk
    // The states passed through, ending in the present one.
    ghost var run: seq<State>
    // How many writes raised or were the last of their process, and how many were the last.
    ghost var faults: nat
    ghost var deaths: nat

    ghost predicate Valid()
      reads this
    {
      IsRun(run) && run[|run| - 1].disk == disk
    }

    ghost predicate At(pc: Pc)
      reads this
    {
      run != [] && run[|run| - 1].pc == pc
    }

    constructor (docs: Docs, proposal: bool)
      requires LoaderAccepts(docs)
      ensures Valid() && At(Idle) && disk == Disk(docs, None, proposal)
    {
      disk := Disk(docs, None, proposal);
      run := [State(Disk(docs, None, proposal), Idle)];
      faults, deaths := 0, 0;
    }

    /** The process reaches another state of the protocol, its disk already there. */
    ghost method Reach(pc: Pc)
      requires IsRun(run) && Next(run[|run| - 1], State(disk, pc))
      modifies this`run
      ensures Valid() && At(pc) && old(run) <= run
    {
      RunExtends(run, State(disk, pc));
      run := run + [State(disk, pc)];
    }

    /** The process is gone, the disk stays. */
    ghost method Die()
      requires Valid()
      modifies this`run
      ensures Valid() && At(Idle) && old(run) <= run
    {
      DeathIsNext(run[|run| - 1]);
      Reach(Idle);
    }

    /** The write at pc has ended, its effect on disk or not, and the process goes on. */
    ghost method Land(after: Disk, pc: Pc, returned: bool)
      requires IsRun(run) && At(pc) && Writing(pc) && run[|run| - 1].disk.journal.Some?
      requires after == Effect(run[|run| - 1]) && (disk == after || (disk == run[|run| - 1].disk && !returned))
      modifies this`run
      ensures Valid() && At(if returned then OnSuccess(pc) else OnFailure(pc)) && old(run) <= run
    {
      WriteIsNext(run[|run| - 1], after);
      Reach(if returned then OnSuccess(pc) else OnFailure(pc));
    }

    /** One atomic write or unlink: with or without effect it may return, raise, or end the process. */
    method Write(after: Disk, ghost pc: Pc) returns (signal: Signal)
      requires Valid() && At(pc) && Writing(pc) && disk.journal.Some?
      requires after == Effect(run[|run| - 1])
      modifies this
      ensures Valid() && old(run) <= run && (disk == after || disk == old(disk))
      ensures signal == Returned ==> disk == after && At(OnSuccess(pc))
      ensures signal == Raised ==> At(OnFailure(pc))
      ensures signal == Died ==> At(Idle)
      ensures faults == old(faults) + if signal == Returned then 0 else 1
      ensures deaths == old(deaths) + if signal == Died then 1 else 0
    {
      var takesEffect := *;
      signal := *;
      if takesEffect || signal == Returned {
        disk := after;
      }
      Land(after, pc, signal == Returned);
      if signal != Returned {
        faults := faults + 1;
      }
      if signal == Died {
        deaths := deaths + 1;
        Die();
      }
    }

    /** Replaces the ledger and then the manifest by one side of the journal. */
    method ReplaceBoth(docs: Docs, ghost first: Pc) returns (signal: Signal)
      requires Valid() && At(first) && disk.journal.Some?
      requires first in {CommitLedger, UndoLedger, RedoLedger, RollbackLedger}
      requires docs == Side(first, disk.journal.value)
      modifies this
      ensures Valid() && old(run) <= run && disk == old(disk).(docs := disk.docs)
      ensures signal == Returned ==> disk.docs == docs && At(OnSuccess(OnSuccess(first)))
      ensures signal == Raised ==> At(OnFailure(first))
      ensures signal == Died ==> At(Idle)
      ensures faults == old(faults) + if signal == Returned then 0 else 1
      ensures deaths == old(deaths) + if signal == Died then 1 else 0
    {
      signal := Write(WithLedger(disk, docs), first);
      if signal == Returned {
        signal := Write(WithManifest(disk, docs), OnSuccess(first));
      }
    }

    /** Writes the journal: before that nothing has happened, after it everything can be redone. */
    method WriteJournal(j: Journal) returns (signal: Signal)
      requires Valid() && At(Idle) && CanBegin(run[|run| - 1], j)
      modifies this
      ensures Valid() && old(run) <= run
      ensures signal == Returned ==> At(CommitLedger) && disk == old(disk).(journal := Some(j))
      ensures signal != Returned ==> At(Idle) && (disk == old(disk) || disk == old(disk).(journal := Some(j)))
      ensures faults == old(faults) + if signal == Returned then 0 else 1
      ensures deaths == old(deaths) + if signal == Died then 1 else 0
    {
      signal := *;
      var takesEffect := *;
      if signal == Returned {
        BeginIsNext(run[|run| - 1], j, CommitLedger);
        disk := disk.(journal := Some(j));
        Reach(CommitLedger);
      } else {
        faults, deaths := faults + 1, deaths + if signal == Died then 1 else 0;
        if takesEffect {
          BeginIsNext(run[|run| - 1], j, Idle);
          disk := disk.(journal := Some(j));
          Reach(Idle);
        }
      }
    }

    /** Undoes failed commit writes in process; only then does the journal go. */
    method UndoCommit() returns (done: bool)
      requires Valid() && At(UndoLedger) && disk.journal.Some?
      modifies this
      ensures Valid() && old(run) <= run && At(Idle)
      ensures done ==> disk == old(disk).(docs := old(disk).journal.value.before, journal := None)
      ensures !done ==> old(faults) < faults
      ensures old(deaths) <= deaths
      ensures disk.journal == old(disk).journal || disk == old(disk).(docs := old(disk).journal.value.before, journal := None)
      ensures old(faults) <= faults
    {
      var signal := ReplaceBoth(disk.journal.value.before, UndoLedger);
      if signal == Returned {
        signal := Write(disk.(journal := None), UndoJournal);
      }
      done := signal == Returned;
    }

    /** Journal, ledger, manifest; a failed commit write is undone in process. */
    method WriteTransaction(j: Journal) returns (exit: Exit)
      requires Valid() && At(Idle) && CanBegin(run[|run| - 1], j)
      modifies this
      ensures Valid() && old(run) <= run
      ensures exit in {AcceptedNow, WriteUndone, Interrupted}
      ensures exit == AcceptedNow ==> At(RemoveProposal(Accepted)) && disk == old(disk).(docs := j.after, journal := Some(j))
      ensures exit == WriteUndone ==> At(Idle) && disk == old(disk)
      ensures exit == Interrupted ==> At(Idle) && (disk == old(disk) || disk.journal == Some(j))
      ensures exit == AcceptedNow ==> faults == old(faults) && deaths == old(deaths)
      ensures exit != AcceptedNow ==> old(faults) < faults && old(deaths) <= deaths
      ensures faults == old(faults) + 1 && deaths == old(deaths) ==> disk.docs == old(disk).docs
    {
      var signal := WriteJournal(j);
      if signal != Returned {
        return Interrupted;
      }
      exit := CommitOrUndo();
    }

    method CommitOrUndo() returns (exit: Exit)
      requires Valid() && At(CommitLedger) && disk.journal.Some?
      modifies this
      ensures Valid() && old(run) <= run
      ensures exit in {AcceptedNow, WriteUndone, Interrupted}
      ensures exit == AcceptedNow ==>
                At(RemoveProposal(Accepted)) && disk == old(disk).(docs := old(disk).journal.value.after)
      ensures exit == WriteUndone ==>
                At(Idle) && disk == old(disk).(docs := old(disk).journal.value.before, journal := None)
      ensures exit == Interrupted ==>
                && At(Idle)
                && (disk.journal == old(disk).journal
                    || disk == old(disk).(docs := old(disk).journal.value.before, journal := None))
      ensures exit == AcceptedNow ==> faults == old(faults) && deaths == old(deaths)
      ensures exit != AcceptedNow ==> old(faults) < faults && old(deaths) <= deaths
      ensures faults == old(faults) + 1 && deaths == old(deaths) ==> exit == WriteUndone
    {
      var signal := ReplaceBoth(disk.journal.value.after, CommitLedger);
      if signal == Returned {
        return AcceptedNow;
      }
      if signal == Died {
        return Interrupted;
      }
      var undone := UndoCommit();
      return if undone then WriteUndone else Interrupted;
    }

    /** Checks the journal found against this invocation and the files, then redoes both files from it. */
    method RecoverTransaction(head: string) returns (matched: bool, done: bool)
      requires Valid() && At(Idle) && disk.journal.Some?
      modifies this
      ensures Valid() && old(run) <= run && disk == old(disk).(docs := disk.docs)
      ensures matched <==> Matches(old(disk), head)
      ensures !matched ==> !done && disk == old(disk)
      ensures done ==> At(Reproof) && disk.docs == disk.journal.value.after && faults == old(faults)
      ensures !done ==> At(Idle)
      ensures matched && !done ==> old(faults) < faults
      ensures !matched ==> faults == old(faults)
    {
      matched, done := Matches(disk, head), false;
      if matched {
        BeginRecovery(head);
        done := RedoBoth();
      }
    }

    method RedoBoth() returns (done: bool)
      requires Valid() && At(RedoLedger) && disk.journal.Some?
      modifies this
      ensures Valid() && old(run) <= run && disk == old(disk).(docs := disk.docs)
      ensures done ==> At(Reproof) && disk.docs == disk.journal.value.after && faults == old(faults)
      ensures !done ==> At(Idle) && old(faults) < faults
    {
      var signal := ReplaceBoth(disk.journal.value.after, RedoLedger);
      done := signal == Returned;
    }

    ghost method BeginRecovery(head: string)
      requires Valid() && At(Idle) && CanRecover(run[|run| - 1], head)
      modifies this`run
      ensures Valid() && old(run) <= run && At(RedoLedger)
    {
      RecoverIsStep(run[|run| - 1], head);
      Reach(RedoLedger);
    }

    /** Puts both files back to the journal's before snapshot. */
    method RollbackTransaction() returns (done: bool)
      requires Valid() && At(RollbackLedger) && disk.journal.Some?
      modifies this
      ensures Valid() && old(run) <= run && disk == old(disk).(docs := disk.docs)
      ensures done ==> At(RemoveProposal(Refused)) && disk.docs == disk.journal.value.before && faults == old(faults)
      ensures !done ==> At(Idle) && old(faults) < faults
    {
      var signal := ReplaceBoth(disk.journal.value.before, RollbackLedger);
      done := signal == Returned;
    }

    /** Unlinks the proposal, then the journal. */
    method CleanupInputs(ghost ending: Ending) returns (done: bool)
      requires Valid() && At(RemoveProposal(ending)) && disk.journal.Some?
      modifies this
      ensures Valid() && old(run) <= run && At(Idle) && disk.docs == old(disk).docs
      ensures disk.journal == old(disk).journal || disk == Disk(old(disk).docs, None, false)
      ensures done ==> disk == Disk(old(disk).docs, None, false) && faults == old(faults)
      ensures !done ==> old(faults) < faults
      ensures old(deaths) <= deaths
    {
      var signal := Write(disk.(proposal := false), RemoveProposal(ending));
      if signal == Returned {
        signal := Write(disk.(journal := None), RemoveJournal(ending));
      }
      done := signal == Returned;
    }

    /** After the redo, the final reproof: cleanup if it passes, else rollback and then cleanup. */
    method FinishRecovery(passes: bool) returns (exit: Exit)
      requires Valid() && At(Reproof) && disk.journal.Some? && disk.docs == disk.journal.value.after
      modifies this
      ensures Valid() && At(Idle) && old(run) <= run
      ensures exit == (if faults != old(faults) then Interrupted else if passes then CompletedNow else ReproofFailed)
      ensures var called := Disk(Called(old(disk).journal.value, passes), None, false);
              && (exit != Interrupted ==> disk == called)
              && (disk.journal == old(disk).journal || disk == called)
      ensures old(faults) <= faults
    {
      var dies := *;
      if dies {
        faults, deaths := faults + 1, deaths + 1;
        Die();
        return Interrupted;
      }
      if passes {
        ReproofIsNext(run[|run| - 1], RemoveProposal(Recovered));
        Reach(RemoveProposal(Recovered));
        var cleaned := CleanupInputs(Recovered);
        return if cleaned then CompletedNow else Interrupted;
      }
      ReproofIsNext(run[|run| - 1], RollbackLedger);
      Reach(RollbackLedger);
      var undone := RollbackTransaction();
      if !undone {
        return Interrupted;
      }
      var cleaned := CleanupInputs(Refused);
      return if cleaned then ReproofFailed else Interrupted;
    }

    /**
     * One invocation: complete or undo what was interrupted, or accept j. All that is asked of the network comes
     * in as two answers: proved before a new accept, and passes for the final reproof of an interrupted one.
     */
    method Accept(j: Journal, head: string, proved: bool, dryRun: bool, passes: bool) returns (exit: Exit)
      requires Valid() && At(Idle)
      modifies this
      ensures Valid() && At(Idle) && old(run) <= run
      // Whether it refuses or offers depends on what it finds only, and then nothing is written.
      ensures exit == RefusedFirst <==> MustRefuse(old(disk), j, head, proved)
      ensures exit == Offered <==> old(disk).journal.None? && !MustRefuse(old(disk), j, head, proved) && dryRun
      ensures exit in {RefusedFirst, Offered, WriteUndone} ==> disk == old(disk)
      // The files at each other ending.
      ensures exit == AcceptedNow ==> old(disk).journal.None? && disk == Disk(j.after, None, false)
      ensures exit in {CompletedNow, ReproofFailed} ==>
                && old(disk).journal.Some? && passes == (exit == CompletedNow)
                && disk == Disk(Called(old(disk).journal.value, passes), None, false)
      ensures exit == Interrupted ==>
                || disk == old(disk)
                || disk.journal == (if old(disk).journal.Some? then old(disk).journal else Some(j))
                || disk == Disk(if old(disk).journal.Some? then Called(old(disk).journal.value, passes) else j.after, None, false)
      // A journal that was found goes only with the pair its reproof calls for.
      ensures old(disk).journal.Some? && disk.journal.None? ==> disk.docs == Called(old(disk).journal.value, passes)
      // A single write that raises leaves a new accept's files complete: as they were, or accepted.
      ensures old(disk).journal.None? && faults == old(faults) + 1 && deaths == old(deaths) ==>
                disk.docs == old(disk).docs || disk.docs == j.after
      // Only a fault keeps an invocation from the ending it is called to.
      ensures old(faults) <= faults
      ensures faults == old(faults) && old(disk).journal.None? && exit !in {RefusedFirst, Offered} ==> exit == AcceptedNow
      ensures faults == old(faults) && old(disk).journal.Some? && exit != RefusedFirst ==>
                exit == if passes then CompletedNow else ReproofFailed
    {
      NothingElseRefuses(j, head);
      if disk.journal.Some? {
        var matched, redone := RecoverTransaction(head);
        if !redone {
          return if matched then Interrupted else RefusedFirst;
        }
        exit := FinishRecovery(passes);
        return;
      }
      if !proved || !Applicable(disk, j, head) {
        return RefusedFirst;
      }
      if dryRun {
        return Offered;
      }
      exit := WriteTransaction(j);
      if exit == AcceptedNow {
        var cleaned := CleanupInputs(Accepted);
        exit := if cleaned then AcceptedNow else Interrupted;
      }
    }

    /** An interrupted accept is never refused to its own head, and the files always load for a new one. */
    lemma NothingElseRefuses(j: Journal, head: string)
      requires Valid() && At(Idle)
      ensures disk.journal.Some? ==> (Matches(disk, head) <==> head == disk.journal.value.head)
      ensures disk.journal.None? ==> LoaderAccepts(disk.docs)
    {
      AlwaysSafe();
      if disk.journal.Some? {
        RunCanRecover(run);
      }
    }

    /** Whatever writes failed and wherever processes died, the files load or the journal holds what they need. */
    lemma AlwaysSafe()
      requires Valid()
      ensures if disk.journal.None? then LoaderAccepts(disk.docs)
              else Mixed(disk.docs, disk.journal.value)
                   && LoaderAccepts(disk.journal.value.before) && LoaderAccepts(disk.journal.value.after)
    {
      CrashSafety(run, |run| - 1);
    }
  }

  /** The side of the journal a pair of writes installs. */
  function Side(first: Pc, j: Journal): Docs {
    if first == CommitLedger || first == RedoLedger then j.after else j.before
  }

  /** The journal found belongs to this invocation and does not conflict with the files. */
  predicate Matches(disk: Disk, head: string) {
    && disk.journal.Some?
    && var j := disk.journal.value;
       j.head == head && ValidSnapshots(j.before, j.after, j.id, j.head) && Mixed(disk.docs, j)
  }

  /** The proposal is there, the files load, and j, bound to this head, takes them to a valid next pair. */
  predicate Applicable(disk: Disk, j: Journal, head: string) {
    && disk.journal.None? && disk.proposal && LoaderAccepts(disk.docs)
    && j.before == disk.docs && j.head == head && ValidSnapshots(j.before, j.after, j.id, j.head)
  }

  /** Another invocation's journal, or no journal and nothing that may be accepted. */
  predicate MustRefuse(disk: Disk, j: Journal, head: string, proved: bool) {
    if disk.journal.Some? then disk.journal.value.head != head
    else !(proved && disk.proposal && j.before == disk.docs && j.head == head
           && ValidSnapshots(j.before, j.after, j.id, j.head))
  }

  /** The pair a recovery ends with. */
  function Called(j: Journal, passes: bool): Docs {
    if passes then j.after else j.before
  }
}

/** The all-or-nothing writer of the initial feature map, over a directory that can fail. */
module FeatureBatch {
  import opened Wrappers

  const MIN_INITIAL_FEATURES := 1
  const MAX_INITIAL_FEATURES := 5
  const MAX_FEATURE_DOCUMENT_BYTES := 512 * 1024
  const MAX_FEATURE_ROLLBACK_BYTES := 4 * 1024 * 1024

  // One char is one byte.
  type Bytes = string

  /** A prepared contract: its target name and the bytes to install there. */
  datatype Document = Document(name: string, text: Bytes)

  datatype Cause =
    | WrongCount | DuplicatePaths | SnapshotMismatch
    | Oversized | Changed | RollbackCeiling | ChangedWhileReading
    | DeviceError

  /** Incomplete names the targets whose rollback write failed; Aborted is an interrupt in the middle of the rollback. */
  datatype Outcome = Written | RolledBack(cause: Cause) | Incomplete(stuck: set<string>) | Aborted

  /** How an operation ends: an OSError leaves things as they were, an interrupt may come before or after the effect. */
  datatype Ending = Done | Failed | Interrupted

  // ---- what the directory should hold ----

  function Look(files: map<string, Bytes>, name: string): Option<Bytes> {
    if name in files then Some(files[name]) else None
  }

  /** What stands at a name nobody of this batch has installed: a foreign file, or the original. */
  ghost function Base(original: map<string, Bytes>, planted: map<string, Bytes>, name: string): Option<Bytes> {
    if name in planted then Some(planted[name]) else Look(original, name)
  }

  /** Exactly the done targets hold the new text; every other name still holds its base. */
  ghost predicate Standing(files: map<string, Bytes>, original: map<string, Bytes>, planted: map<string, Bytes>,
                           texts: map<string, Bytes>, done: set<string>) {
    && planted.Keys !! original.Keys
    && done <= texts.Keys
    && forall name: string ::
         Look(files, name) == if name in done then Some(texts[name]) else Base(original, planted, name)
  }

  ghost function Texts(prepared: seq<Document>): map<string, Bytes> {
    if prepared == [] then map[]
    else
      var last := prepared[|prepared| - 1];
      Texts(prepared[..|prepared| - 1])[last.name := last.text]
  }

  ghost predicate DistinctNames(prepared: seq<Document>) {
    forall i, j :: 0 <= i < j < |prepared| ==> prepared[i].name != prepared[j].name
  }

  function Names(prepared: seq<Document>): set<string> {
    set i | 0 <= i < |prepared| :: prepared[i].name
  }

  lemma {:induction false} TextAt(prepared: seq<Document>, i: nat)
    requires DistinctNames(prepared) && i < |prepared|
    ensures prepared[i].name in Texts(prepared) && Texts(prepared)[prepared[i].name] == prepared[i].text
  {
    var front := prepared[..|prepared| - 1];
    if i < |front| {
      assert front[i] == prepared[i];
      TextAt(front, i);
    }
  }

  lemma {:induction false} TextKeys(prepared: seq<Document>)
    ensures Texts(prepared).Keys == Names(prepared)
  {
    if prepared != [] {
      var front := prepared[..|prepared| - 1];
      TextKeys(front);
      forall name | name in Names(prepared) ensures name in Texts(prepared) {
        var i :| 0 <= i < |prepared| && prepared[i].name == name;
        if i < |front| {
          assert front[i].name == name;
        }
      }
      forall name | name in Texts(prepared) ensures name in Names(prepared) {
        if name != prepared[|prepared| - 1].name {
          var i :| 0 <= i < |front| && front[i].name == name;
          assert prepared[i].name == name;
        }
      }
    }
  }

  // ---- how one operation moves it ----

  lemma StandingAtStart(files: map<string, Bytes>, texts: map<string, Bytes>)
    ensures Standing(files, files, map[], texts, {})
  {
  }

  /** Foreign files appear only at free names, and then become the base there. */
  lemma StandingPlanted(files: map<string, Bytes>, original: map<string, Bytes>, planted: map<string, Bytes>,
                        texts: map<string, Bytes>, done: set<string>, extra: map<string, Bytes>)
    requires Standing(files, original, planted, texts, done)
    requires extra.Keys !! files.Keys
    ensures Standing(files + extra, original, planted + extra, texts, done)
  {
    forall name | name in extra
      ensures name !in original
    {
      assert Look(files, name) == None;
    }
    forall name: string
      ensures Look(files + extra, name)
           == if name in done then Some(texts[name]) else Base(original, planted + extra, name)
    {
      assert Look(files, name) == if name in done then Some(texts[name]) else Base(original, planted, name);
    }
  }

  lemma StandingInstalled(files: map<string, Bytes>, original: map<string, Bytes>, planted: map<string, Bytes>,
                          texts: map<string, Bytes>, done: set<string>, name: string)
    requires Standing(files, original, planted, texts, done)
    requires name in texts
    ensures Standing(files[name := texts[name]], original, planted, texts, done + {name})
  {
    forall other: string
      ensures Look(files[name := texts[name]], other)
           == if other in done + {name} then Some(texts[other]) else Base(original, planted, other)
    {
      assert Look(files, other) == if other in done then Some(texts[other]) else Base(original, planted, other);
    }
  }

  lemma StandingUndone(files: map<string, Bytes>, original: map<string, Bytes>, planted: map<string, Bytes>,
                       texts: map<string, Bytes>, done: set<string>, name: string)
    requires Standing(files, original, planted, texts, done)
    requires name in done
    ensures var base := Base(original, planted, name);
            Standing(if base.Some? then files[name := base.value] else files - {name},
                     original, planted, texts, done - {name})
  {
    var base := Base(original, planted, name);
    var restored := if base.Some? then files[name := base.value] else files - {name};
    forall other: string
      ensures Look(restored, other)
           == if other in done - {name} then Some(texts[other]) else Base(original, planted, other)
    {
      assert Look(files, other) == if other in done then Some(texts[other]) else Base(original, planted, other);
    }
  }

  // ---- the directory and its fallible operations ----

  /** The only change to the temporaries is that new ones, from bound on, were left over. */
  ghost predicate OnlyLitter(stages0: map<nat, Bytes>, litter0: set<nat>, stages1: map<nat, Bytes>, litter1: set<nat>,
                             bound: nat) {
    && litter0 <= litter1
    && (forall k :: k in litter1 && k !in litter0 ==> bound <= k)
    && (forall k :: k in stages0 ==> k in stages1 && stages1[k] == stages0[k])
    && forall k :: k in stages1 ==> k in stages0 || k in litter1
  }

  lemma PlantedTwice(files: map<string, Bytes>, first: map<string, Bytes>, second: map<string, Bytes>)
    ensures files + first + second == files + (first + second)
  {
  }

  /** What the staging loop refuses at one target, after reading it twice. */
  function Refusal(current: Option<Bytes>, again: Option<Bytes>, expected: Option<Bytes>, rollbackBytes: int): Option<Cause> {
    if current.Some? && |current.value| > MAX_FEATURE_DOCUMENT_BYTES then Some(Oversized)
    else if current != expected then Some(Changed)
    else if current.None? then None
    else
      var remaining := MAX_FEATURE_ROLLBACK_BYTES - rollbackBytes;
      var limit := if MAX_FEATURE_DOCUMENT_BYTES <= remaining then MAX_FEATURE_DOCUMENT_BYTES else remaining;
      if remaining <= 0 then Some(RollbackCeiling)
      else if again.Some? && |again.value| > limit then Some(RollbackCeiling)
      else if again != current then Some(ChangedWhileReading)
      else None
  }

  /** A target may be staged exactly when it is as expected, read twice alike, and within both bounds on snapshots. */
  lemma RefusalExactly(current: Option<Bytes>, again: Option<Bytes>, expected: Option<Bytes>, rollbackBytes: nat)
    ensures var refusal := Refusal(current, again, expected, rollbackBytes);
            var oversized := current.Some? && |current.value| > 524_288;
            var full := rollbackBytes >= 4_194_304
                        || (again.Some? && (|again.value| > 524_288 || rollbackBytes + |again.value| > 4_194_304));
            && (refusal == Some(Oversized) <==> oversized)
            && (refusal == Some(Changed) <==> !oversized && current != expected)
            && (refusal == Some(RollbackCeiling) <==> !oversized && current == expected && current.Some? && full)
            && (refusal.None? <==>
                  && !oversized && current == expected && (current.Some? ==> again == current && !full))
  {
  }

  /** The originals recorded for the first count targets are what must be put back there. */
  ghost predicate Recorded(prepared: seq<Document>, originals: map<string, Option<Bytes>>,
                           original: map<string, Bytes>, planted: map<string, Bytes>, count: nat) {
    && count <= |prepared|
    && forall i :: 0 <= i < count ==>
         && prepared[i].name in originals
         && (originals[prepared[i].name].Some? ==> originals[prepared[i].name] == Base(original, planted, prepared[i].name))
  }

  /** The first count targets were found as expected, within the document limit. */
  ghost predicate Matched(prepared: seq<Document>, expected: map<string, Option<Bytes>>,
                          originals: map<string, Option<Bytes>>, count: nat) {
    && count <= |prepared|
    && forall i :: 0 <= i < count ==>
         && prepared[i].name in expected && prepared[i].name in originals
         && expected[prepared[i].name] == originals[prepared[i].name]
         && (expected[prepared[i].name].Some? ==> |expected[prepared[i].name].value| <= MAX_FEATURE_DOCUMENT_BYTES)
  }

  /** Every target stands as expected and within the limit, and nobody else created one. */
  ghost predicate Agrees(prepared: seq<Document>, expected: map<string, Option<Bytes>>,
                         original: map<string, Bytes>, planted: map<string, Bytes>) {
    forall i :: 0 <= i < |prepared| ==>
      && prepared[i].name !in planted
      && prepared[i].name in expected && expected[prepared[i].name] == Look(original, prepared[i].name)
      && (expected[prepared[i].name].Some? ==> |expected[prepared[i].name].value| <= MAX_FEATURE_DOCUMENT_BYTES)
  }

  ghost predicate FoundAsExpected(prepared: seq<Document>, expected: map<string, Option<Bytes>>,
                                  original: map<string, Bytes>, planted: map<string, Bytes>) {
    forall i :: 0 <= i < |prepared| ==>
      && prepared[i].name in expected
      && expected[prepared[i].name] == Base(original, planted, prepared[i].name)
  }

  ghost predicate WellFormed(prepared: seq<Document>, expected: map<string, Option<Bytes>>) {
    && MIN_INITIAL_FEATURES <= |prepared| <= MAX_INITIAL_FEATURES
    && DistinctNames(prepared)
    && expected.Keys == Names(prepared)
  }

  /** No create-only target was expected to exist already. */
  ghost predicate Allowed(prepared: seq<Document>, expected: map<string, Option<Bytes>>, overwrite: bool, count: nat) {
    && count <= |prepared|
    && forall i :: 0 <= i < count ==>
         && prepared[i].name in expected
         && (expected[prepared[i].name].Some? ==> overwrite)
  }

  /** The temporaries are the old ones, the leftovers, and the stages not yet consumed; those from `from` on hold their text. */
  ghost predicate Staged(stages: map<nat, Bytes>, stages0: map<nat, Bytes>, litter: set<nat>, bound: nat,
                         prepared: seq<Document>, slots: seq<nat>, from: nat) {
    && |slots| <= |prepared|
    && (forall k :: k in stages0 ==> k in stages && stages[k] == stages0[k])
    && (forall k :: k in stages ==> k in stages0 || k in litter || k in slots)
    && litter !! stages0.Keys
    && (forall j :: 0 <= j < |slots| ==> slots[j] !in stages0 && slots[j] !in litter && slots[j] < bound)
    && (forall j :: from <= j < |slots| ==> slots[j] in stages && stages[slots[j]] == prepared[j].text)
    && forall i, j :: 0 <= i < j < |slots| ==> slots[i] < slots[j]
  }

  /** What was recorded stays right when other programs create files. */
  lemma RecordedPlanted(files: map<string, Bytes>, original: map<string, Bytes>, planted: map<string, Bytes>,
                        texts: map<string, Bytes>, done: set<string>, extra: map<string, Bytes>,
                        prepared: seq<Document>, originals: map<string, Option<Bytes>>, count: nat)
    requires Standing(files, original, planted, texts, done)
    requires extra.Keys !! files.Keys
    requires Recorded(prepared, originals, original, planted, count)
    ensures Recorded(prepared, originals, original, planted + extra, count)
  {
    forall i | 0 <= i < count && originals[prepared[i].name].Some?
      ensures originals[prepared[i].name] == Base(original, planted + extra, prepared[i].name)
    {
      var name := prepared[i].name;
      assert Look(files, name) == if name in done then Some(texts[name]) else Base(original, planted, name);
    }
  }

  lemma RecordedOneMore(prepared: seq<Document>, originals: map<string, Option<Bytes>>, original: map<string, Bytes>,
                        planted: map<string, Bytes>, count: nat, current: Option<Bytes>)
    requires DistinctNames(prepared) && count < |prepared|
    requires Recorded(prepared, originals, original, planted, count)
    requires current == Base(original, planted, prepared[count].name)
    ensures Recorded(prepared, originals[prepared[count].name := current], original, planted, count + 1)
  {
  }

  lemma MatchedOneMore(prepared: seq<Document>, expected: map<string, Option<Bytes>>,
                       originals: map<string, Option<Bytes>>, count: nat, current: Option<Bytes>)
    requires DistinctNames(prepared) && count < |prepared|
    requires Matched(prepared, expected, originals, count)
    requires prepared[count].name in expected && expected[prepared[count].name] == current
    requires current.Some? ==> |current.value| <= MAX_FEATURE_DOCUMENT_BYTES
    ensures Matched(prepared, expected, originals[prepared[count].name := current], count + 1)
  {
  }

  lemma StagedOneMore(stages: map<nat, Bytes>, stages0: map<nat, Bytes>, litter: set<nat>, slot: nat,
                      prepared: seq<Document>, slots: seq<nat>)
    requires Staged(stages, stages0, litter, slot, prepared, slots, 0) && |slots| < |prepared|
    requires (forall k :: k in stages ==> k < slot) && litter <= stages.Keys
    ensures Staged(stages[slot := prepared[|slots|].text], stages0, litter, slot + 1, prepared, slots + [slot], 0)
  {
  }

  lemma StagedLittered(stages: map<nat, Bytes>, stages0: map<nat, Bytes>, litter: set<nat>, bound: nat,
                       prepared: seq<Document>, slots: seq<nat>, from: nat,
                       stages1: map<nat, Bytes>, litter1: set<nat>, bound1: nat)
    requires Staged(stages, stages0, litter, bound, prepared, slots, from)
    requires OnlyLitter(stages, litter, stages1, litter1, bound) && bound <= bound1
    requires forall k :: k in stages ==> k < bound
    ensures Staged(stages1, stages0, litter1, bound1, prepared, slots, from)
  {
  }

  lemma StagedLater(stages: map<nat, Bytes>, stages0: map<nat, Bytes>, litter: set<nat>, bound: nat,
                    prepared: seq<Document>, slots: seq<nat>, from: nat, bound1: nat)
    requires Staged(stages, stages0, litter, bound, prepared, slots, from) && bound <= bound1
    ensures Staged(stages, stages0, litter, bound1, prepared, slots, from)
  {
  }

  lemma DisagreementStays(prepared: seq<Document>, expected: map<string, Option<Bytes>>,
                          original: map<string, Bytes>, planted: map<string, Bytes>, extra: map<string, Bytes>)
    ensures Agrees(prepared, expected, original, planted + extra) ==> Agrees(prepared, expected, original, planted)
  {
  }

  lemma RefusalDisagrees(files: map<string, Bytes>, original: map<string, Bytes>, planted: map<string, Bytes>,
                         texts: map<string, Bytes>, prepared: seq<Document>, expected: map<string, Option<Bytes>>, i: nat)
    requires Standing(files, original, planted, texts, {})
    requires i < |prepared| && prepared[i].name in expected
    requires var current := Look(files, prepared[i].name);
             current != expected[prepared[i].name]
             || (current.Some? && |current.value| > MAX_FEATURE_DOCUMENT_BYTES)
    ensures !Agrees(prepared, expected, original, planted)
  {
    assert Look(files, prepared[i].name) == Base(original, planted, prepared[i].name);
  }

  /** Below count, the recorded originals are exactly what stood there. */
  ghost predicate Exact(prepared: seq<Document>, originals: map<string, Option<Bytes>>,
                        original: map<string, Bytes>, planted: map<string, Bytes>, count: nat) {
    && count <= |prepared|
    && forall i :: 0 <= i < count ==>
         && prepared[i].name in originals
         && originals[prepared[i].name] == Base(original, planted, prepared[i].name)
  }

  lemma NamesNext(prepared: seq<Document>, count: nat)
    requires DistinctNames(prepared) && count < |prepared|
    ensures Names(prepared[..count + 1]) == Names(prepared[..count]) + {prepared[count].name}
    ensures prepared[count].name !in Names(prepared[..count])
  {
    var longer := prepared[..count + 1];
    forall name | name in Names(prepared[..count]) + {prepared[count].name} ensures name in Names(longer) {
      if name == prepared[count].name {
        assert longer[count].name == name;
      } else {
        var i :| 0 <= i < count && prepared[..count][i].name == name;
        assert longer[i].name == name;
      }
    }
    forall name | name in Names(longer) ensures name in Names(prepared[..count]) + {prepared[count].name} {
      var i :| 0 <= i < count + 1 && longer[i].name == name;
      if i < count {
        assert prepared[..count][i].name == name;
      }
    }
  }

  lemma ExactPlanted(files: map<string, Bytes>, original: map<string, Bytes>, planted: map<string, Bytes>,
                     texts: map<string, Bytes>, done: set<string>, extra: map<string, Bytes>,
                     prepared: seq<Document>, originals: map<string, Option<Bytes>>, count: nat)
    requires Standing(files, original, planted, texts, done)
    requires extra.Keys !! files.Keys
    requires Exact(prepared, originals, original, planted, count) && Names(prepared[..count]) <= done
    ensures Exact(prepared, originals, original, planted + extra, count)
  {
    forall i | 0 <= i < count
      ensures originals[prepared[i].name] == Base(original, planted + extra, prepared[i].name)
    {
      var name := prepared[i].name;
      assert prepared[..count][i].name == name;
      assert Look(files, name) == Some(texts[name]);
    }
  }

  lemma StagedConsumed(stages: map<nat, Bytes>, stages0: map<nat, Bytes>, litter: set<nat>, bound: nat,
                       prepared: seq<Document>, slots: seq<nat>, from: nat)
    requires Staged(stages, stages0, litter, bound, prepared, slots, from) && from < |slots|
    ensures Staged(stages, stages0, litter, bound, prepared, slots, from + 1)
    ensures Staged(stages - {slots[from]}, stages0, litter, bound, prepared, slots, from + 1)
  {
  }

  lemma AtMostOne(names: set<string>, name: string)
    requires names <= {name}
    ensures |names| <= 1
  {
    if names != {} {
      assert names == {name};
    }
  }

  /** The feature directory under the map lock; other programs may still create files at free names. */
  class FeatureDirectory {
    var files: map<string, Bytes>
    var stages: map<nat, Bytes>
    var nextStage: nat
    // Since the current write began: files other programs created, errors and interrupts, temporaries left over,
    // and the target, if any, whose install raised after it had taken effect.
    ghost var planted: map<string, Bytes>
    ghost var faults: nat
    ghost var litter: set<nat>
    ghost var spills: nat // how many temporaries could not be unlinked, or were not yet on record to be
    ghost var late: set<string>

    ghost predicate Valid()
      reads this`stages, this`nextStage, this`litter, this`spills
    {
      && (forall k :: k in stages ==> k < nextStage)
      && litter <= stages.Keys
      && (spills == 0 ==> litter == {})
    }

    /** Other programs create any number of files at names that are free. */
    method Disturb() returns (ghost extra: map<string, Bytes>)
      modifies this`files, this`planted
      ensures extra.Keys !! old(files).Keys
      ensures files == old(files) + extra && planted == old(planted) + extra
    {
      var created: map<string, Bytes> := *;
      created := created - files.Keys;
      files := files + created;
      planted := planted + created;
      extra := created;
    }

    /** Any operation may hit a device error. */
    method Fault() returns (fails: bool)
      modifies this`faults
      ensures faults == old(faults) + if fails then 1 else 0
    {
      fails := *;
      if fails {
        faults := faults + 1;
      }
    }

    /** Any operation may also be interrupted. */
    method Strike() returns (ending: Ending)
      modifies this`faults
      ensures faults == old(faults) + if ending.Done? then 0 else 1
    {
      ending := *;
      if !ending.Done? {
        faults := faults + 1;
      }
    }

    /** Writes a uniquely named temporary file; a failed write removes it, unless that fails or it was not on record yet. */
    method MakeTemporary(data: Bytes) returns (ending: Ending, slot: nat, ghost extra: map<string, Bytes>)
      requires Valid()
      modifies this`files, this`planted, this`faults, this`stages, this`nextStage, this`litter, this`spills
      ensures Valid() && extra.Keys !! old(files).Keys
      ensures files == old(files) + extra && planted == old(planted) + extra
      ensures old(nextStage) == slot < nextStage
      ensures ending.Done? ==> stages == old(stages)[slot := data] && litter == old(litter) && faults == old(faults)
      ensures !ending.Done? ==> old(faults) < faults && OnlyLitter(old(stages), old(litter), stages, litter, old(nextStage))
    {
      extra := Disturb();
      slot := nextStage;
      nextStage := nextStage + 1;
      ending := Strike();
      if ending.Done? {
        stages := stages[slot := data];
        return;
      }
      var stays := Fault();
      if stays {
        var partial: Bytes := *;
        stages := stages[slot := partial];
        litter, spills := litter + {slot}, spills + 1;
      }
    }

    /** Renames a temporary over a target, atomically. */
    method Replace(slot: nat, name: string) returns (ending: Ending, ghost took: bool, ghost extra: map<string, Bytes>)
      requires Valid() && slot in stages && slot !in litter
      modifies this`files, this`stages, this`planted, this`faults
      ensures Valid() && extra.Keys !! old(files).Keys && planted == old(planted) + extra
      ensures files == if took then (old(files) + extra)[name := old(stages)[slot]] else old(files) + extra
      ensures stages == if took then old(stages) - {slot} else old(stages)
      ensures faults == old(faults) + if ending.Done? then 0 else 1
      ensures (ending.Done? ==> took) && (ending.Failed? ==> !took)
    {
      extra := Disturb();
      ending := Strike();
      var effect: bool := *;
      took := ending.Done? || (ending.Interrupted? && effect);
      if ending.Done? || (ending.Interrupted? && effect) {
        files := files[name := stages[slot]];
        stages := stages - {slot};
      }
    }

    /** Links a temporary to a target that must not exist yet; a taken name is left alone. */
    method Link(slot: nat, name: string) returns (ending: Ending, ghost took: bool, ghost extra: map<string, Bytes>)
      requires slot in stages
      modifies this`files, this`planted, this`faults
      ensures extra.Keys !! old(files).Keys && planted == old(planted) + extra
      ensures files == if took then (old(files) + extra)[name := stages[slot]] else old(files) + extra
      ensures took ==> name !in old(files) + extra
      ensures ending.Done? ==> took && faults == old(faults)
      ensures !ending.Done? ==> name in old(files) + extra || old(faults) < faults
      ensures old(faults) <= faults && (took && !ending.Done? ==> old(faults) < faults)
    {
      extra := Disturb();
      took := false;
      if name in files {
        return Failed, took, extra;
      }
      ending := Strike();
      var effect: bool := *;
      if ending.Done? || (ending.Interrupted? && effect) {
        took := true;
        files := files[name := stages[slot]];
      }
    }

    /** Over an existing file only when told to; otherwise the link refuses a taken name. */
    method InstallFile(slot: nat, name: string, replaceExisting: bool)
      returns (ending: Ending, ghost took: bool, ghost extra: map<string, Bytes>)
      requires Valid() && slot in stages && slot !in litter
      modifies this`files, this`stages, this`planted, this`faults
      ensures Valid() && extra.Keys !! old(files).Keys && planted == old(planted) + extra
      ensures files == if took then (old(files) + extra)[name := old(stages)[slot]] else old(files) + extra
      ensures stages == old(stages) || (took && stages == old(stages) - {slot})
      ensures took && !replaceExisting ==> name !in old(files) + extra
      ensures ending.Done? ==> took
      ensures old(faults) <= faults && (took && !ending.Done? ==> old(faults) < faults)
      ensures !ending.Done? ==> old(faults) < faults || (!replaceExisting && name in old(files) + extra)
    {
      if replaceExisting {
        ending, took, extra := Replace(slot, name);
      } else {
        ending, took, extra := Link(slot, name);
      }
    }

    /** Unlinks a target, or finds nothing there. */
    method Remove(name: string) returns (ending: Ending, ghost took: bool, ghost extra: map<string, Bytes>)
      modifies this`files, this`planted, this`faults
      ensures extra.Keys !! old(files).Keys && planted == old(planted) + extra
      ensures files == if took then (old(files) + extra) - {name} else old(files) + extra
      ensures faults == old(faults) + if ending.Done? then 0 else 1
      ensures (ending.Done? ==> took) && (ending.Failed? ==> !took)
    {
      extra := Disturb();
      ending := Strike();
      var effect: bool := *;
      took := false;
      if ending.Done? || (ending.Interrupted? && effect) {
        took := true;
        files := files - {name};
      }
    }

    /** Unlinks a temporary, or finds it already renamed away. */
    method RemoveTemporary(slot: nat) returns (ok: bool)
      requires Valid() && slot !in litter
      modifies this`stages, this`faults, this`litter, this`spills
      ensures Valid()
      ensures faults == old(faults) + if ok then 0 else 1
      ensures ok ==> stages == old(stages) - {slot} && litter == old(litter)
      ensures !ok ==> litter == old(litter) + ({slot} * stages.Keys) && 0 < spills
      ensures !ok ==> stages == old(stages) || stages == old(stages) - {slot}
    {
      var ending := Strike();
      var effect: bool := *;
      if ending.Done? || (ending.Interrupted? && effect) {
        stages := stages - {slot};
      }
      ok := ending.Done?;
      if !ok {
        litter, spills := litter + ({slot} * stages.Keys), spills + 1;
      }
    }

    /** Puts the original bytes back through a temporary of its own. */
    method Restore(name: string, data: Bytes) returns (ending: Ending, ghost took: bool, ghost extra: map<string, Bytes>)
      requires Valid()
      modifies this`files, this`planted, this`faults, this`stages, this`nextStage, this`litter, this`spills
      ensures Valid() && extra.Keys !! old(files).Keys && planted == old(planted) + extra
      ensures files == if took then (old(files) + extra)[name := data] else old(files) + extra
      ensures ending.Done? ==> faults == old(faults)
      ensures !ending.Done? ==> old(faults) < faults
      ensures (ending.Done? ==> took) && (ending.Failed? ==> !took)
      ensures old(nextStage) <= nextStage && OnlyLitter(old(stages), old(litter), stages, litter, old(nextStage))
    {
      var slot;
      took := false;
      ending, slot, extra := MakeTemporary(data);
      if !ending.Done? {
        return;
      }
      assert slot !in old(stages) && slot !in litter;
      ghost var more;
      ending, took, more := Replace(slot, name);
      PlantedTwice(old(files), extra, more);
      PlantedTwice(old(planted), extra, more);
      extra := extra + more;
      if !ending.Done? {
        var _ := RemoveTemporary(slot);
      }
    }

    // ---- the write itself ----

    /** Reads one target twice, the second time as the rollback snapshot. */
    method Snapshot(name: string, expected: Option<Bytes>, rollbackBytes: nat)
      returns (cause: Option<Cause>, current: Option<Bytes>, ghost extra: map<string, Bytes>)
      requires rollbackBytes <= 4 * MAX_FEATURE_DOCUMENT_BYTES
      modifies this`files, this`planted
      ensures extra.Keys !! old(files).Keys
      ensures files == old(files) + extra && planted == old(planted) + extra
      ensures cause.None? ==> current == expected == Look(files, name)
                              && (current.Some? ==> |current.value| <= MAX_FEATURE_DOCUMENT_BYTES)
      ensures cause.Some? ==> cause.value in {Oversized, Changed}
      ensures cause.Some? ==> var now := Look(files, name);
                              now != expected || (now.Some? && |now.value| > MAX_FEATURE_DOCUMENT_BYTES)
    {
      extra := Disturb();
      current := Look(files, name);
      if current.Some? {
        ghost var more := Disturb();
        PlantedTwice(old(files), extra, more);
        PlantedTwice(old(planted), extra, more);
        extra := extra + more;
      }
      cause := Refusal(current, Look(files, name), expected, rollbackBytes);
    }

    /** Every target is still untouched, and what has been recorded and staged so far is right. */
    ghost predicate Staging(prepared: seq<Document>, expected: map<string, Option<Bytes>>,
                            original: map<string, Bytes>, texts: map<string, Bytes>, stages0: map<nat, Bytes>,
                            originals: map<string, Option<Bytes>>, slots: seq<nat>)
      reads this`files, this`planted, this`stages, this`nextStage, this`litter, this`spills, this`late
    {
      && Valid()
      && late == {}
      && Standing(files, original, planted, texts, {})
      && Staged(stages, stages0, litter, nextStage, prepared, slots, 0)
      && Recorded(prepared, originals, original, planted, |slots|)
      && Matched(prepared, expected, originals, |slots|)
    }

    /** Snapshots the next target. */
    method Record(prepared: seq<Document>, expected: map<string, Option<Bytes>>, rollbackBytes: nat,
                  originals: map<string, Option<Bytes>>, slots: seq<nat>,
                  ghost original: map<string, Bytes>, ghost texts: map<string, Bytes>, ghost stages0: map<nat, Bytes>)
      returns (cause: Option<Cause>, recorded: map<string, Option<Bytes>>, size: nat)
      requires DistinctNames(prepared) && expected.Keys == Names(prepared) && |slots| < |prepared|
      requires rollbackBytes <= 4 * MAX_FEATURE_DOCUMENT_BYTES
      requires Staging(prepared, expected, original, texts, stages0, originals, slots)
      modifies this`files, this`planted, this`faults
      ensures Staging(prepared, expected, original, texts, stages0, if cause.None? then recorded else originals, slots)
      ensures old(faults) <= faults
      ensures cause.None? ==> Recorded(prepared, recorded, original, planted, |slots| + 1)
                              && Matched(prepared, expected, recorded, |slots| + 1)
      ensures cause.Some? ==> cause.value in {Oversized, Changed, DeviceError}
      ensures cause.Some? ==> old(faults) < faults || !Agrees(prepared, expected, original, planted)
      ensures rollbackBytes <= size <= rollbackBytes + MAX_FEATURE_DOCUMENT_BYTES
    {
      recorded, size := originals, rollbackBytes;
      var unreadable := Fault();
      if unreadable {
        return Some(DeviceError), recorded, size;
      }
      ghost var i := |slots|;
      ghost var files1, planted1 := files, planted;
      var current;
      ghost var extra;
      var name := prepared[|slots|].name;
      assert name in Names(prepared);
      cause, current, extra := Snapshot(name, expected[name], rollbackBytes);
      StandingPlanted(files1, original, planted1, texts, {}, extra);
      RecordedPlanted(files1, original, planted1, texts, {}, extra, prepared, originals, i);
      DisagreementStays(prepared, expected, original, planted1, extra);
      if cause.Some? {
        RefusalDisagrees(files, original, planted, texts, prepared, expected, i);
        return;
      }
      assert Look(files, name) == Base(original, planted, name);
      RecordedOneMore(prepared, originals, original, planted, i, current);
      MatchedOneMore(prepared, expected, originals, i, current);
      recorded := originals[name := current];
      size := rollbackBytes + if current.Some? then |current.value| else 0;
    }

    /** Stages the text of the next target. */
    method Stage(prepared: seq<Document>, expected: map<string, Option<Bytes>>,
                 originals: map<string, Option<Bytes>>, slots: seq<nat>,
                 ghost original: map<string, Bytes>, ghost texts: map<string, Bytes>, ghost stages0: map<nat, Bytes>)
      returns (cause: Option<Cause>, longer: seq<nat>)
      requires |slots| < |prepared|
      requires Staging(prepared, expected, original, texts, stages0, originals, slots)
      requires Recorded(prepared, originals, original, planted, |slots| + 1)
      requires Matched(prepared, expected, originals, |slots| + 1)
      modifies this
      ensures Staging(prepared, expected, original, texts, stages0, originals, longer)
      ensures old(faults) <= faults
      ensures cause.None? ==> |longer| == |slots| + 1
      ensures cause.Some? ==> cause.value == DeviceError && old(faults) < faults
    {
      longer := slots;
      var ending, slot;
      ghost var extra;
      ending, slot, extra := MakeTemporary(prepared[|slots|].text);
      StandingPlanted(old(files), original, old(planted), texts, {}, extra);
      RecordedPlanted(old(files), original, old(planted), texts, {}, extra, prepared, originals, |slots| + 1);
      if !ending.Done? {
        StagedLittered(old(stages), stages0, old(litter), old(nextStage), prepared, slots, 0, stages, litter, nextStage);
        return Some(DeviceError), longer;
      }
      StagedOneMore(old(stages), stages0, litter, slot, prepared, slots);
      StagedLater(stages, stages0, litter, slot + 1, prepared, slots + [slot], 0, nextStage);
      longer := slots + [slot];
      cause := None;
    }

    method StageNext(prepared: seq<Document>, expected: map<string, Option<Bytes>>, rollbackBytes: nat,
                     originals: map<string, Option<Bytes>>, slots: seq<nat>,
                     ghost original: map<string, Bytes>, ghost texts: map<string, Bytes>, ghost stages0: map<nat, Bytes>)
      returns (cause: Option<Cause>, recorded: map<string, Option<Bytes>>, longer: seq<nat>, size: nat)
      requires DistinctNames(prepared) && expected.Keys == Names(prepared) && |slots| < |prepared|
      requires rollbackBytes <= 4 * MAX_FEATURE_DOCUMENT_BYTES
      requires Staging(prepared, expected, original, texts, stages0, originals, slots)
      modifies this
      ensures Staging(prepared, expected, original, texts, stages0, recorded, longer)
      ensures old(faults) <= faults
      ensures cause.None? ==> |longer| == |slots| + 1 && size <= rollbackBytes + MAX_FEATURE_DOCUMENT_BYTES
      ensures cause.Some? ==> cause.value in {Oversized, Changed, DeviceError}
      ensures cause.Some? ==> old(faults) < faults || !Agrees(prepared, expected, original, planted)
    {
      longer := slots;
      cause, recorded, size := Record(prepared, expected, rollbackBytes, originals, slots, original, texts, stages0);
      if cause.Some? {
        recorded := originals;
        return;
      }
      cause, longer := Stage(prepared, expected, recorded, slots, original, texts, stages0);
    }

    /** Compares and snapshots each target, then stages its new text. */
    method StageAll(prepared: seq<Document>, expected: map<string, Option<Bytes>>,
                    ghost original: map<string, Bytes>, ghost texts: map<string, Bytes>, ghost stages0: map<nat, Bytes>)
      returns (cause: Option<Cause>, originals: map<string, Option<Bytes>>, slots: seq<nat>)
      requires Valid() && stages == stages0 && litter == {} && late == {}
      requires |prepared| <= MAX_INITIAL_FEATURES && DistinctNames(prepared) && expected.Keys == Names(prepared)
      requires Standing(files, original, planted, texts, {})
      modifies this
      ensures Staging(prepared, expected, original, texts, stages0, originals, slots)
      ensures old(faults) <= faults
      ensures cause.None? ==> |slots| == |prepared|
      ensures cause.Some? ==> cause.value in {Oversized, Changed, DeviceError}
      ensures cause.Some? ==> old(faults) < faults || !Agrees(prepared, expected, original, planted)
    {
      cause, originals, slots := None, map[], [];
      var rollbackBytes: nat := 0;
      while |slots| < |prepared| && cause.None?
        invariant Staging(prepared, expected, original, texts, stages0, originals, slots)
        invariant old(faults) <= faults
        invariant cause.None? ==> rollbackBytes <= |slots| * MAX_FEATURE_DOCUMENT_BYTES
        invariant cause.Some? ==> cause.value in {Oversized, Changed, DeviceError}
        invariant cause.Some? ==> old(faults) < faults || !Agrees(prepared, expected, original, planted)
        decreases cause.None?, |prepared| - |slots|
      {
        cause, originals, slots, rollbackBytes :=
          StageNext(prepared, expected, rollbackBytes, originals, slots, original, texts, stages0);
      }
    }

    /** The first count targets are installed, and every original is on record for putting back. */
    ghost predicate Installing(prepared: seq<Document>, original: map<string, Bytes>, texts: map<string, Bytes>,
                               stages0: map<nat, Bytes>, originals: map<string, Option<Bytes>>, slots: seq<nat>, count: nat)
      reads this`files, this`planted, this`stages, this`nextStage, this`litter, this`spills, this`late
    {
      && Valid()
      && late == {}
      && count <= |prepared| == |slots|
      && Standing(files, original, planted, texts, Names(prepared[..count]))
      && Staged(stages, stages0, litter, nextStage, prepared, slots, count)
      && Recorded(prepared, originals, original, planted, |prepared|)
      && Exact(prepared, originals, original, planted, count)
    }

    /** Installs the next target: over an expected file when allowed, else only at a free name. */
    method InstallOne(prepared: seq<Document>, expected: map<string, Option<Bytes>>, overwrite: bool,
                      originals: map<string, Option<Bytes>>, slots: seq<nat>, count: nat,
                      ghost original: map<string, Bytes>, ghost texts: map<string, Bytes>, ghost stages0: map<nat, Bytes>)
      returns (ok: bool)
      requires DistinctNames(prepared) && texts == Texts(prepared) && count < |prepared|
      requires Installing(prepared, original, texts, stages0, originals, slots, count)
      requires Matched(prepared, expected, originals, |prepared|)
      modifies this
      ensures ok ==> Installing(prepared, original, texts, stages0, originals, slots, count + 1)
      ensures !ok ==> RollingBack(prepared, original, texts, stages0, originals, slots, count, {})
      ensures !ok ==> late <= {prepared[count].name} && (late != {} ==> old(faults) < faults)
      ensures old(faults) <= faults
      ensures ok ==> (expected[prepared[count].name].Some? ==> overwrite)
      ensures !ok ==> old(faults) < faults || !Agrees(prepared, expected, original, planted)
                      || (expected[prepared[count].name].Some? && !overwrite)
    {
      var name := prepared[count].name;
      var ending;
      ghost var took, extra;
      ending, took, extra := InstallFile(slots[count], name, expected[name].Some? && overwrite);
      ok := ending.Done?;
      InstalledOr(old(files), old(planted), original, texts, prepared, originals, count, extra, took);
      if ok {
        StagedConsumed(old(stages), stages0, litter, nextStage, prepared, slots, count);
        NowInstalled(prepared, original, texts, stages0, originals, slots, count);
      } else {
        if took {
          late := {name};
          StagedConsumed(old(stages), stages0, litter, nextStage, prepared, slots, count);
        }
        NowFailed(prepared, original, texts, stages0, originals, slots, count);
      }
    }

    lemma NowInstalled(prepared: seq<Document>, original: map<string, Bytes>, texts: map<string, Bytes>,
                       stages0: map<nat, Bytes>, originals: map<string, Option<Bytes>>, slots: seq<nat>, count: nat)
      requires DistinctNames(prepared) && count < |prepared| == |slots| && Valid() && late == {}
      requires Standing(files, original, planted, texts, Names(prepared[..count]) + {prepared[count].name})
      requires Staged(stages, stages0, litter, nextStage, prepared, slots, count + 1)
      requires Recorded(prepared, originals, original, planted, |prepared|)
      requires Exact(prepared, originals, original, planted, count)
      requires originals[prepared[count].name] == Base(original, planted, prepared[count].name)
      ensures Installing(prepared, original, texts, stages0, originals, slots, count + 1)
    {
      NamesNext(prepared, count);
    }

    lemma NowFailed(prepared: seq<Document>, original: map<string, Bytes>, texts: map<string, Bytes>,
                    stages0: map<nat, Bytes>, originals: map<string, Option<Bytes>>, slots: seq<nat>, count: nat)
      requires DistinctNames(prepared) && count < |prepared| == |slots| && Valid()
      requires late <= {prepared[count].name}
      requires Standing(files, original, planted, texts, Names(prepared[..count]) + late)
      requires Staged(stages, stages0, litter, nextStage, prepared, slots, count)
               || Staged(stages, stages0, litter, nextStage, prepared, slots, count + 1)
      requires Exact(prepared, originals, original, planted, count)
      ensures RollingBack(prepared, original, texts, stages0, originals, slots, count, {})
    {
      NamesNext(prepared, count);
      assert {} + late == late;
    }

    lemma InstalledOr(files0: map<string, Bytes>, planted0: map<string, Bytes>, original: map<string, Bytes>,
                      texts: map<string, Bytes>, prepared: seq<Document>, originals: map<string, Option<Bytes>>,
                      count: nat, extra: map<string, Bytes>, took: bool)
      requires DistinctNames(prepared) && texts == Texts(prepared) && count < |prepared|
      requires Standing(files0, original, planted0, texts, Names(prepared[..count]))
      requires Recorded(prepared, originals, original, planted0, |prepared|)
      requires Exact(prepared, originals, original, planted0, count)
      requires extra.Keys !! files0.Keys
      ensures var met := files0 + extra;
              var name := prepared[count].name;
              && Recorded(prepared, originals, original, planted0 + extra, |prepared|)
              && Exact(prepared, originals, original, planted0 + extra, count)
              && Look(met, name) == Base(original, planted0 + extra, name)
              && Standing(if took then met[name := prepared[count].text] else met, original, planted0 + extra, texts,
                          Names(prepared[..count]) + if took then {name} else {})
    {
      var name, done := prepared[count].name, Names(prepared[..count]);
      var met := files0 + extra;
      StandingPlanted(files0, original, planted0, texts, done, extra);
      RecordedPlanted(files0, original, planted0, texts, done, extra, prepared, originals, |prepared|);
      ExactPlanted(files0, original, planted0, texts, done, extra, prepared, originals, count);
      NamesNext(prepared, count);
      assert Look(met, name) == Base(original, planted0 + extra, name);
      TextAt(prepared, count);
      if took {
        StandingInstalled(met, original, planted0 + extra, texts, done, name);
      } else {
        assert done + {} == done;
      }
    }

    method InstallAll(prepared: seq<Document>, expected: map<string, Option<Bytes>>, overwrite: bool,
                      originals: map<string, Option<Bytes>>, slots: seq<nat>,
                      ghost original: map<string, Bytes>, ghost texts: map<string, Bytes>, ghost stages0: map<nat, Bytes>)
      returns (ok: bool, installed: nat)
      requires DistinctNames(prepared) && texts == Texts(prepared)
      requires Installing(prepared, original, texts, stages0, originals, slots, 0)
      requires Matched(prepared, expected, originals, |prepared|)
      modifies this
      ensures RollingBack(prepared, original, texts, stages0, originals, slots, installed, {})
      ensures old(faults) <= faults && |late| <= 1 && (late != {} ==> old(faults) < faults)
      ensures ok ==> installed == |prepared| && late == {} && Allowed(prepared, expected, overwrite, |prepared|)
      ensures !ok ==> old(faults) < faults || !Agrees(prepared, expected, original, planted)
                      || !Allowed(prepared, expected, overwrite, |prepared|)
    {
      ok, installed := true, 0;
      while installed < |prepared|
        invariant Installing(prepared, original, texts, stages0, originals, slots, installed)
        invariant old(faults) <= faults && ok
        invariant Allowed(prepared, expected, overwrite, installed)
      {
        ok := InstallOne(prepared, expected, overwrite, originals, slots, installed, original, texts, stages0);
        if !ok {
          AtMostOne(late, prepared[installed].name);
          return;
        }
        installed := installed + 1;
      }
      ReadyToUndo(prepared, original, texts, stages0, originals, slots, installed);
    }

    /** Part of a rollback is done: the first count installed targets, the stuck ones and a late one still hold new text. */
    ghost predicate RollingBack(prepared: seq<Document>, original: map<string, Bytes>, texts: map<string, Bytes>,
                                stages0: map<nat, Bytes>, originals: map<string, Option<Bytes>>, slots: seq<nat>,
                                count: nat, stuck: set<string>)
      reads this`files, this`planted, this`stages, this`nextStage, this`litter, this`spills, this`late
    {
      && Valid()
      && count <= |prepared|
      && stuck + late !! Names(prepared[..count])
      && Standing(files, original, planted, texts, Names(prepared[..count]) + (stuck + late))
      && Staged(stages, stages0, litter, nextStage, prepared, slots, |slots|)
      && Exact(prepared, originals, original, planted, count)
    }

    /** Puts one target back: unlinks it if it was absent, else restores its bytes. */
    method RollBackOne(prepared: seq<Document>, originals: map<string, Option<Bytes>>, slots: seq<nat>,
                       count: nat, stuck: set<string>,
                       ghost original: map<string, Bytes>, ghost texts: map<string, Bytes>, ghost stages0: map<nat, Bytes>)
      returns (ending: Ending, ghost took: bool)
      requires DistinctNames(prepared) && count < |prepared|
      requires RollingBack(prepared, original, texts, stages0, originals, slots, count + 1, stuck)
      modifies this`files, this`planted, this`faults, this`stages, this`nextStage, this`litter, this`spills
      ensures RollingBack(prepared, original, texts, stages0, originals, slots, count,
                          if took then stuck else stuck + {prepared[count].name})
      ensures (ending.Done? ==> took) && (ending.Failed? ==> !took)
      ensures old(faults) <= faults && (!ending.Done? ==> old(faults) < faults) && old(planted).Keys <= planted.Keys
    {
      var name := prepared[count].name;
      ghost var done := Names(prepared[..count + 1]) + (stuck + late);
      ghost var extra;
      NamesNext(prepared, count);
      ghost var base := originals[name];
      assert base == Base(original, planted, name) && Look(files, name) == Some(texts[name]);
      match originals[name] {
        case None => ending, took, extra := Remove(name);
        case Some(data) => ending, took, extra := Restore(name, data);
      }
      StandingPlanted(old(files), original, old(planted), texts, done, extra);
      ExactPlanted(old(files), original, old(planted), texts, done, extra, prepared, originals, count + 1);
      if base.Some? {
        StagedLittered(old(stages), stages0, old(litter), old(nextStage), prepared, slots, |slots|, stages, litter, nextStage);
      }
      if took {
        StandingUndone(old(files) + extra, original, planted, texts, done, name);
        assert done - {name} == Names(prepared[..count]) + (stuck + late);
      } else {
        assert done == Names(prepared[..count]) + (stuck + {name} + late);
      }
    }

    /**
     * Puts every installed target back, last first, past the ones that fail; an interrupt ends it there.
     * What then still holds new text is left.
     */
    method RollBack(prepared: seq<Document>, originals: map<string, Option<Bytes>>, slots: seq<nat>, installed: nat,
                    ghost original: map<string, Bytes>, ghost texts: map<string, Bytes>, ghost stages0: map<nat, Bytes>)
      returns (stuck: set<string>, aborted: bool, ghost left: set<string>)
      requires DistinctNames(prepared)
      requires RollingBack(prepared, original, texts, stages0, originals, slots, installed, {})
      modifies this`files, this`planted, this`faults, this`stages, this`nextStage, this`litter, this`spills
      ensures Valid() && Standing(files, original, planted, texts, left)
      ensures !aborted ==> left == stuck + late
      ensures Staged(stages, stages0, litter, nextStage, prepared, slots, |slots|)
      ensures old(faults) <= faults && (aborted || stuck != {} ==> old(faults) < faults) && old(planted).Keys <= planted.Keys
    {
      stuck := {};
      var count: nat := installed;
      while 0 < count
        invariant RollingBack(prepared, original, texts, stages0, originals, slots, count, stuck)
        invariant old(faults) <= faults && (stuck != {} ==> old(faults) < faults) && old(planted).Keys <= planted.Keys
      {
        var ending;
        ghost var took;
        ending, took := RollBackOne(prepared, originals, slots, count - 1, stuck, original, texts, stages0);
        count := count - 1;
        if ending.Interrupted? {
          ghost var held := if took then stuck else stuck + {prepared[count].name};
          return stuck, true, Names(prepared[..count]) + (held + late);
        }
        if ending.Failed? {
          stuck := stuck + {prepared[count].name};
        }
      }
      assert Names(prepared[..0]) + (stuck + late) == stuck + late;
      aborted, left := false, stuck + late;
    }

    /** Unlinks the stages; the first failing unlink ends it and leaves the rest. */
    method CleanUp(prepared: seq<Document>, slots: seq<nat>, ghost stages0: map<nat, Bytes>)
      returns (cleaned: bool)
      requires Valid() && Staged(stages, stages0, litter, nextStage, prepared, slots, |slots|)
      modifies this`stages, this`faults, this`litter, this`spills
      ensures Valid() && old(faults) <= faults && (!cleaned ==> old(faults) < faults && 0 < spills)
      ensures cleaned ==> litter == old(litter)
      ensures forall k :: k in stages0 ==> k in stages && stages[k] == stages0[k]
      ensures forall k :: k in stages ==> k in stages0 || k in litter
    {
      cleaned := true;
      var i := 0;
      while i < |slots|
        invariant 0 <= i <= |slots| && cleaned
        invariant Valid() && old(faults) <= faults && litter == old(litter)
        invariant Staged(stages, stages0, litter, nextStage, prepared, slots, |slots|)
        invariant forall j :: 0 <= j < i ==> slots[j] !in stages
      {
        cleaned := RemoveTemporary(slots[i]);
        if !cleaned {
          litter := stages.Keys - stages0.Keys;
          return;
        }
        i := i + 1;
      }
    }

    /** Undoes a failed write; a rollback or directory sync that fails makes it incomplete. */
    method Undo(prepared: seq<Document>, originals: map<string, Option<Bytes>>, slots: seq<nat>, installed: nat, cause: Cause,
                ghost original: map<string, Bytes>, ghost texts: map<string, Bytes>, ghost stages0: map<nat, Bytes>)
      returns (outcome: Outcome, ghost left: set<string>)
      requires DistinctNames(prepared)
      requires RollingBack(prepared, original, texts, stages0, originals, slots, installed, {})
      modifies this`files, this`planted, this`faults, this`stages, this`nextStage, this`litter, this`spills
      ensures Valid() && old(faults) <= faults && old(planted).Keys <= planted.Keys
      ensures Staged(stages, stages0, litter, nextStage, prepared, slots, |slots|)
      ensures outcome == RolledBack(cause) || (!outcome.Written? && !outcome.RolledBack? && old(faults) < faults)
      ensures Standing(files, original, planted, texts, left)
      ensures outcome.RolledBack? ==> left == late
      ensures outcome.Incomplete? ==> left == outcome.stuck + late
    {
      var stuck, aborted;
      stuck, aborted, left := RollBack(prepared, originals, slots, installed, original, texts, stages0);
      if aborted {
        return Aborted, left;
      }
      var sync := Strike();
      outcome := if sync.Interrupted? then Aborted
                 else if stuck != {} || sync.Failed? then Incomplete(stuck)
                 else RolledBack(cause);
      assert {} + late == late;
    }

    lemma ReadyToInstall(prepared: seq<Document>, expected: map<string, Option<Bytes>>,
                         original: map<string, Bytes>, texts: map<string, Bytes>, stages0: map<nat, Bytes>,
                         originals: map<string, Option<Bytes>>, slots: seq<nat>)
      requires Staging(prepared, expected, original, texts, stages0, originals, slots)
      ensures RollingBack(prepared, original, texts, stages0, originals, slots, 0, {})
      ensures |slots| == |prepared| ==> Installing(prepared, original, texts, stages0, originals, slots, 0)
                                        && Matched(prepared, expected, originals, |prepared|)
    {
      assert Names(prepared[..0]) == {} && Names(prepared[..0]) + ({} + late) == {};
    }

    lemma ReadyToUndo(prepared: seq<Document>, original: map<string, Bytes>, texts: map<string, Bytes>,
                      stages0: map<nat, Bytes>, originals: map<string, Option<Bytes>>, slots: seq<nat>, count: nat)
      requires Installing(prepared, original, texts, stages0, originals, slots, count)
      ensures RollingBack(prepared, original, texts, stages0, originals, slots, count, {})
    {
      assert Names(prepared[..count]) + ({} + late) == Names(prepared[..count]);
    }

    lemma Complete(prepared: seq<Document>, expected: map<string, Option<Bytes>>,
                   original: map<string, Bytes>, texts: map<string, Bytes>, stages0: map<nat, Bytes>,
                   originals: map<string, Option<Bytes>>, slots: seq<nat>)
      requires RollingBack(prepared, original, texts, stages0, originals, slots, |prepared|, {}) && late == {}
      requires Matched(prepared, expected, originals, |prepared|)
      ensures Standing(files, original, planted, texts, Names(prepared))
      ensures FoundAsExpected(prepared, expected, original, planted)
    {
      assert prepared[..|prepared|] == prepared;
      assert Names(prepared) + ({} + late) == Names(prepared);
    }

    /** Stages and installs; returns what is needed to undo it. */
    method Attempt(prepared: seq<Document>, expected: map<string, Option<Bytes>>, overwrite: bool,
                   ghost original: map<string, Bytes>, ghost texts: map<string, Bytes>, ghost stages0: map<nat, Bytes>)
      returns (cause: Option<Cause>, originals: map<string, Option<Bytes>>, slots: seq<nat>, installed: nat)
      requires Valid() && stages == stages0 && litter == {} && late == {} && texts == Texts(prepared)
      requires |prepared| <= MAX_INITIAL_FEATURES && DistinctNames(prepared) && expected.Keys == Names(prepared)
      requires Standing(files, original, planted, texts, {})
      modifies this
      ensures RollingBack(prepared, original, texts, stages0, originals, slots, installed, {})
      ensures old(faults) <= faults
      ensures |late| <= 1 && (late != {} ==> old(faults) < faults)
      ensures cause.None? ==> installed == |prepared| && late == {} && Allowed(prepared, expected, overwrite, |prepared|)
                              && Matched(prepared, expected, originals, |prepared|)
      ensures cause.Some? ==> cause.value in {Oversized, Changed, DeviceError}
      ensures cause.Some? ==> old(faults) < faults || !Agrees(prepared, expected, original, planted)
                              || !Allowed(prepared, expected, overwrite, |prepared|)
    {
      installed := 0;
      cause, originals, slots := StageAll(prepared, expected, original, texts, stages0);
      ReadyToInstall(prepared, expected, original, texts, stages0, originals, slots);
      if cause.Some? {
        return;
      }
      var ok;
      ok, installed := InstallAll(prepared, expected, overwrite, originals, slots, original, texts, stages0);
      if ok {
        var unsynced := Fault();
        ok := !unsynced;
      }
      cause := if ok then None else Some(DeviceError);
    }

    /** The write of a well-formed batch. */
    method Carry(prepared: seq<Document>, expected: map<string, Option<Bytes>>, overwrite: bool)
      returns (outcome: Outcome, cleaned: bool, ghost left: set<string>)
      requires Valid() && WellFormed(prepared, expected)
      requires planted == map[] && faults == 0 && litter == {} && spills == 0 && late == {}
      modifies this
      ensures Valid() && |late| <= 1 && (late != {} ==> 0 < faults)
      ensures Standing(files, old(files), planted, Texts(prepared), left)
      ensures outcome.Written? ==> left == Names(prepared) && late == {}
      ensures outcome.RolledBack? ==> left == late
      ensures outcome.Incomplete? ==> left == outcome.stuck + late
      ensures outcome.Incomplete? || outcome.Aborted? ==> 0 < faults
      ensures forall k :: k in old(stages) ==> k in stages && stages[k] == old(stages)[k]
      ensures forall k :: k in stages ==> k in old(stages) || k in litter
      ensures !cleaned ==> 0 < faults && 0 < spills
      ensures outcome.Written? ==> Allowed(prepared, expected, overwrite, |prepared|)
      ensures outcome.Written? ==> FoundAsExpected(prepared, expected, old(files), planted)
      ensures !outcome.Written? ==> 0 < faults || !Agrees(prepared, expected, old(files), planted)
                                    || !Allowed(prepared, expected, overwrite, |prepared|)
      ensures outcome.RolledBack? ==> outcome.cause in {Oversized, Changed, DeviceError}
    {
      ghost var original, texts, stages0 := files, Texts(prepared), stages;
      StandingAtStart(files, texts);
      var cause, originals, slots, installed := Attempt(prepared, expected, overwrite, original, texts, stages0);
      if cause.None? {
        outcome, left := Written, Names(prepared);
        Complete(prepared, expected, original, texts, stages0, originals, slots);
      } else {
        outcome, left := Undo(prepared, originals, slots, installed, cause.value, original, texts, stages0);
      }
      cleaned := CleanUp(prepared, slots, stages0);
    }

    /** The whole write: cleaned is false when a stage could not be unlinked, which raises too. */
    method WriteMap(prepared: seq<Document>, expected: map<string, Option<Bytes>>, overwrite: bool)
      returns (outcome: Outcome, cleaned: bool, ghost left: set<string>)
      requires Valid()
      modifies this
      ensures Valid() && |late| <= 1
      // What stands afterwards, at every name of the directory: the targets left hold their new text, and no other.
      ensures Standing(files, old(files), planted, Texts(prepared), left)
      ensures outcome.Written? ==> left == Names(prepared) && late == {}
      ensures outcome.RolledBack? ==> left == late
      ensures outcome.Incomplete? ==> left == outcome.stuck + late
      ensures outcome.Incomplete? || outcome.Aborted? ==> 0 < faults
      // No temporary stays but those that could not be unlinked, or were not on record when the interrupt came.
      ensures forall k :: k in old(stages) ==> k in stages && stages[k] == old(stages)[k]
      ensures forall k :: k in stages ==> k in old(stages) || k in litter
      ensures spills == 0 ==> cleaned && stages == old(stages)
      // When it is written, and why it is not.
      ensures outcome.Written? ==> WellFormed(prepared, expected) && Allowed(prepared, expected, overwrite, |prepared|)
      ensures outcome.Written? ==> FoundAsExpected(prepared, expected, old(files), planted)
      ensures faults == 0 && WellFormed(prepared, expected) && Allowed(prepared, expected, overwrite, |prepared|)
                && Agrees(prepared, expected, old(files), planted)
              ==> outcome.Written?
      ensures faults == 0 ==> late == {}
      ensures outcome.RolledBack? ==> outcome.cause !in {RollbackCeiling, ChangedWhileReading}
    {
      planted, faults, litter, spills, late := map[], 0, {}, 0, {};
      StandingAtStart(files, Texts(prepared));
      left := {};
      if !(MIN_INITIAL_FEATURES <= |prepared| <= MAX_INITIAL_FEATURES) {
        return RolledBack(WrongCount), true, left;
      }
      if exists i, j | 0 <= i < j < |prepared| :: prepared[i].name == prepared[j].name {
        return RolledBack(DuplicatePaths), true, left;
      }
      if expected.Keys != Names(prepared) {
        return RolledBack(SnapshotMismatch), true, left;
      }
      outcome, cleaned, left := Carry(prepared, expected, overwrite);
    }
  }
}

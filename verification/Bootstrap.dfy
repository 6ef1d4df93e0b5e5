/** Setup's plan and apply: what the preview predicts, what is never touched, and why a second run rests. */
module Bootstrap {
  import opened Wrappers

  // A workspace path as its parts; one char of content is one byte.
  type Path = seq<string>
  type Bytes = string

  /** The files of a workspace and its other entries, the directories. */
  datatype Tree = Tree(files: map<Path, Bytes>, dirs: set<Path>)

  /** One managed file: what it must hold, and how it may be replaced. */
  datatype Op = Op(path: Path, content: Bytes, refreshOwned: bool, seedOnly: bool)

  datatype Verdict =
    | Blocked(parent: Path) | NotFile | Conflict | Pending
    | Preserved | Unchanged | Created | Updated

  type Hashes = map<Path, string>

  predicate Good(v: Verdict) {
    v.Preserved? || v.Unchanged? || v.Created? || v.Updated?
  }

  // ---- one file ----

  /** The first proper ancestor, from the root down, that is a file. */
  function Blocker(t: Tree, path: Path, k: nat): (r: Option<Path>)
    requires 1 <= k
    ensures r.None? <==> forall j :: k <= j < |path| ==> path[..j] !in t.files
    decreases |path| - k
  {
    if k >= |path| then None
    else if path[..k] in t.files then Some(path[..k])
    else Blocker(t, path, k + 1)
  }

  /** What happens to one managed file. */
  function Judge(hash: Bytes -> string, t: Tree, op: Op, previous: Hashes, update: bool): Verdict {
    var blocker := Blocker(t, op.path, 1);
    if blocker.Some? then Blocked(blocker.value)
    else if op.path !in t.files && op.path in t.dirs then NotFile
    else if op.path !in t.files then Created
    else if op.seedOnly then Preserved
    else if hash(t.files[op.path]) == hash(op.content) then Unchanged
    else if op.path !in previous || hash(t.files[op.path]) != previous[op.path] then Conflict
    else if !update && !op.refreshOwned then Pending
    else Updated
  }

  function Ancestors(path: Path): set<Path> {
    set k | 1 <= k < |path| :: path[..k]
  }

  /** An atomic write, which makes the missing parents. */
  function Write(t: Tree, op: Op): Tree {
    Tree(t.files[op.path := op.content], t.dirs + Ancestors(op.path))
  }

  function Apply(t: Tree, op: Op, v: Verdict): Tree {
    if v.Created? || v.Updated? then Write(t, op) else t
  }

  /** The hash the receipt will hold for a file after this verdict, if any. */
  function Managed(hash: Bytes -> string, t: Tree, op: Op, v: Verdict, previous: Hashes, managed: Hashes): Hashes {
    match v
    case Unchanged => managed[op.path := hash(op.content)]
    case Created => if op.seedOnly then managed else managed[op.path := hash(op.content)]
    case Updated => managed[op.path := hash(op.content)]
    case Conflict => if op.path in previous then managed[op.path := previous[op.path]] else managed
    case Pending => if op.path in t.files then managed[op.path := hash(t.files[op.path])] else managed
    case _ => managed
  }

  // ---- a list of files ----

  /** The verdicts of a dry run, each against the same workspace. */
  function Preview(hash: Bytes -> string, t: Tree, ops: seq<Op>, previous: Hashes, update: bool): (vs: seq<Verdict>)
    ensures |vs| == |ops|
    ensures forall i :: 0 <= i < |ops| ==> vs[i] == Judge(hash, t, ops[i], previous, update)
  {
    if ops == [] then []
    else [Judge(hash, t, ops[0], previous, update)] + Preview(hash, t, ops[1..], previous, update)
  }

  /** The verdicts of a real run, each against what the writes before it left. */
  function Outcome(hash: Bytes -> string, t: Tree, ops: seq<Op>, previous: Hashes, update: bool): (vs: seq<Verdict>)
    ensures |vs| == |ops|
    decreases |ops|
  {
    if ops == [] then []
    else
      var v := Judge(hash, t, ops[0], previous, update);
      [v] + Outcome(hash, Apply(t, ops[0], v), ops[1..], previous, update)
  }

  function Final(hash: Bytes -> string, t: Tree, ops: seq<Op>, previous: Hashes, update: bool): Tree
    decreases |ops|
  {
    if ops == [] then t
    else Final(hash, Apply(t, ops[0], Judge(hash, t, ops[0], previous, update)), ops[1..], previous, update)
  }

  // ---- when the preview is right ----

  predicate Clash(a: Path, b: Path) {
    a <= b || b <= a
  }

  predicate Independent(ops: seq<Op>) {
    forall i, j :: 0 <= i < j < |ops| ==> !Clash(ops[i].path, ops[j].path)
  }

  predicate Named(ops: seq<Op>) {
    forall i :: 0 <= i < |ops| ==> ops[i].path != []
  }

  lemma {:induction false} BlockerStable(t: Tree, first: Op, path: Path, k: nat)
    requires 1 <= k && !(first.path <= path)
    ensures Blocker(Write(t, first), path, k) == Blocker(t, path, k)
    decreases |path| - k
  {
    if k < |path| {
      assert path[..k] != first.path;
      BlockerStable(t, first, path, k + 1);
    }
  }

  /** Writing one file changes no verdict on another that does not clash with it. */
  lemma JudgeStable(hash: Bytes -> string, t: Tree, first: Op, v: Verdict, op: Op, previous: Hashes, update: bool)
    requires !Clash(first.path, op.path)
    ensures Judge(hash, Apply(t, first, v), op, previous, update) == Judge(hash, t, op, previous, update)
  {
    BlockerStable(t, first, op.path, 1);
    assert op.path !in Ancestors(first.path);
  }

  /** For files that do not clash, the real run does to each what the preview said. */
  lemma {:induction false} PreviewPredicts(hash: Bytes -> string, t: Tree, ops: seq<Op>, previous: Hashes, update: bool)
    requires Independent(ops)
    ensures Outcome(hash, t, ops, previous, update) == Preview(hash, t, ops, previous, update)
    decreases |ops|
  {
    if ops != [] {
      var v := Judge(hash, t, ops[0], previous, update);
      var after := Apply(t, ops[0], v);
      PreviewPredicts(hash, after, ops[1..], previous, update);
      forall i | 0 <= i < |ops| - 1
        ensures Judge(hash, after, ops[1..][i], previous, update) == Judge(hash, t, ops[1..][i], previous, update)
      {
        JudgeStable(hash, t, ops[0], v, ops[i + 1], previous, update);
      }
      assert Preview(hash, after, ops[1..], previous, update) == Preview(hash, t, ops[1..], previous, update);
    }
  }

  const EMPTY := Tree(map[], {})

  predicate AllCreated(vs: seq<Verdict>) {
    forall i :: 0 <= i < |vs| ==> vs[i].Created?
  }

  /** Once its clash is on disk, a file is not created. */
  lemma ClashNotCreated(hash: Bytes -> string, t: Tree, first: Path, op: Op, previous: Hashes, update: bool)
    requires first != [] && op.path != [] && Clash(first, op.path)
    requires first in t.files && Ancestors(first) <= t.dirs
    ensures !Judge(hash, t, op, previous, update).Created?
  {
    if first < op.path {
      assert op.path[..|first|] == first;
    } else if op.path < first {
      assert first[..|op.path|] == op.path && op.path in Ancestors(first);
    } else {
      assert first == op.path;
    }
  }

  /** In a run that creates everything, what is on disk stays on disk, and later files do not clash with it. */
  lemma {:induction false} CreatedApart(hash: Bytes -> string, t: Tree, ops: seq<Op>, previous: Hashes, update: bool, first: Path)
    requires Named(ops) && first != []
    requires first in t.files && Ancestors(first) <= t.dirs
    requires AllCreated(Outcome(hash, t, ops, previous, update))
    ensures forall i :: 0 <= i < |ops| ==> !Clash(first, ops[i].path)
    decreases |ops|
  {
    if ops != [] {
      var v := Judge(hash, t, ops[0], previous, update);
      var rest := Outcome(hash, Apply(t, ops[0], v), ops[1..], previous, update);
      assert Outcome(hash, t, ops, previous, update) == [v] + rest;
      assert v == Outcome(hash, t, ops, previous, update)[0];
      if Clash(first, ops[0].path) {
        ClashNotCreated(hash, t, first, ops[0], previous, update);
      }
      forall i | 0 <= i < |rest| ensures rest[i].Created? {
        assert ([v] + rest)[i + 1] == rest[i];
      }
      CreatedApart(hash, Apply(t, ops[0], v), ops[1..], previous, update, first);
      forall i | 1 <= i < |ops| ensures !Clash(first, ops[i].path) {
        assert ops[1..][i - 1] == ops[i];
      }
    }
  }

  lemma {:induction false} CreatedIndependent(hash: Bytes -> string, t: Tree, ops: seq<Op>, previous: Hashes, update: bool)
    requires Named(ops) && AllCreated(Outcome(hash, t, ops, previous, update))
    ensures Independent(ops)
    decreases |ops|
  {
    if ops != [] {
      var v := Judge(hash, t, ops[0], previous, update);
      var after := Apply(t, ops[0], v);
      var rest := Outcome(hash, after, ops[1..], previous, update);
      assert Outcome(hash, t, ops, previous, update) == [v] + rest;
      assert v == Outcome(hash, t, ops, previous, update)[0];
      forall i | 0 <= i < |rest| ensures rest[i].Created? {
        assert ([v] + rest)[i + 1] == rest[i];
      }
      CreatedIndependent(hash, after, ops[1..], previous, update);
      CreatedApart(hash, after, ops[1..], previous, update, ops[0].path);
      forall i, j | 0 <= i < j < |ops| ensures !Clash(ops[i].path, ops[j].path) {
        assert ops[1..][j - 1] == ops[j];
        if i > 0 {
          assert ops[1..][i - 1] == ops[i];
        }
      }
    }
  }

  /** The preview is right on every workspace exactly when no path is, or lies under, another. */
  lemma PreviewRightExactly(hash: Bytes -> string, ops: seq<Op>, previous: Hashes, update: bool)
    requires Named(ops)
    ensures (forall t: Tree :: Outcome(hash, t, ops, previous, update) == Preview(hash, t, ops, previous, update))
            <==> Independent(ops)
  {
    if Independent(ops) {
      forall t: Tree ensures Outcome(hash, t, ops, previous, update) == Preview(hash, t, ops, previous, update) {
        PreviewPredicts(hash, t, ops, previous, update);
      }
    } else {
      var vs := Preview(hash, EMPTY, ops, previous, update);
      assert AllCreated(vs) by {
        forall i | 0 <= i < |ops| ensures vs[i].Created? {
          assert Blocker(EMPTY, ops[i].path, 1).None?;
        }
      }
      if Outcome(hash, EMPTY, ops, previous, update) == vs {
        CreatedIndependent(hash, EMPTY, ops, previous, update);
      }
      assert Outcome(hash, EMPTY, ops, previous, update) != Preview(hash, EMPTY, ops, previous, update);
    }
  }

  // ---- what is never altered ----

  /** A file that is not the receipt's stays as it is, whatever the plan. */
  lemma {:induction false} ForeignFileKept(hash: Bytes -> string, t: Tree, ops: seq<Op>, previous: Hashes, update: bool, path: Path)
    requires path in t.files && (path !in previous || hash(t.files[path]) != previous[path])
    ensures path in Final(hash, t, ops, previous, update).files
    ensures Final(hash, t, ops, previous, update).files[path] == t.files[path]
    decreases |ops|
  {
    if ops != [] {
      var v := Judge(hash, t, ops[0], previous, update);
      ForeignFileKept(hash, Apply(t, ops[0], v), ops[1..], previous, update, path);
    }
  }

  /** Nothing outside the plan is touched, and no file is removed. */
  lemma {:induction false} OthersKept(hash: Bytes -> string, t: Tree, ops: seq<Op>, previous: Hashes, update: bool, path: Path)
    requires forall i :: 0 <= i < |ops| ==> ops[i].path != path
    ensures path in Final(hash, t, ops, previous, update).files <==> path in t.files
    ensures path in t.files ==> Final(hash, t, ops, previous, update).files[path] == t.files[path]
    decreases |ops|
  {
    if ops != [] {
      var v := Judge(hash, t, ops[0], previous, update);
      OthersKept(hash, Apply(t, ops[0], v), ops[1..], previous, update, path);
    }
  }

  // ---- what becomes of one file ----

  /** For files that do not clash, each ends as its own step alone would leave it. */
  lemma {:induction false} FinalAt(hash: Bytes -> string, t: Tree, ops: seq<Op>, previous: Hashes, update: bool, i: nat)
    requires Independent(ops) && i < |ops|
    ensures var path := ops[i].path;
            var alone := Apply(t, ops[i], Judge(hash, t, ops[i], previous, update));
            Stands(Final(hash, t, ops, previous, update), path) == Stands(alone, path)
    decreases |ops|
  {
    var v := Judge(hash, t, ops[0], previous, update);
    var next := Apply(t, ops[0], v);
    if i == 0 {
      OthersKept(hash, next, ops[1..], previous, update, ops[0].path);
    } else {
      FinalAt(hash, next, ops[1..], previous, update, i - 1);
      JudgeStable(hash, t, ops[0], v, ops[i], previous, update);
    }
  }

  function Stands(t: Tree, path: Path): Option<Bytes> {
    if path in t.files then Some(t.files[path]) else None
  }

  /**
   * A file as the receipt left it, for which there is new content: without the update flag it is left and reported
   * pending, unless setup itself keeps it fresh; with the flag it gets the new content.
   */
  lemma OwnedFileUpdated(hash: Bytes -> string, t: Tree, ops: seq<Op>, previous: Hashes, update: bool, i: nat)
    requires Independent(ops) && i < |ops| && !ops[i].seedOnly && Blocker(t, ops[i].path, 1).None?
    requires ops[i].path in t.files && ops[i].path in previous && hash(t.files[ops[i].path]) == previous[ops[i].path]
    requires hash(t.files[ops[i].path]) != hash(ops[i].content)
    ensures var after, v := Final(hash, t, ops, previous, update), Outcome(hash, t, ops, previous, update)[i];
            if update || ops[i].refreshOwned
            then v == Updated && Stands(after, ops[i].path) == Some(ops[i].content)
            else v == Pending && Stands(after, ops[i].path) == Some(t.files[ops[i].path])
  {
    FinalAt(hash, t, ops, previous, update, i);
    PreviewPredicts(hash, t, ops, previous, update);
  }

  /** A missing file is created with its content, a seed that exists is left, and a foreign file is a conflict and left. */
  lemma OtherFilesJudged(hash: Bytes -> string, t: Tree, ops: seq<Op>, previous: Hashes, update: bool, i: nat)
    requires Independent(ops) && i < |ops| && Blocker(t, ops[i].path, 1).None? && ops[i].path !in t.dirs
    ensures var op, v := ops[i], Outcome(hash, t, ops, previous, update)[i];
            var after := Stands(Final(hash, t, ops, previous, update), op.path);
            && (op.path !in t.files ==> v == Created && after == Some(op.content))
            && (op.path in t.files && op.seedOnly ==> v == Preserved && after == Some(t.files[op.path]))
            && (op.path in t.files && !op.seedOnly && hash(t.files[op.path]) == hash(op.content) ==>
                  v == Unchanged && after == Some(t.files[op.path]))
            && (op.path in t.files && !op.seedOnly && hash(t.files[op.path]) != hash(op.content)
                && (op.path !in previous || previous[op.path] != hash(t.files[op.path])) ==>
                  v == Conflict && after == Some(t.files[op.path]))
  {
    FinalAt(hash, t, ops, previous, update, i);
    PreviewPredicts(hash, t, ops, previous, update);
  }

  /** No path is both a file and a directory, and every file stands in directories. */
  ghost predicate IsTree(t: Tree) {
    forall path :: path in t.files ==> path !in t.dirs && forall j :: 1 <= j < |path| ==> path[..j] in t.dirs
  }

  lemma WriteKeepsTree(t: Tree, op: Op)
    requires IsTree(t) && Blocker(t, op.path, 1).None? && op.path !in t.dirs
    ensures IsTree(Write(t, op))
  {
    var after := Write(t, op);
    forall path | path in after.files
      ensures path !in after.dirs && forall j :: 1 <= j < |path| ==> path[..j] in after.dirs
    {
      if path == op.path {
        assert forall k :: 1 <= k < |path| ==> |path[..k]| < |path|;
      } else {
        assert path !in Ancestors(op.path);
      }
    }
  }

  /** Whatever the plan, and however its paths lie, the workspace stays a tree. */
  lemma {:induction false} TreeStays(hash: Bytes -> string, t: Tree, ops: seq<Op>, previous: Hashes, update: bool)
    requires IsTree(t)
    ensures IsTree(Final(hash, t, ops, previous, update))
    decreases |ops|
  {
    if ops != [] {
      var v := Judge(hash, t, ops[0], previous, update);
      if v.Created? || v.Updated? {
        WriteKeepsTree(t, ops[0]);
      }
      TreeStays(hash, Apply(t, ops[0], v), ops[1..], previous, update);
    }
  }

  // ---- a second run ----

  predicate AllGood(vs: seq<Verdict>) {
    forall i :: 0 <= i < |vs| ==> Good(vs[i])
  }

  predicate Resting(v: Verdict) {
    v.Unchanged? || v.Preserved?
  }

  /** What stands at a planned path after its own step, and is left alone by the steps after it. */
  lemma {:induction false} StandsAfter(hash: Bytes -> string, t: Tree, ops: seq<Op>, previous: Hashes, update: bool, i: nat)
    requires Independent(ops) && AllGood(Outcome(hash, t, ops, previous, update)) && i < |ops|
    ensures var after := Final(hash, t, ops, previous, update);
            && Blocker(after, ops[i].path, 1).None?
            && ops[i].path in after.files
            && (!ops[i].seedOnly ==> hash(after.files[ops[i].path]) == hash(ops[i].content))
    decreases |ops|
  {
    var v := Judge(hash, t, ops[0], previous, update);
    var next := Apply(t, ops[0], v);
    assert Outcome(hash, t, ops, previous, update)[0] == v;
    forall k | 0 <= k < |ops| - 1 ensures Good(Outcome(hash, next, ops[1..], previous, update)[k]) {
      assert Outcome(hash, t, ops, previous, update)[k + 1] == Outcome(hash, next, ops[1..], previous, update)[k];
    }
    if i > 0 {
      StandsAfter(hash, next, ops[1..], previous, update, i - 1);
    } else {
      BlockedNever(hash, next, ops[1..], previous, update, ops[0].path);
      OthersKept(hash, next, ops[1..], previous, update, ops[0].path);
      OwnWriteUnblocked(t, ops[0], v);
    }
  }

  lemma OwnWriteUnblocked(t: Tree, op: Op, v: Verdict)
    requires Blocker(t, op.path, 1).None?
    ensures Blocker(Apply(t, op, v), op.path, 1).None?
  {
    forall j | 1 <= j < |op.path| ensures op.path[..j] !in Apply(t, op, v).files {
      assert |op.path[..j]| < |op.path|;
    }
  }

  lemma {:induction false} BlockedNever(hash: Bytes -> string, t: Tree, ops: seq<Op>, previous: Hashes, update: bool, path: Path)
    requires Blocker(t, path, 1).None? && forall i :: 0 <= i < |ops| ==> !Clash(ops[i].path, path)
    ensures Blocker(Final(hash, t, ops, previous, update), path, 1).None?
    decreases |ops|
  {
    if ops != [] {
      BlockerStable(t, ops[0], path, 1);
      BlockedNever(hash, Apply(t, ops[0], Judge(hash, t, ops[0], previous, update)), ops[1..], previous, update, path);
    }
  }

  /** After a run with no blocker, another run of the same plan creates and updates nothing. */
  lemma SecondRunRests(hash: Bytes -> string, t: Tree, ops: seq<Op>, previous: Hashes, update: bool, again: Hashes, update1: bool)
    requires Independent(ops) && AllGood(Outcome(hash, t, ops, previous, update))
    ensures var after := Final(hash, t, ops, previous, update);
            && (forall i :: 0 <= i < |ops| ==> Resting(Outcome(hash, after, ops, again, update1)[i]))
            && Final(hash, after, ops, again, update1) == after
  {
    var after := Final(hash, t, ops, previous, update);
    PreviewPredicts(hash, after, ops, again, update1);
    forall i | 0 <= i < |ops| ensures Resting(Judge(hash, after, ops[i], again, update1)) {
      StandsAfter(hash, t, ops, previous, update, i);
    }
    RestingKeeps(hash, after, ops, again, update1);
  }

  lemma {:induction false} RestingKeeps(hash: Bytes -> string, t: Tree, ops: seq<Op>, previous: Hashes, update: bool)
    requires forall i :: 0 <= i < |ops| ==> Resting(Judge(hash, t, ops[i], previous, update))
    ensures Final(hash, t, ops, previous, update) == t
    decreases |ops|
  {
    if ops != [] {
      assert Resting(Judge(hash, t, ops[0], previous, update));
      RestingKeeps(hash, t, ops[1..], previous, update);
    }
  }
}

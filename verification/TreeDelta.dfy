/** The review operations between two exact trees. */
module TreeDelta {
  import opened Wrappers
  import opened Ordering

  /** What a tree says of one file: kind, mode, object id and size. */
  datatype FileId = FileId(kind: string, mode: string, sha: string, size: Option<nat>)

  type Files = map<string, FileId>

  datatype Status = Added | Modified | Removed | Renamed

  datatype Operation = Operation(status: Status, path: string, previous: Option<string>)

  // ---- which operations belong to the delta ----

  /** No other path of the tree has the same identity. */
  predicate Sole(files: Files, path: string)
    requires path in files
  {
    forall p :: p in files && files[p] == files[path] ==> p == path
  }

  /** A move of one exact file that is the only one of its identity in both trees. */
  predicate IsRename(pinned: Files, current: Files, from: string, to: string) {
    && from in pinned && from !in current && to in current && to !in pinned
    && pinned[from] == current[to]
    && Sole(pinned, from) && Sole(current, to)
  }

  ghost predicate MovesAway(pinned: Files, current: Files, from: string) {
    exists to :: IsRename(pinned, current, from, to)
  }

  ghost predicate MovesHere(pinned: Files, current: Files, to: string) {
    exists from :: IsRename(pinned, current, from, to)
  }

  ghost predicate InDelta(op: Operation, pinned: Files, current: Files) {
    match op.status
    case Modified => op.previous == None && op.path in pinned && op.path in current
                     && pinned[op.path] != current[op.path]
    case Renamed => op.previous.Some? && IsRename(pinned, current, op.previous.value, op.path)
    case Removed => op.previous == None && op.path in pinned && op.path !in current
                    && !MovesAway(pinned, current, op.path)
    case Added => op.previous == None && op.path in current && op.path !in pinned
                  && !MovesHere(pinned, current, op.path)
  }

  // ---- the order of the list ----

  function StatusName(s: Status): string {
    match s
    case Added => "added"
    case Modified => "modified"
    case Removed => "removed"
    case Renamed => "renamed"
  }

  function PreviousName(op: Operation): string {
    if op.previous.Some? then op.previous.value else ""
  }

  /** The sort key: path, previous path, status. */
  predicate Before(a: Operation, b: Operation) {
    if a.path != b.path then Below(a.path, b.path)
    else if PreviousName(a) != PreviousName(b) then Below(PreviousName(a), PreviousName(b))
    else Below(StatusName(a.status), StatusName(b.status))
  }

  predicate Ascending(ops: seq<Operation>) {
    forall i, j :: 0 <= i < j < |ops| ==> Before(ops[i], ops[j])
  }

  predicate NoRepeat(ops: seq<Operation>) {
    forall i, j :: 0 <= i < j < |ops| ==> ops[i] != ops[j]
  }

  /** The operations of the delta, each once, in the order of their keys. */
  ghost predicate IsDelta(ops: seq<Operation>, pinned: Files, current: Files) {
    && (forall op :: op in ops <==> InDelta(op, pinned, current))
    && Ascending(ops) && NoRepeat(ops)
  }

  lemma BeforeTotal(a: Operation, b: Operation)
    ensures Before(a, b) || Before(b, a)
  {
    BelowTotal(a.path, b.path);
    BelowTotal(PreviousName(a), PreviousName(b));
    BelowTotal(StatusName(a.status), StatusName(b.status));
  }

  /** No two operations of a delta name the same path. */
  lemma PathsDiffer(a: Operation, b: Operation, pinned: Files, current: Files)
    requires InDelta(a, pinned, current) && InDelta(b, pinned, current) && a != b
    ensures a.path != b.path
  {
  }

  lemma DeltaStrict(a: Operation, b: Operation, pinned: Files, current: Files)
    requires InDelta(a, pinned, current) && InDelta(b, pinned, current)
    requires Before(a, b) && Before(b, a)
    ensures a == b
  {
    if a != b {
      PathsDiffer(a, b, pinned, current);
      BelowTotal(a.path, b.path);
    }
  }

  /** There is only one such list: it does not depend on the order of any set or dictionary. */
  lemma {:induction false} DeltaUnique(x: seq<Operation>, y: seq<Operation>, pinned: Files, current: Files)
    requires forall op :: op in x <==> op in y
    requires forall op :: op in x ==> InDelta(op, pinned, current)
    requires Ascending(x) && NoRepeat(x) && Ascending(y) && NoRepeat(y)
    ensures x == y
    decreases |x|
  {
    assert x != [] ==> x[0] in y;
    assert y != [] ==> y[0] in x;
    if x != [] {
      FirstIsFirst(x, y[0]);
      FirstIsFirst(y, x[0]);
      if x[0] != y[0] {
        DeltaStrict(x[0], y[0], pinned, current);
      }
      TailMembers(x);
      TailMembers(y);
      DeltaUnique(x[1..], y[1..], pinned, current);
      assert x == [x[0]] + x[1..] && y == [y[0]] + y[1..];
    }
  }

  /** The delta of two trees is one list. */
  lemma DeltaDetermined(x: seq<Operation>, y: seq<Operation>, pinned: Files, current: Files)
    requires IsDelta(x, pinned, current) && IsDelta(y, pinned, current)
    ensures x == y
  {
    DeltaUnique(x, y, pinned, current);
  }

  /** It names its paths in ascending order, each once. */
  lemma DeltaAscends(ops: seq<Operation>, pinned: Files, current: Files, i: nat, j: nat)
    requires IsDelta(ops, pinned, current) && i < j < |ops|
    ensures ops[i].path != ops[j].path && Below(ops[i].path, ops[j].path)
  {
    assert ops[i] in ops && ops[j] in ops;
    PathsDiffer(ops[i], ops[j], pinned, current);
  }

  lemma FirstIsFirst(ops: seq<Operation>, op: Operation)
    requires Ascending(ops) && op in ops
    ensures op == ops[0] || Before(ops[0], op)
  {
  }

  lemma TailMembers(ops: seq<Operation>)
    requires ops != [] && NoRepeat(ops)
    ensures forall op :: op in ops[1..] <==> op in ops && op != ops[0]
  {
  }

  // ---- what the operations do ----

  /** The paths an operation accounts for. */
  function Accounts(op: Operation): set<string> {
    if op.previous.Some? then {op.path, op.previous.value} else {op.path}
  }

  predicate Changed(pinned: Files, current: Files, path: string) {
    !(path in pinned <==> path in current) || (path in pinned && pinned[path] != current[path])
  }

  /** Carries out one operation; a rename moves the file that is there. */
  function ApplyOp(files: Files, op: Operation, current: Files): Option<Files> {
    match op.status
    case Added => if op.path in current then Some(files[op.path := current[op.path]]) else None
    case Modified => if op.path in current then Some(files[op.path := current[op.path]]) else None
    case Removed => Some(files - {op.path})
    case Renamed =>
      if op.previous.None? || op.previous.value !in files then None
      else Some((files - {op.previous.value})[op.path := files[op.previous.value]])
  }

  function ApplyAll(files: Files, ops: seq<Operation>, current: Files): Option<Files>
    decreases |ops|
  {
    if ops == [] then Some(files)
    else
      var next :- ApplyOp(files, ops[0], current);
      ApplyAll(next, ops[1..], current)
  }

  /** The files after some operations: the current ones on accounted paths, the pinned ones elsewhere. */
  ghost predicate Halfway(files: Files, done: set<string>, pinned: Files, current: Files) {
    forall p ::
      && (p in done ==> (p in files <==> p in current) && (p in files ==> files[p] == current[p]))
      && (p !in done ==> (p in files <==> p in pinned) && (p in files ==> files[p] == pinned[p]))
  }

  lemma ApplyOne(files: Files, done: set<string>, op: Operation, pinned: Files, current: Files)
    requires Halfway(files, done, pinned, current) && InDelta(op, pinned, current)
    requires Accounts(op) !! done
    ensures var next := ApplyOp(files, op, current);
            next.Some? && Halfway(next.value, done + Accounts(op), pinned, current)
  {
    if op.status == Renamed {
      assert op.previous.value !in done;
    }
  }

  function AllAccounts(ops: seq<Operation>): set<string> {
    if ops == [] then {} else Accounts(ops[0]) + AllAccounts(ops[1..])
  }

  /** No path is accounted for by two operations. */
  lemma AccountsDisjoint(a: Operation, b: Operation, pinned: Files, current: Files)
    requires InDelta(a, pinned, current) && InDelta(b, pinned, current) && a != b
    ensures Accounts(a) !! Accounts(b)
  {
    forall p | p in Accounts(a) && p in Accounts(b)
      ensures false
    {
      if a.status == Renamed && b.status == Renamed {
        RenamesMatch(pinned, current, a.previous.value, a.path, b.previous.value, b.path);
      }
    }
  }

  /** The renames are a matching: neither end is shared by two of them. */
  lemma RenamesMatch(pinned: Files, current: Files, from: string, to: string, from': string, to': string)
    requires IsRename(pinned, current, from, to) && IsRename(pinned, current, from', to')
    ensures from == from' <==> to == to'
  {
  }

  lemma {:induction false} OthersDisjoint(op: Operation, ops: seq<Operation>, pinned: Files, current: Files)
    requires InDelta(op, pinned, current) && op !in ops
    requires forall o :: o in ops ==> InDelta(o, pinned, current)
    ensures Accounts(op) !! AllAccounts(ops)
    decreases |ops|
  {
    if ops != [] {
      AccountsDisjoint(op, ops[0], pinned, current);
      OthersDisjoint(op, ops[1..], pinned, current);
    }
  }

  lemma {:induction false} ApplyRest(files: Files, done: set<string>, ops: seq<Operation>,
                                     pinned: Files, current: Files)
    requires Halfway(files, done, pinned, current) && AllAccounts(ops) !! done && NoRepeat(ops)
    requires forall op :: op in ops ==> InDelta(op, pinned, current)
    ensures var end := ApplyAll(files, ops, current);
            end.Some? && Halfway(end.value, done + AllAccounts(ops), pinned, current)
    decreases |ops|
  {
    if ops != [] {
      var op, rest := ops[0], ops[1..];
      ApplyOne(files, done, op, pinned, current);
      TailMembers(ops);
      OthersDisjoint(op, rest, pinned, current);
      ApplyRest(ApplyOp(files, op, current).value, done + Accounts(op), rest, pinned, current);
      assert done + Accounts(op) + AllAccounts(rest) == done + AllAccounts(ops);
    }
  }

  lemma {:induction false} AllAccountsMeans(ops: seq<Operation>, p: string)
    ensures p in AllAccounts(ops) <==> exists op :: op in ops && p in Accounts(op)
    decreases |ops|
  {
    if ops != [] {
      AllAccountsMeans(ops[1..], p);
      assert ops == [ops[0]] + ops[1..];
      assert forall op :: op in ops <==> op == ops[0] || op in ops[1..];
    }
  }

  /** The operation that accounts for a changed path. */
  lemma ChangedIsAccounted(pinned: Files, current: Files, p: string) returns (op: Operation)
    requires Changed(pinned, current, p)
    ensures InDelta(op, pinned, current) && p in Accounts(op)
  {
    if p in pinned && p in current {
      op := Operation(Modified, p, None);
    } else if p in pinned {
      op := Operation(Removed, p, None);
      if to :| IsRename(pinned, current, p, to) {
        op := Operation(Renamed, to, Some(p));
      }
    } else {
      op := Operation(Added, p, None);
      if from :| IsRename(pinned, current, from, p) {
        op := Operation(Renamed, p, Some(from));
      }
    }
  }

  /** The delta accounts for every changed path, each in one operation, and for no other path. */
  lemma DeltaAccountsExactly(ops: seq<Operation>, pinned: Files, current: Files)
    requires IsDelta(ops, pinned, current)
    ensures forall p :: p in AllAccounts(ops) <==> Changed(pinned, current, p)
    ensures forall i, j :: 0 <= i < j < |ops| ==> Accounts(ops[i]) !! Accounts(ops[j])
  {
    forall p
      ensures p in AllAccounts(ops) <==> Changed(pinned, current, p)
    {
      AllAccountsMeans(ops, p);
      if Changed(pinned, current, p) {
        var op := ChangedIsAccounted(pinned, current, p);
        assert op in ops;
      }
    }
    forall i, j | 0 <= i < j < |ops|
      ensures Accounts(ops[i]) !! Accounts(ops[j])
    {
      assert ops[i] in ops && ops[j] in ops;
      AccountsDisjoint(ops[i], ops[j], pinned, current);
    }
  }

  /** Carrying out the delta turns the pinned tree into the current one. */
  lemma DeltaApplies(ops: seq<Operation>, pinned: Files, current: Files)
    requires IsDelta(ops, pinned, current)
    ensures ApplyAll(pinned, ops, current) == Some(current)
  {
    ApplyRest(pinned, {}, ops, pinned, current);
    DeltaAccountsExactly(ops, pinned, current);
    var end := ApplyAll(pinned, ops, current).value;
    forall p
      ensures (p in end <==> p in current) && (p in end ==> end[p] == current[p])
    {
      assert p in AllAccounts(ops) <==> Changed(pinned, current, p);
    }
    assert end == current;
  }

  // ---- the loops of the source ----

  /** The given paths of a tree that have an identity. */
  function Holders(files: Files, paths: set<string>, id: FileId): set<string> {
    set p | p in paths && p in files && files[p] == id
  }

  lemma HoldersGrow(files: Files, paths: set<string>, p: string, id: FileId)
    requires p in files && p !in paths
    ensures Holders(files, paths + {p}, id)
            == Holders(files, paths, id) + (if files[p] == id then {p} else {})
    ensures p !in Holders(files, paths, id)
  {
  }

  lemma SoleMeansOne(files: Files, path: string)
    requires path in files
    ensures Sole(files, path) <==> |Holders(files, files.Keys, files[path])| == 1
  {
    var holders := Holders(files, files.Keys, files[path]);
    var rest := holders - {path};
    assert |holders| == |rest| + 1;
    if Sole(files, path) {
      assert rest == {};
    }
    if rest == {} {
      forall p | p in files && files[p] == files[path]
        ensures p == path
      {
        assert p in holders;
      }
    }
  }

  function CountOf(counts: map<FileId, nat>, id: FileId): nat {
    if id in counts then counts[id] else 0
  }

  /** How many paths of a tree share each identity. */
  method CountIdentities(files: Files) returns (counts: map<FileId, nat>)
    ensures forall id :: CountOf(counts, id) == |Holders(files, files.Keys, id)|
  {
    counts := map[];
    var left, seen := files.Keys, {};
    assert forall id :: Holders(files, seen, id) == {};
    while left != {}
      invariant left !! seen && left + seen == files.Keys
      invariant forall id :: CountOf(counts, id) == |Holders(files, seen, id)|
      decreases |left|
    {
      var p :| p in left;
      forall id
        ensures |Holders(files, seen + {p}, id)|
                == |Holders(files, seen, id)| + (if files[p] == id then 1 else 0)
      {
        HoldersGrow(files, seen, p, id);
      }
      counts := counts[files[p] := CountOf(counts, files[p]) + 1];
      left, seen := left - {p}, seen + {p};
    }
  }

  function GroupOf(groups: map<FileId, set<string>>, id: FileId): set<string> {
    if id in groups then groups[id] else {}
  }

  lemma GroupsGrow(files: Files, seen: set<string>, p: string,
                   groups: map<FileId, set<string>>, grown: map<FileId, set<string>>)
    requires p in files && p !in seen
    requires forall id :: GroupOf(groups, id) == Holders(files, seen, id)
    requires forall id :: id in groups ==> groups[id] != {}
    requires grown == groups[files[p] := GroupOf(groups, files[p]) + {p}]
    ensures forall id :: GroupOf(grown, id) == Holders(files, seen + {p}, id)
    ensures forall id :: id in grown ==> grown[id] != {}
  {
    forall id ensures GroupOf(grown, id) == Holders(files, seen + {p}, id) {
      HoldersGrow(files, seen, p, id);
    }
    assert p in grown[files[p]];
  }

  /** The given paths of a tree, gathered under their identities. */
  method GroupByIdentity(files: Files, paths: set<string>) returns (groups: map<FileId, set<string>>)
    requires paths <= files.Keys
    ensures forall id :: GroupOf(groups, id) == Holders(files, paths, id)
    ensures forall id :: id in groups ==> groups[id] != {}
  {
    groups := map[];
    var left, seen := paths, {};
    assert forall id :: Holders(files, seen, id) == {};
    while left != {}
      invariant left !! seen && left + seen == paths
      invariant forall id :: GroupOf(groups, id) == Holders(files, seen, id)
      invariant forall id :: id in groups ==> groups[id] != {}
      decreases |left|
    {
      var p :| p in left;
      var grown := groups[files[p] := GroupOf(groups, files[p]) + {p}];
      GroupsGrow(files, seen, p, groups, grown);
      groups := grown;
      left, seen := left - {p}, seen + {p};
    }
  }

  /** Whether the paths of one identity are paired: one left on each side, one in each whole tree. */
  predicate Pairs(pinned: Files, current: Files, removed: set<string>, added: set<string>, id: FileId) {
    && |Holders(pinned, removed, id)| == |Holders(current, added, id)| == 1
    && |Holders(pinned, pinned.Keys, id)| == 1 && |Holders(current, current.Keys, id)| == 1
  }

  lemma OnlyMember(s: set<string>, x: string)
    requires x in s && |s| == 1
    ensures s == {x}
  {
    assert |s - {x}| == 0;
    assert s == (s - {x}) + {x};
  }

  /** The pair found for an identity is its only rename. */
  lemma PairedIsRename(pinned: Files, current: Files, id: FileId, from: string, to: string)
    requires Pairs(pinned, current, pinned.Keys - current.Keys, current.Keys - pinned.Keys, id)
    requires from in Holders(pinned, pinned.Keys - current.Keys, id)
    requires to in Holders(current, current.Keys - pinned.Keys, id)
    ensures forall f, t :: IsRename(pinned, current, f, t) && pinned[f] == id <==> f == from && t == to
  {
    SoleMeansOne(pinned, from);
    SoleMeansOne(current, to);
  }

  /** An identity that is not paired has no rename. */
  lemma UnpairedHasNone(pinned: Files, current: Files, id: FileId, from: string, to: string)
    requires IsRename(pinned, current, from, to) && pinned[from] == id
    ensures Pairs(pinned, current, pinned.Keys - current.Keys, current.Keys - pinned.Keys, id)
    ensures from in Holders(pinned, pinned.Keys - current.Keys, id)
    ensures to in Holders(current, current.Keys - pinned.Keys, id)
  {
    SoleMeansOne(pinned, from);
    SoleMeansOne(current, to);
    var old', new' := Holders(pinned, pinned.Keys, id), Holders(current, current.Keys, id);
    OnlyMember(old', from);
    OnlyMember(new', to);
    assert Holders(pinned, pinned.Keys - current.Keys, id) == {from};
    assert Holders(current, current.Keys - pinned.Keys, id) == {to};
  }

  /** A rename pair: the old path and the new one. */
  type Pair = (string, string)

  /** The renames whose identity has been looked at. */
  ghost predicate PairsAre(pairs: set<Pair>, pinned: Files, current: Files, left: set<FileId>) {
    forall pair: Pair ::
      pair in pairs <==> IsRename(pinned, current, pair.0, pair.1) && pinned[pair.0] !in left
  }

  /** The renames of one identity. */
  ghost predicate FoundAre(found: set<Pair>, pinned: Files, current: Files, id: FileId) {
    forall pair: Pair ::
      pair in found <==> IsRename(pinned, current, pair.0, pair.1) && pinned[pair.0] == id
  }

  function Froms(pairs: set<Pair>): set<string> {
    set pair | pair in pairs :: pair.0
  }

  function Tos(pairs: set<Pair>): set<string> {
    set pair | pair in pairs :: pair.1
  }

  lemma PairsStep(pairs: set<Pair>, pinned: Files, current: Files, left: set<FileId>, id: FileId,
                  found: set<Pair>)
    requires PairsAre(pairs, pinned, current, left) && id in left
    requires FoundAre(found, pinned, current, id)
    ensures PairsAre(pairs + found, pinned, current, left - {id})
    ensures Froms(pairs + found) == Froms(pairs) + Froms(found)
    ensures Tos(pairs + found) == Tos(pairs) + Tos(found)
  {
  }

  /** The pair of one identity, if exactly one path has it on each side and in each whole tree. */
  method PairOne(pinned: Files, current: Files, id: FileId, oldCandidates: set<string>,
                 newCandidates: set<string>, pinnedCount: nat, currentCount: nat)
    returns (found: set<Pair>)
    requires oldCandidates == Holders(pinned, pinned.Keys - current.Keys, id)
    requires newCandidates == Holders(current, current.Keys - pinned.Keys, id)
    requires pinnedCount == |Holders(pinned, pinned.Keys, id)|
    requires currentCount == |Holders(current, current.Keys, id)|
    ensures FoundAre(found, pinned, current, id)
  {
    if |oldCandidates| == |newCandidates| == 1 && pinnedCount == 1 && currentCount == 1 {
      var from :| from in oldCandidates;
      var to :| to in newCandidates;
      found := {(from, to)};
      PairedIsRename(pinned, current, id, from, to);
    } else {
      found := {};
      NoneUnpaired(pinned, current, id);
    }
  }

  /** Pairs the unique exact moves and takes their ends off the two path sets. */
  method PairRenames(pinned: Files, current: Files)
    returns (pairs: set<Pair>, removed: set<string>, added: set<string>)
    ensures PairsAre(pairs, pinned, current, {})
    ensures removed == pinned.Keys - current.Keys - Froms(pairs)
    ensures added == current.Keys - pinned.Keys - Tos(pairs)
  {
    removed, added := pinned.Keys - current.Keys, current.Keys - pinned.Keys;
    ghost var gone, come := removed, added;
    var pinnedCounts := CountIdentities(pinned);
    var currentCounts := CountIdentities(current);
    var pinnedByIdentity := GroupByIdentity(pinned, removed);
    var currentByIdentity := GroupByIdentity(current, added);
    pairs := {};
    var left := pinnedByIdentity.Keys * currentByIdentity.Keys;
    SharedCovers(pinned, current, left, pinnedByIdentity, currentByIdentity);
    while left != {}
      invariant left <= pinnedByIdentity.Keys * currentByIdentity.Keys
      invariant PairsAre(pairs, pinned, current, left)
      invariant removed == gone - Froms(pairs) && added == come - Tos(pairs)
      decreases |left|
    {
      var id :| id in left;
      var found := PairOne(pinned, current, id, GroupOf(pinnedByIdentity, id),
                           GroupOf(currentByIdentity, id),
                           CountOf(pinnedCounts, id), CountOf(currentCounts, id));
      removed, added := removed - Froms(found), added - Tos(found);
      PairsStep(pairs, pinned, current, left, id, found);
      pairs, left := pairs + found, left - {id};
    }
  }

  lemma NoneUnpaired(pinned: Files, current: Files, id: FileId)
    requires !Pairs(pinned, current, pinned.Keys - current.Keys, current.Keys - pinned.Keys, id)
    ensures forall f, t :: IsRename(pinned, current, f, t) ==> pinned[f] != id
  {
    forall f, t | IsRename(pinned, current, f, t)
      ensures pinned[f] != id
    {
      if pinned[f] == id {
        UnpairedHasNone(pinned, current, id, f, t);
      }
    }
  }

  lemma SharedCovers(pinned: Files, current: Files, left: set<FileId>,
                     old': map<FileId, set<string>>, new': map<FileId, set<string>>)
    requires forall id :: GroupOf(old', id) == Holders(pinned, pinned.Keys - current.Keys, id)
    requires forall id :: GroupOf(new', id) == Holders(current, current.Keys - pinned.Keys, id)
    requires left == old'.Keys * new'.Keys
    ensures PairsAre({}, pinned, current, left)
  {
    forall f, t | IsRename(pinned, current, f, t)
      ensures pinned[f] in left
    {
      UnpairedHasNone(pinned, current, pinned[f], f, t);
      assert f in GroupOf(old', pinned[f]) && t in GroupOf(new', pinned[f]);
    }
  }

  lemma BeforeTransitive(a: Operation, b: Operation, c: Operation)
    requires Before(a, b) && Before(b, c)
    ensures Before(a, c)
  {
    BelowTotal(a.path, b.path);
    BelowTotal(b.path, c.path);
    BelowTransitive(a.path, b.path, c.path);
    if a.path == c.path {
      BelowTotal(PreviousName(a), PreviousName(b));
      BelowTotal(PreviousName(b), PreviousName(c));
      BelowTransitive(PreviousName(a), PreviousName(b), PreviousName(c));
      if PreviousName(a) == PreviousName(c) {
        BelowTransitive(StatusName(a.status), StatusName(b.status), StatusName(c.status));
      }
    }
  }

  /** Puts one operation where its key belongs. */
  method InsertSorted(ops: seq<Operation>, op: Operation) returns (r: seq<Operation>)
    requires Ascending(ops) && NoRepeat(ops) && op !in ops
    ensures Ascending(r) && NoRepeat(r)
    ensures forall o :: o in r <==> o in ops || o == op
  {
    var k := |ops|;
    while k > 0 && Before(op, ops[k - 1])
      invariant 0 <= k <= |ops|
      invariant forall i :: k <= i < |ops| ==> Before(op, ops[i])
    {
      k := k - 1;
    }
    r := ops[..k] + [op] + ops[k..];
    forall i | 0 <= i < k
      ensures Before(ops[i], op)
    {
      BeforeTotal(op, ops[k - 1]);
      if i < k - 1 {
        BeforeTransitive(ops[i], ops[k - 1], op);
      }
    }
  }

  /** All elements of a set of operations, in the order of their keys. */
  method SortOperations(s: set<Operation>) returns (ops: seq<Operation>)
    ensures Ascending(ops) && NoRepeat(ops)
    ensures forall op :: op in ops <==> op in s
  {
    ops := [];
    var left := s;
    while left != {}
      invariant left <= s
      invariant Ascending(ops) && NoRepeat(ops)
      invariant forall op :: op in ops <==> op in s - left
      decreases |left|
    {
      var op :| op in left;
      ops := InsertSorted(ops, op);
      left := left - {op};
    }
  }

  /** The review operations between two trees. */
  method SourceTreeOperations(pinned: Files, current: Files) returns (ops: seq<Operation>)
    ensures IsDelta(ops, pinned, current)
  {
    var pairs, removed, added := PairRenames(pinned, current);
    var both := pinned.Keys * current.Keys;
    var all := (set p | p in both && pinned[p] != current[p] :: Operation(Modified, p, None))
               + (set pair | pair in pairs :: Operation(Renamed, pair.1, Some(pair.0)))
               + (set p | p in removed :: Operation(Removed, p, None))
               + (set p | p in added :: Operation(Added, p, None));
    ops := SortOperations(all);
    forall op
      ensures op in all <==> InDelta(op, pinned, current)
    {
      AllIsDelta(op, pinned, current, pairs, removed, added);
    }
  }

  lemma AllIsDelta(op: Operation, pinned: Files, current: Files, pairs: set<Pair>,
                   removed: set<string>, added: set<string>)
    requires PairsAre(pairs, pinned, current, {})
    requires removed == pinned.Keys - current.Keys - Froms(pairs)
    requires added == current.Keys - pinned.Keys - Tos(pairs)
    ensures InDelta(op, pinned, current) <==>
      match op.status
      case Modified => op.previous == None && op.path in pinned && op.path in current
                       && pinned[op.path] != current[op.path]
      case Renamed => op.previous.Some? && (op.previous.value, op.path) in pairs
      case Removed => op.previous == None && op.path in removed
      case Added => op.previous == None && op.path in added
  {
    match op.status
    case Removed =>
      forall to | IsRename(pinned, current, op.path, to)
        ensures op.path in Froms(pairs)
      {
        assert (op.path, to) in pairs;
      }
    case Added =>
      forall from | IsRename(pinned, current, from, op.path)
        ensures op.path in Tos(pairs)
      {
        assert (from, op.path) in pairs;
      }
    case _ =>
  }
}

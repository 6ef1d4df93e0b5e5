/** Building a nested Git tree from flat paths, and the identity of its root. */
module GitTree {
  import opened Wrappers
  import opened Text
  import opened HunkHeader
  import opened Ordering

  // ---- files and nested nodes ----

  // A byte string is written as the characters with the same codes.
  type Bytes = string

  /** The entry modes a catalog tree may hold. */
  datatype Mode = Regular | Executable | Symlink | Gitlink

  function ModeBytes(m: Mode): Bytes {
    match m
    case Regular => "100644"
    case Executable => "100755"
    case Symlink => "120000"
    case Gitlink => "160000"
  }

  function ModeOf(kind: string, mode: string): Option<Mode> {
    if kind == "blob" && mode == "100644" then Some(Regular)
    else if kind == "blob" && mode == "100755" then Some(Executable)
    else if kind == "blob" && mode == "120000" then Some(Symlink)
    else if kind == "commit" && mode == "160000" then Some(Gitlink)
    else None
  }

  predicate Supported(kind: string, mode: string) {
    || (kind == "blob" && (mode == "100644" || mode == "100755" || mode == "120000"))
    || (kind == "commit" && mode == "160000")
  }

  /** The mode written for an entry is the mode it was listed with. */
  lemma ModeKept(kind: string, mode: string)
    ensures ModeOf(kind, mode).Some? <==> Supported(kind, mode)
    ensures ModeOf(kind, mode).Some? ==> ModeBytes(ModeOf(kind, mode).value) == mode
  {
  }

  /** One row of the flat listing; sha is the 20-byte object id. */
  datatype Row = Row(path: Bytes, kind: string, mode: string, sha: Bytes)

  datatype Blob = Blob(mode: Mode, sha: Bytes)

  datatype Node = File(blob: Blob) | Dir(entries: map<Bytes, Node>)

  type Entries = map<Bytes, Node>

  // ---- building ----

  /** Adds one file below the directories its components name, which are made where missing. */
  function Insert(entries: Entries, parts: seq<Bytes>, blob: Blob): Option<Entries>
    requires parts != []
    decreases |parts|
  {
    var name := parts[0];
    if |parts| == 1 then
      if name in entries then None else Some(entries[name := File(blob)])
    else if name in entries && entries[name].File? then None
    else
      var below := if name in entries then entries[name].entries else map[];
      var filled :- Insert(below, parts[1..], blob);
      Some(entries[name := Dir(filled)])
  }

  /** The tree of the first k rows, None once a row is refused. */
  function Build(rows: seq<Row>, k: nat): Option<Entries>
    requires k <= |rows|
  {
    if k == 0 then Some(map[])
    else
      var entries :- Build(rows, k - 1);
      var row := rows[k - 1];
      var mode :- ModeOf(row.kind, row.mode);
      Insert(entries, Split(row.path, '/'), Blob(mode, row.sha))
  }

  method BuildNodes(rows: seq<Row>) returns (r: Option<Entries>)
    ensures r == Build(rows, |rows|)
    ensures r.Some? <==> Buildable(rows)
    ensures r.Some? ==> HoldsExactly(r.value, rows)
  {
    BuildFailsExactly(rows);
    var nodes: Entries := map[];
    for k := 0 to |rows|
      invariant Build(rows, k) == Some(nodes)
    {
      var mode := ModeOf(rows[k].kind, rows[k].mode);
      BuildRefused(rows, k + 1);
      if mode.None? {
        return None;
      }
      var next := Insert(nodes, Split(rows[k].path, '/'), Blob(mode.value, rows[k].sha));
      if next.None? {
        return None;
      }
      nodes := next.value;
    }
    BuiltHolds(rows);
    r := Some(nodes);
  }

  lemma {:induction false} BuildRefused(rows: seq<Row>, k: nat)
    requires k <= |rows|
    ensures Build(rows, k).None? ==> Build(rows, |rows|).None?
    decreases |rows| - k
  {
    if k < |rows| {
      BuildRefused(rows, k + 1);
    }
  }

  // ---- looking up and flattening ----

  /** The file at a path of components, if there is one. */
  function Lookup(entries: Entries, parts: seq<Bytes>): Option<Blob>
    decreases |parts|
  {
    if parts == [] || parts[0] !in entries then None
    else
      match entries[parts[0]]
      case File(blob) => if |parts| == 1 then Some(blob) else None
      case Dir(below) => Lookup(below, parts[1..])
  }

  /** Below this node no directory is empty. */
  ghost predicate FullNode(n: Node)
    decreases n
  {
    n.Dir? ==> n.entries != map[] && forall name :: name in n.entries ==> FullNode(n.entries[name])
  }

  /** No directory below the root is empty. */
  ghost predicate Full(entries: Entries) {
    forall name :: name in entries ==> FullNode(entries[name])
  }

  /** One path leads through or to the other. */
  predicate Collide(a: seq<Bytes>, b: seq<Bytes>) {
    a <= b || b <= a
  }

  /** Some file of the tree lies on the way to parts, or parts lies on the way to it. */
  ghost predicate Blocked(entries: Entries, parts: seq<Bytes>) {
    exists q :: Lookup(entries, q).Some? && Collide(q, parts)
  }

  /** Below every node of a full tree there is a file. */
  lemma {:induction false} FileBelow(name: Bytes, n: Node) returns (q: seq<Bytes>)
    requires FullNode(n)
    ensures q != [] && q[0] == name && Lookup(map[name := n], q).Some?
    decreases n
  {
    match n
    case File(_) =>
      q := [name];
    case Dir(below) =>
      var child :| child in below;
      var rest := FileBelow(child, below[child]);
      q := [name] + rest;
      assert q[1..] == rest;
      assert Lookup(below, rest) == Lookup(map[child := below[child]], rest);
  }

  lemma SomeFile(entries: Entries, name: Bytes) returns (q: seq<Bytes>)
    requires Full(entries) && name in entries
    ensures q != [] && q[0] == name && Lookup(entries, q).Some?
  {
    q := FileBelow(name, entries[name]);
    assert Lookup(entries, q) == Lookup(map[name := entries[name]], q);
  }

  /** Inserting succeeds exactly where nothing blocks the path. */
  lemma {:induction false} InsertBlocked(entries: Entries, parts: seq<Bytes>, blob: Blob)
    requires Full(entries) && parts != []
    ensures Insert(entries, parts, blob).None? <==> Blocked(entries, parts)
    decreases |parts|
  {
    var name, rest := parts[0], parts[1..];
    if name !in entries {
      forall q | Lookup(entries, q).Some?
        ensures !Collide(q, parts)
      {
        assert q[0] != name;
      }
      if |parts| > 1 {
        assert Full(map[]);
        InsertBlocked(map[], rest, blob);
      }
    } else if |parts| == 1 {
      var q := SomeFile(entries, name);
      assert parts <= q;
    } else if entries[name].File? {
      assert Lookup(entries, [name]).Some? && [name] <= parts;
    } else {
      var below := entries[name].entries;
      InsertBlocked(below, rest, blob);
      BlockedBelow(entries, parts);
    }
  }

  lemma BlockedBelow(entries: Entries, parts: seq<Bytes>)
    requires |parts| > 1 && parts[0] in entries && entries[parts[0]].Dir?
    ensures Blocked(entries, parts) <==> Blocked(entries[parts[0]].entries, parts[1..])
  {
    var name, rest, below := parts[0], parts[1..], entries[parts[0]].entries;
    forall q | Lookup(entries, q).Some? && Collide(q, parts)
      ensures Blocked(below, rest)
    {
      assert q[0] == name;
      assert Lookup(below, q[1..]).Some? && Collide(q[1..], rest);
    }
    forall q | Lookup(below, q).Some? && Collide(q, rest)
      ensures Blocked(entries, parts)
    {
      var up := [name] + q;
      assert up[1..] == q;
      assert Lookup(entries, up).Some?;
      assert parts == [name] + rest;
    }
  }

  /** An insert adds the one file and keeps every other. */
  lemma {:induction false} InsertLookup(entries: Entries, parts: seq<Bytes>, blob: Blob, q: seq<Bytes>)
    requires parts != [] && Insert(entries, parts, blob).Some?
    ensures Lookup(Insert(entries, parts, blob).value, q)
            == if q == parts then Some(blob) else Lookup(entries, q)
    decreases |parts|
  {
    var name, rest := parts[0], parts[1..];
    if q != [] && q[0] == name && |parts| > 1 {
      var below := if name in entries then entries[name].entries else map[];
      InsertLookup(below, rest, blob, q[1..]);
      assert q == [name] + q[1..] && parts == [name] + rest;
    } else if q != [] && q[0] == name {
      assert parts == [name] && q == [name] + q[1..];
    }
  }

  lemma {:induction false} InsertFull(entries: Entries, parts: seq<Bytes>, blob: Blob)
    requires parts != [] && Full(entries) && Insert(entries, parts, blob).Some?
    ensures Full(Insert(entries, parts, blob).value) && Insert(entries, parts, blob).value != map[]
    decreases |parts|
  {
    var name := parts[0];
    var grown := Insert(entries, parts, blob).value;
    assert name in grown;
    if |parts| > 1 {
      var below := if name in entries then entries[name].entries else map[];
      assert Full(below);
      InsertFull(below, parts[1..], blob);
    }
  }

  // ---- what a built tree is ----

  /** The blob of a listed path. */
  function Listed(rows: seq<Row>, parts: seq<Bytes>): Option<Blob> {
    if rows == [] then None
    else
      var row := rows[|rows| - 1];
      var mode := ModeOf(row.kind, row.mode);
      if Split(row.path, '/') == parts && mode.Some? then Some(Blob(mode.value, row.sha))
      else Listed(rows[..|rows| - 1], parts)
  }

  predicate DistinctPaths(rows: seq<Row>) {
    forall i, j :: 0 <= i < j < |rows| ==> rows[i].path != rows[j].path
  }

  predicate AllModes(rows: seq<Row>) {
    forall i :: 0 <= i < |rows| ==> Supported(rows[i].kind, rows[i].mode)
  }

  lemma {:induction false} BuildPrefix(rows: seq<Row>, k: nat)
    requires k <= |rows|
    ensures Build(rows, k) == Build(rows[..k], k)
    decreases k
  {
    if k > 0 {
      BuildPrefix(rows, k - 1);
      BuildPrefix(rows[..k], k - 1);
      assert rows[..k][..k - 1] == rows[..k - 1];
    }
  }

  /** Flattening the built tree gives back the listing, path by path. */
  lemma {:induction false} BuildFlattens(rows: seq<Row>, parts: seq<Bytes>)
    requires Build(rows, |rows|).Some?
    ensures Full(Build(rows, |rows|).value)
    ensures Lookup(Build(rows, |rows|).value, parts) == Listed(rows, parts)
    decreases |rows|
  {
    if rows != [] {
      var n := |rows| - 1;
      var row := rows[n];
      BuildPrefix(rows, n);
      BuildFlattens(rows[..n], parts);
      var entries := Build(rows, n).value;
      var mode := ModeOf(row.kind, row.mode);
      var blob := Blob(mode.value, row.sha);
      InsertFull(entries, Split(row.path, '/'), blob);
      InsertLookup(entries, Split(row.path, '/'), blob, parts);
    }
  }

  // ---- when building fails ----

  function Parts(rows: seq<Row>, i: nat): (parts: seq<Bytes>)
    requires i < |rows|
    ensures parts != []
  {
    Split(rows[i].path, '/')
  }

  /** Every row has a supported mode and no path is on the way to another. */
  predicate Buildable(rows: seq<Row>) {
    && AllModes(rows)
    && forall i, j :: 0 <= i < j < |rows| ==> !Collide(Parts(rows, i), Parts(rows, j))
  }

  lemma {:induction false} ListedMeans(rows: seq<Row>, parts: seq<Bytes>)
    requires AllModes(rows)
    ensures Listed(rows, parts).Some? <==> exists i :: 0 <= i < |rows| && Parts(rows, i) == parts
    decreases |rows|
  {
    if rows != [] {
      var n := |rows| - 1;
      ModeKept(rows[n].kind, rows[n].mode);
      ListedMeans(rows[..n], parts);
      assert Parts(rows, n) == Split(rows[n].path, '/');
      forall i | 0 <= i < n
        ensures Parts(rows[..n], i) == Parts(rows, i)
      {
      }
    }
  }

  /** Building fails exactly when a mode is unsupported or one path lies on the way to another. */
  lemma {:induction false} BuildFailsExactly(rows: seq<Row>)
    ensures Build(rows, |rows|).Some? <==> Buildable(rows)
    decreases |rows|
  {
    if rows != [] {
      var n := |rows| - 1;
      var before := rows[..n];
      BuildPrefix(rows, n);
      BuildFailsExactly(before);
      BuildableSnoc(rows);
      ModeKept(rows[n].kind, rows[n].mode);
      if Buildable(before) && ModeOf(rows[n].kind, rows[n].mode).Some? {
        var entries, last := Build(before, n).value, Parts(rows, n);
        var blob := Blob(ModeOf(rows[n].kind, rows[n].mode).value, rows[n].sha);
        BuildFlattens(before, []);
        InsertBlocked(entries, last, blob);
        BlockedByListed(before, entries, last);
      }
    }
  }

  lemma BuildableSnoc(rows: seq<Row>)
    requires rows != []
    ensures var n := |rows| - 1;
            Buildable(rows) <==>
              && Buildable(rows[..n]) && ModeOf(rows[n].kind, rows[n].mode).Some?
              && forall i :: 0 <= i < n ==> !Collide(Parts(rows[..n], i), Parts(rows, n))
  {
    var n := |rows| - 1;
    assert forall i :: 0 <= i < n ==> Parts(rows[..n], i) == Parts(rows, i);
    assert forall i :: 0 <= i < n ==> rows[..n][i] == rows[i];
  }

  lemma BlockedByListed(rows: seq<Row>, entries: Entries, parts: seq<Bytes>)
    requires Build(rows, |rows|) == Some(entries) && AllModes(rows)
    ensures Blocked(entries, parts) <==> exists i :: 0 <= i < |rows| && Collide(Parts(rows, i), parts)
  {
    forall q | Lookup(entries, q).Some? && Collide(q, parts)
      ensures exists i :: 0 <= i < |rows| && Collide(Parts(rows, i), parts)
    {
      BuildFlattens(rows, q);
      ListedMeans(rows, q);
    }
    forall i | 0 <= i < |rows| && Collide(Parts(rows, i), parts)
      ensures Blocked(entries, parts)
    {
      BuildFlattens(rows, Parts(rows, i));
      ListedMeans(rows, Parts(rows, i));
    }
  }

  // ---- independence of the listing order ----

  lemma LookupSingle(name: Bytes, n: Node)
    ensures Lookup(map[name := n], [name]) == if n.File? then Some(n.blob) else None
  {
    assert [name][1..] == [];
  }

  /** Full trees that hold the same files are the same tree. */
  lemma {:induction false} SameFilesSameNode(name: Bytes, a: Node, b: Node)
    requires FullNode(a) && FullNode(b)
    requires forall q :: Lookup(map[name := a], q) == Lookup(map[name := b], q)
    ensures a == b
    decreases a
  {
    var single := [name];
    LookupSingle(name, a);
    LookupSingle(name, b);
    assert Lookup(map[name := a], single) == Lookup(map[name := b], single);
    if a.Dir? && b.Dir? {
      forall q
        ensures Lookup(a.entries, q) == Lookup(b.entries, q)
      {
        var up := [name] + q;
        assert up[1..] == q;
        assert Lookup(map[name := a], up) == Lookup(map[name := b], up);
      }
      SameFilesSameEntries(a.entries, b.entries, a);
    }
  }

  lemma {:induction false} SameFilesSameEntries(a: Entries, b: Entries, bound: Node)
    requires Full(a) && Full(b)
    requires forall q :: Lookup(a, q) == Lookup(b, q)
    requires bound == Dir(a)
    ensures a == b
    decreases bound, 0
  {
    forall name | name in a
      ensures name in b
    {
      var q := SomeFile(a, name);
      assert Lookup(a, q) == Lookup(b, q);
    }
    forall name | name in b
      ensures name in a
    {
      var q := SomeFile(b, name);
      assert Lookup(a, q) == Lookup(b, q);
    }
    forall name | name in a
      ensures a[name] == b[name]
    {
      forall q
        ensures Lookup(map[name := a[name]], q) == Lookup(map[name := b[name]], q)
      {
        if q != [] && q[0] == name {
          assert Lookup(a, q) == Lookup(b, q);
          assert Lookup(map[name := a[name]], q) == Lookup(a, q);
          assert Lookup(map[name := b[name]], q) == Lookup(b, q);
        }
      }
      SameFilesSameNode(name, a[name], b[name]);
    }
  }

  lemma SplitInjective(a: Bytes, b: Bytes)
    requires Split(a, '/') == Split(b, '/')
    ensures a == b
  {
    JoinSplit(a, '/');
    JoinSplit(b, '/');
  }

  /** Whether two listings hold the same rows. */
  ghost predicate SameRows(a: seq<Row>, b: seq<Row>) {
    forall r :: r in a <==> r in b
  }

  lemma {:induction false} ListedIs(rows: seq<Row>, parts: seq<Bytes>, i: nat)
    requires AllModes(rows) && DistinctPaths(rows) && i < |rows| && Parts(rows, i) == parts
    ensures Listed(rows, parts) == Some(Blob(ModeOf(rows[i].kind, rows[i].mode).value, rows[i].sha))
    decreases |rows|
  {
    var n := |rows| - 1;
    if i < n {
      if Split(rows[n].path, '/') == parts {
        SplitInjective(rows[n].path, rows[i].path);
      }
      ListedIs(rows[..n], parts, i);
    }
  }

  lemma ListingCarries(a: seq<Row>, b: seq<Row>, parts: seq<Bytes>)
    requires AllModes(a) && AllModes(b) && DistinctPaths(a) && DistinctPaths(b) && SameRows(a, b)
    requires Listed(a, parts).Some?
    ensures Listed(b, parts) == Listed(a, parts)
  {
    ListedMeans(a, parts);
    var i :| 0 <= i < |a| && Parts(a, i) == parts;
    assert a[i] in b;
    var j :| 0 <= j < |b| && b[j] == a[i];
    ListedIs(a, parts, i);
    ListedIs(b, parts, j);
  }

  lemma SameRowsSameListing(a: seq<Row>, b: seq<Row>, parts: seq<Bytes>)
    requires AllModes(a) && AllModes(b) && DistinctPaths(a) && DistinctPaths(b) && SameRows(a, b)
    ensures Listed(a, parts) == Listed(b, parts)
  {
    if Listed(a, parts).Some? {
      ListingCarries(a, b, parts);
    } else if Listed(b, parts).Some? {
      ListingCarries(b, a, parts);
    }
  }

  lemma SameRowsBuildable(a: seq<Row>, b: seq<Row>)
    requires DistinctPaths(a) && DistinctPaths(b) && SameRows(a, b) && Buildable(a)
    ensures Buildable(b)
  {
    forall i | 0 <= i < |b|
      ensures ModeOf(b[i].kind, b[i].mode).Some?
    {
      assert b[i] in a;
    }
    forall i, j | 0 <= i < j < |b|
      ensures !Collide(Parts(b, i), Parts(b, j))
    {
      assert b[i] in a && b[j] in a;
      var i' :| 0 <= i' < |a| && a[i'] == b[i];
      var j' :| 0 <= j' < |a| && a[j'] == b[j];
      assert i' != j';
      assert Parts(a, i') == Parts(b, i) && Parts(a, j') == Parts(b, j);
      if j' < i' {
        assert !Collide(Parts(a, j'), Parts(a, i'));
      }
    }
  }

  /** The order of the listing decides neither whether a tree is built nor which one. */
  lemma BuildOrderIrrelevant(a: seq<Row>, b: seq<Row>)
    requires DistinctPaths(a) && DistinctPaths(b) && SameRows(a, b)
    ensures Build(a, |a|) == Build(b, |b|)
  {
    BuildFailsExactly(a);
    BuildFailsExactly(b);
    if Buildable(a) {
      SameRowsBuildable(a, b);
      var x, y := Build(a, |a|).value, Build(b, |b|).value;
      BuildFlattens(a, []);
      BuildFlattens(b, []);
      forall q
        ensures Lookup(x, q) == Lookup(y, q)
      {
        BuildFlattens(a, q);
        BuildFlattens(b, q);
        SameRowsSameListing(a, b, q);
      }
      SameFilesSameEntries(x, y, Dir(x));
    } else if Buildable(b) {
      SameRowsBuildable(b, a);
    }
  }

  /** At every listed path stands a file with the listed mode and id, and there is no other file. */
  ghost predicate HoldsExactly(entries: Entries, rows: seq<Row>) {
    && (forall i :: 0 <= i < |rows| ==>
          && Lookup(entries, Parts(rows, i)).Some?
          && ModeBytes(Lookup(entries, Parts(rows, i)).value.mode) == rows[i].mode
          && Lookup(entries, Parts(rows, i)).value.sha == rows[i].sha)
    && forall parts :: Lookup(entries, parts).Some? ==> exists i :: 0 <= i < |rows| && Parts(rows, i) == parts
  }

  lemma {:induction false} ListedAt(rows: seq<Row>, i: nat)
    requires Buildable(rows) && i < |rows|
    ensures var blob := Listed(rows, Parts(rows, i));
            blob.Some? && ModeBytes(blob.value.mode) == rows[i].mode && blob.value.sha == rows[i].sha
    decreases |rows|
  {
    var n := |rows| - 1;
    ModeKept(rows[n].kind, rows[n].mode);
    if i < n {
      BuildableSnoc(rows);
      ListedAt(rows[..n], i);
      assert Parts(rows[..n], i) == Parts(rows, i) && !Collide(Parts(rows, i), Parts(rows, n));
    }
  }

  lemma BuiltHoldsAt(rows: seq<Row>, i: nat)
    requires Build(rows, |rows|).Some? && i < |rows|
    ensures var blob := Lookup(Build(rows, |rows|).value, Parts(rows, i));
            blob.Some? && ModeBytes(blob.value.mode) == rows[i].mode && blob.value.sha == rows[i].sha
  {
    BuildFailsExactly(rows);
    BuildFlattens(rows, Parts(rows, i));
    ListedAt(rows, i);
  }

  /** A built tree holds exactly the files listed, each with its own mode and id. */
  lemma BuiltHolds(rows: seq<Row>)
    requires Build(rows, |rows|).Some?
    ensures HoldsExactly(Build(rows, |rows|).value, rows)
  {
    var entries := Build(rows, |rows|).value;
    BuildFailsExactly(rows);
    forall parts | Lookup(entries, parts).Some? ensures exists i :: 0 <= i < |rows| && Parts(rows, i) == parts {
      BuildFlattens(rows, parts);
      ListedMeans(rows, parts);
    }
    forall i | 0 <= i < |rows|
      ensures var blob := Lookup(entries, Parts(rows, i));
              blob.Some? && ModeBytes(blob.value.mode) == rows[i].mode && blob.value.sha == rows[i].sha
    {
      BuiltHoldsAt(rows, i);
    }
  }

  // ---- canonical encoding and identity ----

  /** Git sorts a directory as if its name ended in a slash. */
  function SortKey(entries: Entries, name: Bytes): Bytes
    requires name in entries
  {
    if entries[name].Dir? then name + "/" else name
  }

  ghost predicate IsLeast(entries: Entries, names: set<Bytes>, least: Bytes)
    requires names <= entries.Keys
  {
    && least in names
    && forall name :: name in names ==> Below(SortKey(entries, least), SortKey(entries, name))
  }

  lemma {:induction false} LeastExists(entries: Entries, names: set<Bytes>) returns (least: Bytes)
    requires names <= entries.Keys && names != {}
    ensures IsLeast(entries, names, least)
    decreases |names|
  {
    var some :| some in names;
    var others := names - {some};
    BelowTotal(SortKey(entries, some), SortKey(entries, some));
    if others == {} {
      assert names == {some};
      least := some;
    } else {
      var best := LeastExists(entries, others);
      BelowTotal(SortKey(entries, some), SortKey(entries, best));
      least := if Below(SortKey(entries, some), SortKey(entries, best)) then some else best;
      forall name | name in names
        ensures Below(SortKey(entries, least), SortKey(entries, name))
      {
        assert name == some || name in others;
        if name != some && least == some {
          BelowTransitive(SortKey(entries, some), SortKey(entries, best), SortKey(entries, name));
        }
      }
    }
  }

  /** The names of a directory in the order Git writes them. */
  ghost function Sorted(entries: Entries, names: set<Bytes>): (sorted: seq<Bytes>)
    requires names <= entries.Keys
    ensures forall name :: name in sorted <==> name in names
    decreases |names|
  {
    if names == {} then []
    else
      assert exists least :: IsLeast(entries, names, least) by {
        var least := LeastExists(entries, names);
      }
      var least :| IsLeast(entries, names, least);
      [least] + Sorted(entries, names - {least})
  }

  // Any function from byte strings to 20-byte ids can stand for SHA-1.
  type Hash = Bytes -> Bytes

  const SHA_SIZE := 20

  ghost predicate IsHash(h: Hash) {
    forall x :: |h(x)| == SHA_SIZE
  }

  /** One entry as it is written: mode, blank, name, NUL, object id. */
  function RawEntry(mode: Bytes, name: Bytes, sha: Bytes): Bytes {
    mode + [' '] + (name + ['\U{00}'] + sha)
  }

  const DIR_MODE: Bytes := "40000"

  /** What is hashed for a tree: a header with the size, then the entries. */
  function Framed(content: Bytes): Bytes {
    ("tree " + Decimal(|content|)) + ['\U{00}'] + content
  }

  ghost function NodeEntry(h: Hash, name: Bytes, n: Node): Bytes
    decreases n, 3
  {
    match n
    case File(blob) => RawEntry(ModeBytes(blob.mode), name, blob.sha)
    case Dir(below) => RawEntry(DIR_MODE, name, NodeId(h, n))
  }

  /** The concatenation of the entries of a directory under the given names. */
  ghost function Content(h: Hash, n: Node, names: seq<Bytes>): Bytes
    requires n.Dir? && forall k :: 0 <= k < |names| ==> names[k] in n.entries
    decreases n, 0, |names|
  {
    if names == [] then []
    else NodeEntry(h, names[0], n.entries[names[0]]) + Content(h, n, names[1..])
  }

  /** The Git object id of a directory. */
  ghost function NodeId(h: Hash, n: Node): Bytes
    requires n.Dir?
    decreases n, 2
  {
    h(Hashed(h, n))
  }

  /** The bytes whose hash is the id of a directory. */
  ghost function Hashed(h: Hash, n: Node): Bytes
    requires n.Dir?
    decreases n, 1
  {
    Framed(Content(h, n, Sorted(n.entries, n.entries.Keys)))
  }
}

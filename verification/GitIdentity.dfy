/** The root id of a tree determines the tree, unless the hash collides on that very tree. */
module GitIdentity {
  import opened Wrappers
  import opened Text
  import opened HunkHeader
  import opened GitTree

  // ---- reading back one encoding ----

  /** What stands before the first separator, and what stands after it, are determined. */
  lemma CutOnce(a: Bytes, b: Bytes, restA: Bytes, restB: Bytes, separator: char)
    requires separator !in a && separator !in b
    requires a + [separator] + restA == b + [separator] + restB
    ensures a == b && restA == restB
  {
    var s, t := a + [separator] + restA, b + [separator] + restB;
    assert s[|a|] == separator && t[|b|] == separator;
    assert forall k :: 0 <= k < |a| ==> s[k] == a[k] && a[k] != separator;
    assert forall k :: 0 <= k < |b| ==> t[k] == b[k] && b[k] != separator;
    assert |a| == |b|;
    assert a == s[..|a|] && b == t[..|b|];
    assert restA == s[|a| + 1..] && restB == t[|b| + 1..];
  }

  lemma FramedInjective(x: Bytes, y: Bytes)
    requires Framed(x) == Framed(y)
    ensures x == y
  {
    CutOnce("tree " + Decimal(|x|), "tree " + Decimal(|y|), x, y, '\U{00}');
  }

  lemma RawEntryReadsBack(mode: Bytes, name: Bytes, sha: Bytes, rest: Bytes,
                          mode': Bytes, name': Bytes, sha': Bytes, rest': Bytes)
    requires ' ' !in mode && ' ' !in mode' && '\U{00}' !in name && '\U{00}' !in name'
    requires |sha| == |sha'| == SHA_SIZE
    requires RawEntry(mode, name, sha) + rest == RawEntry(mode', name', sha') + rest'
    ensures mode == mode' && name == name' && sha == sha' && rest == rest'
  {
    var tail, tail' := sha + rest, sha' + rest';
    assert RawEntry(mode, name, sha) + rest == mode + [' '] + (name + ['\U{00}'] + tail);
    assert RawEntry(mode', name', sha') + rest' == mode' + [' '] + (name' + ['\U{00}'] + tail');
    CutOnce(mode, mode', name + ['\U{00}'] + tail, name' + ['\U{00}'] + tail', ' ');
    CutOnce(name, name', tail, tail', '\U{00}');
    assert sha == tail[..SHA_SIZE] && sha' == tail'[..SHA_SIZE];
    assert rest == tail[SHA_SIZE..] && rest' == tail'[SHA_SIZE..];
  }

  /** Names are without NUL and file ids have 20 bytes, all the way down. */
  ghost predicate Encodable(n: Node)
    decreases n
  {
    match n
    case File(blob) => |blob.sha| == SHA_SIZE
    case Dir(entries) =>
      forall name :: name in entries ==> '\U{00}' !in name && Encodable(entries[name])
  }

  function NodeMode(n: Node): Bytes {
    if n.File? then ModeBytes(n.blob.mode) else DIR_MODE
  }

  ghost function NodeSha(h: Hash, n: Node): Bytes {
    if n.File? then n.blob.sha else NodeId(h, n)
  }

  lemma EntryIsRaw(h: Hash, name: Bytes, n: Node)
    requires IsHash(h) && Encodable(n)
    ensures NodeEntry(h, name, n) == RawEntry(NodeMode(n), name, NodeSha(h, n))
    ensures ' ' !in NodeMode(n) && |NodeSha(h, n)| == SHA_SIZE
    ensures NodeEntry(h, name, n) != []
  {
    if n.Dir? {
      assert |h(Hashed(h, n))| == SHA_SIZE;
    }
  }

  /** The mode and the id under which two nodes are written are the same. */
  ghost predicate SameEntry(h: Hash, x: Node, y: Node) {
    NodeMode(x) == NodeMode(y) && NodeSha(h, x) == NodeSha(h, y)
  }

  /** Equal contents list the same names with the same modes and ids. */
  lemma {:induction false} ContentReadsBack(h: Hash, a: Node, b: Node, names: seq<Bytes>, names': seq<Bytes>)
    requires IsHash(h) && a.Dir? && b.Dir? && Encodable(a) && Encodable(b)
    requires forall k :: 0 <= k < |names| ==> names[k] in a.entries
    requires forall k :: 0 <= k < |names'| ==> names'[k] in b.entries
    requires Content(h, a, names) == Content(h, b, names')
    ensures names == names'
    ensures forall name :: name in names ==> name in a.entries && name in b.entries
                                             && SameEntry(h, a.entries[name], b.entries[name])
    decreases |names|
  {
    if names != [] {
      EntryIsRaw(h, names[0], a.entries[names[0]]);
    }
    if names' != [] {
      EntryIsRaw(h, names'[0], b.entries[names'[0]]);
    }
    if names != [] && names' != [] {
      var x, y := a.entries[names[0]], b.entries[names'[0]];
      RawEntryReadsBack(NodeMode(x), names[0], NodeSha(h, x), Content(h, a, names[1..]),
                        NodeMode(y), names'[0], NodeSha(h, y), Content(h, b, names'[1..]));
      ContentReadsBack(h, a, b, names[1..], names'[1..]);
      assert names == [names[0]] + names[1..] && names' == [names'[0]] + names'[1..];
    }
  }

  // ---- identity ----

  /** Everything that is hashed in computing the id of a node. */
  ghost function AllHashed(h: Hash, n: Node): set<Bytes>
    decreases n
  {
    match n
    case File(_) => {}
    case Dir(entries) =>
      {Hashed(h, n)} + (set name, x | name in entries && x in AllHashed(h, entries[name]) :: x)
  }

  ghost predicate CollisionFree(h: Hash, s: set<Bytes>) {
    forall x, y :: x in s && y in s && h(x) == h(y) ==> x == y
  }

  lemma ChildHashed(h: Hash, n: Node, name: Bytes)
    requires n.Dir? && name in n.entries
    ensures AllHashed(h, n.entries[name]) <= AllHashed(h, n)
  {
  }

  /** Two directories with the same names, modes and ids. */
  ghost predicate SameEntries(h: Hash, a: Node, b: Node)
    requires a.Dir? && b.Dir?
  {
    && a.entries.Keys == b.entries.Keys
    && forall name :: name in a.entries ==> SameEntry(h, a.entries[name], b.entries[name])
  }

  lemma SameContentSameEntries(h: Hash, a: Node, b: Node)
    requires IsHash(h) && a.Dir? && b.Dir? && Encodable(a) && Encodable(b)
    requires Hashed(h, a) == Hashed(h, b)
    ensures SameEntries(h, a, b)
  {
    var names, names' := Sorted(a.entries, a.entries.Keys), Sorted(b.entries, b.entries.Keys);
    FramedInjective(Content(h, a, names), Content(h, b, names'));
    ContentReadsBack(h, a, b, names, names');
    assert forall name :: name in a.entries.Keys <==> name in names;
    assert forall name :: name in b.entries.Keys <==> name in names;
  }

  lemma SameIdSameHashed(h: Hash, a: Node, b: Node)
    requires a.Dir? && b.Dir?
    requires CollisionFree(h, AllHashed(h, a) + AllHashed(h, b)) && NodeId(h, a) == NodeId(h, b)
    ensures Hashed(h, a) == Hashed(h, b)
  {
    assert Hashed(h, a) in AllHashed(h, a) + AllHashed(h, b);
    assert Hashed(h, b) in AllHashed(h, a) + AllHashed(h, b);
  }

  /** Equal ids and no collision among the hashed bytes: equal nodes. */
  lemma {:induction false} SameIdSameNode(h: Hash, a: Node, b: Node)
    requires IsHash(h) && a.Dir? && b.Dir? && Encodable(a) && Encodable(b)
    requires CollisionFree(h, AllHashed(h, a) + AllHashed(h, b))
    requires NodeId(h, a) == NodeId(h, b)
    ensures a == b
    decreases a, 1
  {
    SameIdSameHashed(h, a, b);
    SameContentSameEntries(h, a, b);
    forall name | name in a.entries
      ensures a.entries[name] == b.entries[name]
    {
      assert name in b.entries.Keys;
      SameEntrySameNode(h, a, b, name);
    }
    assert a.entries == b.entries;
  }

  lemma {:induction false} SameEntrySameNode(h: Hash, a: Node, b: Node, name: Bytes)
    requires IsHash(h) && a.Dir? && b.Dir? && Encodable(a) && Encodable(b)
    requires CollisionFree(h, AllHashed(h, a) + AllHashed(h, b))
    requires name in a.entries && name in b.entries
    requires SameEntry(h, a.entries[name], b.entries[name])
    ensures a.entries[name] == b.entries[name]
    decreases a, 0
  {
    var x, y := a.entries[name], b.entries[name];
    ModesTell(x, y);
    if x.Dir? {
      ChildHashed(h, a, name);
      ChildHashed(h, b, name);
      SameIdSameNode(h, x, y);
    }
  }

  /** The mode alone tells a directory from every kind of file, and the kinds apart. */
  lemma ModesTell(x: Node, y: Node)
    requires NodeMode(x) == NodeMode(y)
    ensures x.File? <==> y.File?
    ensures x.File? ==> x.blob.mode == y.blob.mode
  {
    assert ModeBytes(Regular)[3] == '6' && ModeBytes(Executable)[3] == '7';
    assert ModeBytes(Symlink)[1] == '2' && ModeBytes(Gitlink)[1] == '6';
    assert ModeBytes(Regular)[1] == '0' && ModeBytes(Executable)[1] == '0';
    assert |DIR_MODE| == 5;
  }

  // ---- listings ----

  predicate EncodableRows(rows: seq<Row>) {
    forall i :: 0 <= i < |rows| ==> '\U{00}' !in rows[i].path && |rows[i].sha| == SHA_SIZE
  }

  lemma {:induction false} SplitKeepsOut(path: Bytes, c: char)
    requires c !in path
    ensures forall k :: 0 <= k < |Split(path, '/')| ==> c !in Split(path, '/')[k]
  {
    if path != "" {
      SplitKeepsOut(path[1..], c);
    }
  }

  lemma {:induction false} InsertEncodable(entries: Entries, parts: seq<Bytes>, blob: Blob)
    requires parts != [] && Encodable(Dir(entries)) && |blob.sha| == SHA_SIZE
    requires forall k :: 0 <= k < |parts| ==> '\U{00}' !in parts[k]
    requires Insert(entries, parts, blob).Some?
    ensures Encodable(Dir(Insert(entries, parts, blob).value))
    decreases |parts|
  {
    var name := parts[0];
    if |parts| > 1 {
      var below: Entries := if name in entries then entries[name].entries else map[];
      assert Encodable(Dir(below)) by {
        if name in entries {
          assert Encodable(entries[name]) && entries[name] == Dir(below);
        }
      }
      InsertEncodable(below, parts[1..], blob);
    }
  }

  lemma {:induction false} BuildEncodable(rows: seq<Row>, k: nat)
    requires k <= |rows| && EncodableRows(rows) && Build(rows, k).Some?
    ensures Encodable(Dir(Build(rows, k).value))
  {
    if k > 0 {
      BuildEncodable(rows, k - 1);
      SplitKeepsOut(rows[k - 1].path, '\U{00}');
      var mode := ModeOf(rows[k - 1].kind, rows[k - 1].mode).value;
      InsertEncodable(Build(rows, k - 1).value, Split(rows[k - 1].path, '/'),
                      Blob(mode, rows[k - 1].sha));
    }
  }

  /** The directory below at the end of these components. */
  function DirAt(entries: Entries, parts: seq<Bytes>): Option<Entries>
    decreases |parts|
  {
    if parts == [] then Some(entries)
    else if parts[0] !in entries || entries[parts[0]].File? then None
    else DirAt(entries[parts[0]].entries, parts[1..])
  }

  lemma {:induction false} FileIsInDir(entries: Entries, parts: seq<Bytes>)
    requires Lookup(entries, parts).Some?
    ensures var name, dir := parts[|parts| - 1], DirAt(entries, parts[..|parts| - 1]);
            dir.Some? && name in dir.value && dir.value[name] == File(Lookup(entries, parts).value)
    decreases |parts|
  {
    if |parts| > 1 {
      FileIsInDir(entries[parts[0]].entries, parts[1..]);
      assert parts[..|parts| - 1][1..] == parts[1..][..|parts| - 2];
    } else {
      assert parts[..0] == [];
    }
  }

  lemma {:induction false} DirIsHashed(h: Hash, entries: Entries, parts: seq<Bytes>)
    requires DirAt(entries, parts).Some?
    ensures Hashed(h, Dir(DirAt(entries, parts).value)) in AllHashed(h, Dir(entries))
    decreases |parts|
  {
    if parts != [] {
      var below := entries[parts[0]];
      DirIsHashed(h, below.entries, parts[1..]);
      ChildHashed(h, Dir(entries), parts[0]);
      assert below == Dir(below.entries);
    }
  }

  /** The entry of a name stands among the bytes of its directory. */
  lemma {:induction false} EntryInContent(h: Hash, n: Node, names: seq<Bytes>, k: nat) returns (before: Bytes, after: Bytes)
    requires n.Dir? && k < |names| && forall i :: 0 <= i < |names| ==> names[i] in n.entries
    ensures Content(h, n, names) == before + NodeEntry(h, names[k], n.entries[names[k]]) + after
    decreases k
  {
    var first := NodeEntry(h, names[0], n.entries[names[0]]);
    if k == 0 {
      before, after := [], Content(h, n, names[1..]);
      assert [] + first + after == first + after;
    } else {
      var rest;
      rest, after := EntryInContent(h, n, names[1..], k - 1);
      before := first + rest;
      assert first + (rest + NodeEntry(h, names[k], n.entries[names[k]]) + after)
          == before + NodeEntry(h, names[k], n.entries[names[k]]) + after;
    }
  }

  lemma EntryIsHashed(h: Hash, dir: Entries, name: Bytes) returns (before: Bytes, after: Bytes)
    requires name in dir
    ensures Hashed(h, Dir(dir)) == Framed(before + NodeEntry(h, name, dir[name]) + after)
  {
    var names := Sorted(dir, dir.Keys);
    assert name in names;
    var k :| 0 <= k < |names| && names[k] == name;
    before, after := EntryInContent(h, Dir(dir), names, k);
  }

  /** Of every file, the bytes hashed for its directory hold its mode, its last component and its id. */
  lemma FileIsHashed(h: Hash, entries: Entries, parts: seq<Bytes>) returns (before: Bytes, after: Bytes)
    requires Lookup(entries, parts).Some?
    ensures var dir, blob := DirAt(entries, parts[..|parts| - 1]), Lookup(entries, parts).value;
            && dir.Some?
            && Hashed(h, Dir(dir.value))
               == Framed(before + RawEntry(ModeBytes(blob.mode), parts[|parts| - 1], blob.sha) + after)
  {
    FileIsInDir(entries, parts);
    before, after := EntryIsHashed(h, DirAt(entries, parts[..|parts| - 1]).value, parts[|parts| - 1]);
  }

  /** So every row of a listing is hashed with the mode, the name and the id it was listed with. */
  lemma ListedRowIsHashed(h: Hash, rows: seq<Row>, i: nat) returns (before: Bytes, after: Bytes)
    requires Build(rows, |rows|).Some? && i < |rows|
    ensures var parts, row := Parts(rows, i), rows[i];
            var dir := DirAt(Build(rows, |rows|).value, parts[..|parts| - 1]);
            && dir.Some?
            && Hashed(h, Dir(dir.value)) == Framed(before + RawEntry(row.mode, parts[|parts| - 1], row.sha) + after)
  {
    BuiltHoldsAt(rows, i);
    before, after := FileIsHashed(h, Build(rows, |rows|).value, Parts(rows, i));
  }

  /** The id of the tree built from a listing. */
  ghost function RootId(h: Hash, rows: seq<Row>): Bytes
    requires Build(rows, |rows|).Some?
  {
    NodeId(h, Dir(Build(rows, |rows|).value))
  }

  /** The listings hold the same path, mode and object id triples. */
  ghost predicate SameListing(a: seq<Row>, b: seq<Row>) {
    forall parts :: Listed(a, parts) == Listed(b, parts)
  }

  /**
   * Two listings have the same root id exactly when they list the same files with the same modes
   * and object ids, unless the hash collides on two of the byte strings hashed for these two trees.
   */
  lemma RootIdIdentifiesListing(h: Hash, a: seq<Row>, b: seq<Row>)
    requires IsHash(h) && EncodableRows(a) && EncodableRows(b)
    requires Build(a, |a|).Some? && Build(b, |b|).Some?
    requires var x, y := Dir(Build(a, |a|).value), Dir(Build(b, |b|).value);
             CollisionFree(h, AllHashed(h, x) + AllHashed(h, y))
    ensures RootId(h, a) == RootId(h, b) <==> SameListing(a, b)
  {
    if RootId(h, a) == RootId(h, b) {
      BuildEncodable(a, |a|);
      BuildEncodable(b, |b|);
      SameIdSameNode(h, Dir(Build(a, |a|).value), Dir(Build(b, |b|).value));
      SameTreeSameListing(a, b);
    }
    if SameListing(a, b) {
      SameListingSameTree(a, b);
    }
  }

  lemma SameTreeSameListing(a: seq<Row>, b: seq<Row>)
    requires Build(a, |a|).Some? && Build(a, |a|) == Build(b, |b|)
    ensures SameListing(a, b)
  {
    forall parts
      ensures Listed(a, parts) == Listed(b, parts)
    {
      BuildFlattens(a, parts);
      BuildFlattens(b, parts);
    }
  }

  lemma SameListingSameTree(a: seq<Row>, b: seq<Row>)
    requires Build(a, |a|).Some? && Build(b, |b|).Some? && SameListing(a, b)
    ensures Build(a, |a|) == Build(b, |b|)
  {
    var x, y := Build(a, |a|).value, Build(b, |b|).value;
    BuildFlattens(a, []);
    BuildFlattens(b, []);
    forall parts
      ensures Lookup(x, parts) == Lookup(y, parts)
    {
      BuildFlattens(a, parts);
      BuildFlattens(b, parts);
    }
    SameFilesSameEntries(x, y, Dir(x));
  }
}

/** The order in which a directory's entries are hashed: one only, whatever order they are listed in. */
module GitOrder {
  import opened Wrappers
  import opened Text
  import opened Ordering
  import opened GitTree

  /** Names are without slashes, so that no two sort keys are the same. */
  predicate SlashFree(entries: Entries) {
    forall name :: name in entries ==> '/' !in name
  }

  predicate Distinct(names: seq<Bytes>) {
    forall i, j :: 0 <= i < j < |names| ==> names[i] != names[j]
  }

  predicate Ascending(entries: Entries, names: seq<Bytes>)
    requires forall name :: name in names ==> name in entries
  {
    forall i, j :: 0 <= i < j < |names| ==> Below(SortKey(entries, names[i]), SortKey(entries, names[j]))
  }

  lemma KeysTell(entries: Entries, a: Bytes, b: Bytes)
    requires SlashFree(entries) && a in entries && b in entries && SortKey(entries, a) == SortKey(entries, b)
    ensures a == b
  {
    var x, y := SortKey(entries, a), SortKey(entries, b);
    assert entries[a].Dir? ==> x[|x| - 1] == '/';
    assert entries[b].Dir? ==> y[|y| - 1] == '/';
    if entries[a].Dir? && entries[b].Dir? {
      assert a == x[..|x| - 1] && b == y[..|y| - 1];
    }
  }

  /** The sorted names are the given ones, without repeats and ascending. */
  lemma {:induction false} SortedAscends(entries: Entries, names: set<Bytes>)
    requires names <= entries.Keys
    ensures Distinct(Sorted(entries, names)) && Ascending(entries, Sorted(entries, names))
    decreases |names|
  {
    if names != {} {
      var sorted := Sorted(entries, names);
      var least := LeastExists(entries, names);
      assert IsLeast(entries, names, sorted[0]);
      assert sorted[1..] == Sorted(entries, names - {sorted[0]});
      SortedAscends(entries, names - {sorted[0]});
      forall j | 1 <= j < |sorted|
        ensures sorted[0] != sorted[j] && Below(SortKey(entries, sorted[0]), SortKey(entries, sorted[j]))
      {
        assert sorted[j] == sorted[1..][j - 1] && sorted[j] in names - {sorted[0]};
      }
      AscendingFrom(entries, sorted);
    }
  }

  lemma AscendingFrom(entries: Entries, sorted: seq<Bytes>)
    requires sorted != [] && forall name :: name in sorted ==> name in entries
    requires Distinct(sorted[1..]) && Ascending(entries, sorted[1..])
    requires forall j :: 1 <= j < |sorted| ==>
               sorted[0] != sorted[j] && Below(SortKey(entries, sorted[0]), SortKey(entries, sorted[j]))
    ensures Distinct(sorted) && Ascending(entries, sorted)
  {
    forall i, j | 0 <= i < j < |sorted|
      ensures sorted[i] != sorted[j] && Below(SortKey(entries, sorted[i]), SortKey(entries, sorted[j]))
    {
      if i > 0 {
        assert sorted[i] == sorted[1..][i - 1] && sorted[j] == sorted[1..][j - 1];
      }
    }
  }

  ghost predicate Lists(names: seq<Bytes>, all: set<Bytes>) {
    Distinct(names) && forall name :: name in names <==> name in all
  }

  /** There is one ascending list of the names. */
  lemma {:induction false} SortedUnique(entries: Entries, names: set<Bytes>, listed: seq<Bytes>)
    requires SlashFree(entries) && names <= entries.Keys && Lists(listed, names) && Ascending(entries, listed)
    ensures listed == Sorted(entries, names)
    decreases |listed|
  {
    var sorted := Sorted(entries, names);
    if listed == [] {
      assert names == {};
    } else {
      assert listed[0] in names;
      var least := LeastExists(entries, names);
      assert IsLeast(entries, names, sorted[0]);
      FirstIsLeast(entries, names, listed, sorted[0]);
      var rest := names - {listed[0]};
      assert listed == [listed[0]] + listed[1..];
      assert Lists(listed[1..], rest) by {
        RestLists(listed, names);
      }
      SortedUnique(entries, rest, listed[1..]);
    }
  }

  lemma RestLists(listed: seq<Bytes>, names: set<Bytes>)
    requires listed != [] && Lists(listed, names)
    ensures Lists(listed[1..], names - {listed[0]})
  {
    forall name | name in names && name != listed[0] ensures name in listed[1..] {
      var i :| 0 <= i < |listed| && listed[i] == name;
      assert listed[1..][i - 1] == name;
    }
  }

  lemma FirstIsLeast(entries: Entries, names: set<Bytes>, listed: seq<Bytes>, least: Bytes)
    requires SlashFree(entries) && names <= entries.Keys && Lists(listed, names) && Ascending(entries, listed)
    requires listed != [] && IsLeast(entries, names, least)
    ensures listed[0] == least
  {
    var i :| 0 <= i < |listed| && listed[i] == least;
    assert listed[0] in names;
    if i > 0 {
      BelowTotal(SortKey(entries, listed[0]), SortKey(entries, least));
      KeysTell(entries, listed[0], least);
    }
  }

  // ---- sorting ----

  /** The name put in its place in an ascending list. */
  function Placed(entries: Entries, sorted: seq<Bytes>, name: Bytes): (r: seq<Bytes>)
    requires name in entries && forall other :: other in sorted ==> other in entries
    ensures forall other :: other in r <==> other in sorted || other == name
    decreases |sorted|
  {
    if sorted == [] || Below(SortKey(entries, name), SortKey(entries, sorted[0])) then [name] + sorted
    else [sorted[0]] + Placed(entries, sorted[1..], name)
  }

  /** sorted() over the entries in the order in which they are listed. */
  function SortNames(entries: Entries, listed: seq<Bytes>): (r: seq<Bytes>)
    requires forall name :: name in listed ==> name in entries
    ensures forall name :: name in r <==> name in listed
    decreases |listed|
  {
    if listed == [] then []
    else
      assert forall name :: name in listed[1..] ==> name in listed;
      Placed(entries, SortNames(entries, listed[1..]), listed[0])
  }

  lemma {:induction false} PlacedAscends(entries: Entries, sorted: seq<Bytes>, name: Bytes)
    requires name in entries && forall other :: other in sorted ==> other in entries
    requires Distinct(sorted) && Ascending(entries, sorted) && name !in sorted
    ensures Distinct(Placed(entries, sorted, name)) && Ascending(entries, Placed(entries, sorted, name))
    decreases |sorted|
  {
    var placed := Placed(entries, sorted, name);
    if sorted == [] {
    } else if Below(SortKey(entries, name), SortKey(entries, sorted[0])) {
      assert placed[1..] == sorted;
      forall j | 1 <= j < |placed|
        ensures name != placed[j] && Below(SortKey(entries, name), SortKey(entries, placed[j]))
      {
        assert placed[j] == sorted[j - 1];
        if j > 1 {
          BelowTransitive(SortKey(entries, name), SortKey(entries, sorted[0]), SortKey(entries, sorted[j - 1]));
        }
      }
      AscendingFrom(entries, placed);
    } else {
      TailAscends(entries, sorted);
      PlacedAscends(entries, sorted[1..], name);
      PlacedAfter(entries, sorted, name, placed);
    }
  }

  lemma PlacedAfter(entries: Entries, sorted: seq<Bytes>, name: Bytes, placed: seq<Bytes>)
    requires name in entries && sorted != [] && forall other :: other in sorted ==> other in entries
    requires Distinct(sorted) && Ascending(entries, sorted) && name !in sorted
    requires !Below(SortKey(entries, name), SortKey(entries, sorted[0]))
    requires var rest := Placed(entries, sorted[1..], name);
             placed == [sorted[0]] + rest && Distinct(rest) && Ascending(entries, rest)
    ensures Distinct(placed) && Ascending(entries, placed)
  {
    var rest := Placed(entries, sorted[1..], name);
    assert placed[1..] == rest;
    TailAscends(entries, sorted);
    BelowTotal(SortKey(entries, name), SortKey(entries, sorted[0]));
    forall j | 1 <= j < |placed|
      ensures sorted[0] != placed[j] && Below(SortKey(entries, sorted[0]), SortKey(entries, placed[j]))
    {
      assert placed[j] == rest[j - 1] && rest[j - 1] in rest;
    }
    AscendingFrom(entries, placed);
  }

  lemma TailAscends(entries: Entries, sorted: seq<Bytes>)
    requires sorted != [] && (forall other :: other in sorted ==> other in entries)
    requires Distinct(sorted) && Ascending(entries, sorted)
    ensures forall other :: other in sorted[1..] ==>
              other in entries && other != sorted[0] && Below(SortKey(entries, sorted[0]), SortKey(entries, other))
    ensures Distinct(sorted[1..]) && Ascending(entries, sorted[1..])
  {
    forall other | other in sorted[1..]
      ensures other != sorted[0] && Below(SortKey(entries, sorted[0]), SortKey(entries, other))
    {
      var k :| 0 <= k < |sorted| - 1 && sorted[k + 1] == other;
    }
  }

  lemma {:induction false} SortNamesAscends(entries: Entries, listed: seq<Bytes>)
    requires Distinct(listed) && forall name :: name in listed ==> name in entries
    ensures Distinct(SortNames(entries, listed)) && Ascending(entries, SortNames(entries, listed))
    decreases |listed|
  {
    if listed != [] {
      assert forall name :: name in listed[1..] ==> name in listed && name != listed[0];
      SortNamesAscends(entries, listed[1..]);
      PlacedAscends(entries, SortNames(entries, listed[1..]), listed[0]);
    }
  }

  /** Sorting a directory's entries, listed in any order, gives the bytes whose hash is its id. */
  lemma HashedInAnyOrder(h: Hash, entries: Entries, listed: seq<Bytes>)
    requires SlashFree(entries) && Lists(listed, entries.Keys)
    ensures Hashed(h, Dir(entries)) == Framed(Content(h, Dir(entries), SortNames(entries, listed)))
  {
    SortNamesAscends(entries, listed);
    SortedUnique(entries, entries.Keys, SortNames(entries, listed));
  }

  // ---- trees built from a listing ----

  /** No name in the tree has a slash in it. */
  ghost predicate SlashFreeBelow(n: Node)
    decreases n
  {
    match n
    case File(_) => true
    case Dir(entries) => SlashFree(entries) && forall name :: name in entries ==> SlashFreeBelow(entries[name])
  }

  lemma {:induction false} InsertSlashFree(entries: Entries, parts: seq<Bytes>, blob: Blob)
    requires parts != [] && SlashFreeBelow(Dir(entries)) && AllFree(parts, '/')
    requires Insert(entries, parts, blob).Some?
    ensures SlashFreeBelow(Dir(Insert(entries, parts, blob).value))
    decreases |parts|
  {
    var name := parts[0];
    if |parts| > 1 {
      var below: Entries := if name in entries then entries[name].entries else map[];
      assert SlashFreeBelow(Dir(below)) by {
        if name in entries {
          assert SlashFreeBelow(entries[name]) && entries[name] == Dir(below);
        }
      }
      InsertSlashFree(below, parts[1..], blob);
    }
  }

  /** Every tree built from a listing sorts in one way only. */
  lemma {:induction false} BuildSlashFree(rows: seq<Row>, k: nat)
    requires k <= |rows| && Build(rows, k).Some?
    ensures SlashFreeBelow(Dir(Build(rows, k).value))
  {
    if k > 0 {
      BuildSlashFree(rows, k - 1);
      SplitPartsAreFree(rows[k - 1].path, '/');
      var mode := ModeOf(rows[k - 1].kind, rows[k - 1].mode).value;
      InsertSlashFree(Build(rows, k - 1).value, Split(rows[k - 1].path, '/'), Blob(mode, rows[k - 1].sha));
    }
  }
}

/** Bounded capture of a stream: the first half of the limit and the last half, whatever the chunks. */
module Capture {

  function Min(a: nat, b: nat): nat {
    if a <= b then a else b
  }

  /** The last n elements, or all of them. */
  function Last<T>(s: seq<T>, n: nat): seq<T> {
    if |s| <= n then s else s[|s| - n..]
  }

  /** What a reader is shown: everything, or both ends and the number of bytes between them. */
  datatype Shown<T> = Whole(data: seq<T>) | Cut(head: seq<T>, omitted: nat, tail: seq<T>)

  /** The view of a whole stream under a limit. */
  function View<T>(stream: seq<T>, limit: nat): Shown<T> {
    if |stream| <= limit then Whole(stream)
    else
      var head := limit / 2;
      Cut(stream[..head], |stream| - limit, stream[|stream| - (limit - head)..])
  }

  /** Whole exactly within the limit; when cut, the two ends and the omitted bytes make up the stream. */
  lemma ViewAccountsForAll<T>(stream: seq<T>, limit: nat)
    ensures View(stream, limit).Whole? <==> |stream| <= limit
    ensures var v := View(stream, limit);
            v.Cut? ==> v.omitted > 0 && |v.head| + |v.tail| == limit
                       && stream == v.head + stream[|v.head|..|v.head| + v.omitted] + v.tail
  {
    var v := View(stream, limit);
    if v.Cut? {
      assert |v.head| + v.omitted == |stream| - |v.tail|;
    }
  }

  lemma LastOfMore<T>(s: seq<T>, more: seq<T>, n: nat)
    ensures Last(Last(s, n) + more, n) == Last(s + more, n)
  {
  }

  /** The two ends held are those of the stream so far. */
  predicate Holds<T(==)>(head: seq<T>, tail: seq<T>, stream: seq<T>, limit: nat) {
    && head == stream[..Min(limit / 2, |stream|)]
    && tail == Last(stream[|head|..], limit - limit / 2)
  }

  lemma FillingHead<T>(head: seq<T>, tail: seq<T>, stream: seq<T>, chunk: seq<T>, limit: nat)
    requires Holds(head, tail, stream, limit) && |head| < limit / 2
    ensures var take := Min(limit / 2 - |head|, |chunk|);
            Holds(head + chunk[..take], Last(tail + chunk[take..], limit - limit / 2), stream + chunk, limit)
  {
    var take := Min(limit / 2 - |head|, |chunk|);
    assert head == stream && tail == [];
    assert (stream + chunk)[..Min(limit / 2, |stream + chunk|)] == head + chunk[..take];
    assert (stream + chunk)[|head + chunk[..take]|..] == chunk[take..] == tail + chunk[take..];
  }

  lemma HeadFull<T>(head: seq<T>, tail: seq<T>, stream: seq<T>, chunk: seq<T>, limit: nat)
    requires Holds(head, tail, stream, limit) && |head| == limit / 2
    ensures Holds(head, Last(tail + chunk, limit - limit / 2), stream + chunk, limit)
  {
    assert (stream + chunk)[..limit / 2] == head;
    assert (stream + chunk)[|head|..] == stream[|head|..] + chunk;
    LastOfMore(stream[|head|..], chunk, limit - limit / 2);
  }

  class BoundedCapture<T(==)> {
    const limit: nat
    var head: seq<T>
    var tail: seq<T>
    var total: nat
    ghost var stream: seq<T>

    ghost predicate Valid()
      reads this
    {
      total == |stream| && Holds(head, tail, stream, limit)
    }

    constructor (limit: nat)
      ensures Valid() && stream == [] && this.limit == limit
    {
      this.limit := limit;
      head, tail, total := [], [], 0;
      stream := [];
    }

    /** Takes the next chunk, of any size. */
    method Feed(chunk: seq<T>)
      requires Valid()
      modifies this
      ensures Valid() && stream == old(stream) + chunk
    {
      var rest := chunk;
      total := total + |chunk|;
      var headLimit := limit / 2;
      if |head| < headLimit {
        FillingHead(head, tail, stream, chunk, limit);
        var take := Min(headLimit - |head|, |chunk|);
        head := head + chunk[..take];
        rest := chunk[take..];
      } else {
        HeadFull(head, tail, stream, chunk, limit);
      }
      stream := stream + chunk;
      assert Holds(head, Last(tail + rest, limit - headLimit), stream, limit);
      KeepTail(rest, limit - headLimit);
    }

    /** Appends to the tail and drops from its front what is over the limit. */
    method KeepTail(rest: seq<T>, tailLimit: nat)
      requires |tail| <= tailLimit
      modifies this`tail
      ensures tail == Last(old(tail) + rest, tailLimit)
    {
      if rest != [] {
        tail := tail + rest;
        if |tail| > tailLimit {
          tail := tail[|tail| - tailLimit..];
        }
      } else {
        assert tail + rest == tail;
      }
    }

    /** Shows what was captured: the view of the whole stream. */
    method Render() returns (shown: Shown<T>)
      requires Valid()
      ensures shown == View(stream, limit)
    {
      var data := head + tail;
      if total <= limit {
        assert stream == stream[..|head|] + stream[|head|..];
        return Whole(data);
      }
      var omitted := total - |data|;
      return Cut(head, omitted, tail);
    }
  }
}

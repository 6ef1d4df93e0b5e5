/** The result of an operation that may raise the package's error instead of returning. */
module Wrappers {

  // None stands for the raised error; the source raises one error class per
  // module and no caller tells two messages apart.
  datatype Option<+T> = None | Some(value: T) {

    predicate IsFailure() {
      None?
    }

    function PropagateFailure<U>(): Option<U>
      requires None?
    {
      None
    }

    function Extract(): T
      requires Some?
    {
      value
    }
  }

  /** A list in front of the list another operation may yield. */
  function Prepend<T>(front: seq<T>, rest: Option<seq<T>>): Option<seq<T>> {
    if rest.None? then None else Some(front + rest.value)
  }

  lemma PrependUnits<T>(front: seq<T>, rest: Option<seq<T>>)
    ensures Prepend([], rest) == rest && Prepend(front, Some([])) == Some(front)
  {
    assert front + [] == front;
    assert rest.Some? ==> [] + rest.value == rest.value;
  }

  lemma PrependJoins<T>(a: seq<T>, b: seq<T>, rest: Option<seq<T>>)
    ensures Prepend(a, Prepend(b, rest)) == Prepend(a + b, rest)
  {
    if rest.Some? {
      assert a + (b + rest.value) == a + b + rest.value;
    }
  }
}

/** The order of strings by code points, as sorted() compares them. */
module Ordering {

  predicate Below(a: string, b: string) {
    if a == "" then true
    else if b == "" then false
    else a[0] < b[0] || (a[0] == b[0] && Below(a[1..], b[1..]))
  }

  lemma {:induction false} BelowTotal(a: string, b: string)
    ensures Below(a, b) || Below(b, a)
    ensures Below(a, b) && Below(b, a) ==> a == b
  {
    if a != "" && b != "" {
      BelowTotal(a[1..], b[1..]);
      assert a == [a[0]] + a[1..] && b == [b[0]] + b[1..];
    }
  }

  lemma {:induction false} BelowTransitive(a: string, b: string, c: string)
    requires Below(a, b) && Below(b, c)
    ensures Below(a, c)
  {
    if a != "" && b != "" && c != "" && a[0] == b[0] == c[0] {
      BelowTransitive(a[1..], b[1..], c[1..]);
    }
  }

  /** The first character in which two strings differ decides; if there is none, the shorter comes first. */
  lemma {:induction false} FirstDifferenceDecides(common: string, a: string, b: string)
    ensures a == "" ==> Below(common + a, common + b)
    ensures a != "" && b != "" && a[0] != b[0] ==> (Below(common + a, common + b) <==> a[0] < b[0])
  {
    if common == "" {
      assert common + a == a && common + b == b;
    } else {
      FirstDifferenceDecides(common[1..], a, b);
      assert (common + a)[1..] == common[1..] + a && (common + b)[1..] == common[1..] + b;
    }
  }
}

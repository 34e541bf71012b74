/** Order-preserving selection from a sequence, shared by the scan and the status list. */
module Sequences {

  /** a can be obtained from b by deleting elements. */
  predicate IsSubsequence<T(==)>(a: seq<T>, b: seq<T>)
    decreases |b|
  {
    if a == [] then true
    else if b == [] then false
    else if a[0] == b[0] then IsSubsequence(a[1..], b[1..])
    else IsSubsequence(a, b[1..])
  }

  /** Appending an element to b keeps a subsequence of it, and may append the same element to a. */
  lemma {:induction false} SubsequenceSnoc<T>(a: seq<T>, b: seq<T>, x: T)
    requires IsSubsequence(a, b)
    ensures IsSubsequence(a, b + [x])
    ensures IsSubsequence(a + [x], b + [x])
    decreases |b|
  {
    if b == [] {
      assert a == [];
      assert ([] + [x])[1..] == [];
    } else {
      assert (b + [x])[0] == b[0] && (b + [x])[1..] == b[1..] + [x];
      if a == [] {
        assert a + [x] == [x];
        if b[0] != x {
          SubsequenceSnoc(a, b[1..], x);
        } else {
          assert [x][1..] == [];
        }
      } else if a[0] == b[0] {
        SubsequenceSnoc(a[1..], b[1..], x);
        assert (a + [x])[0] == a[0] && (a + [x])[1..] == a[1..] + [x];
      } else {
        SubsequenceSnoc(a, b[1..], x);
        assert (a + [x])[0] == a[0];
      }
    }
  }
}

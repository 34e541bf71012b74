/**
 * The two connector target lists are ordered lists of 64-bit GameObjectIds.
 * Every way of adding to them checks membership first, so they never hold an
 * ID twice; removal takes out one position and keeps the others in order.
 */
module TargetLists {

  predicate NoDuplicates(xs: seq<nat>) {
    forall i, j :: 0 <= i < j < |xs| ==> xs[i] != xs[j]
  }

  /** `if (!list.Contains(v)) list.Add(v)`. */
  function AddUnique(xs: seq<nat>, v: nat): (r: seq<nat>)
    ensures v in r
    ensures (set x | x in r) == (set x | x in xs) + {v}
    ensures NoDuplicates(xs) ==> NoDuplicates(r)
    ensures |xs| <= |r| <= |xs| + 1 && r[..|xs|] == xs
  {
    if v in xs then xs else xs + [v]
  }

  /** Adding the same ID twice is the same as adding it once. */
  lemma AddUniqueIdempotent(xs: seq<nat>, v: nat)
    ensures AddUnique(AddUnique(xs, v), v) == AddUnique(xs, v)
  {
  }

  /** `list.RemoveAt(i)`. */
  function RemoveAt(xs: seq<nat>, i: nat): (r: seq<nat>)
    requires i < |xs|
    ensures |r| == |xs| - 1
    ensures forall k :: 0 <= k < i ==> r[k] == xs[k]
    ensures forall k :: i <= k < |r| ==> r[k] == xs[k + 1]
    ensures multiset(r) + multiset{xs[i]} == multiset(xs)
  {
    assert xs == xs[..i] + [xs[i]] + xs[i + 1..];
    xs[..i] + xs[i + 1..]
  }

  /** Removing from a list without duplicates keeps it so, and takes that ID out of the list altogether. */
  lemma RemoveAtKeepsNoDuplicates(xs: seq<nat>, i: nat)
    requires i < |xs| && NoDuplicates(xs)
    ensures NoDuplicates(RemoveAt(xs, i))
    ensures xs[i] !in RemoveAt(xs, i)
    ensures forall x :: x in xs && x != xs[i] ==> x in RemoveAt(xs, i)
  {
    var r := RemoveAt(xs, i);
    forall a, b | 0 <= a < b < |r|
      ensures r[a] != r[b]
    {
      var a' := if a < i then a else a + 1;
      var b' := if b < i then b else b + 1;
      assert r[a] == xs[a'] && r[b] == xs[b'] && a' < b';
    }
    forall k | 0 <= k < |r|
      ensures r[k] != xs[i]
    {
      var k' := if k < i then k else k + 1;
      assert r[k] == xs[k'] && k' != i;
    }
    forall x | x in xs && x != xs[i]
      ensures x in r
    {
      var k :| 0 <= k < |xs| && xs[k] == x;
      if k < i {
        assert r[k] == x;
      } else {
        assert k > i && r[k - 1] == x;
      }
    }
  }
}

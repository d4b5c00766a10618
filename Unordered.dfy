/**
 * The part of `UnorderedCollection` the simulator relies on: removal by
 * index moves the last element into the gap, so no other element moves.
 */
module Unordered {

  /** The collection after `removeAt(i)`: the last element fills slot `i`. */
  function RemoveAt<T>(s: seq<T>, i: nat): (r: seq<T>)
    requires i < |s|
    ensures |r| == |s| - 1
    ensures forall j | 0 <= j < |r| && j != i :: r[j] == s[j]
    ensures i < |r| ==> r[i] == s[|s| - 1]
  {
    if i == |s| - 1 then s[..i]
    else s[..i] + [s[|s| - 1]] + s[i + 1..|s| - 1]
  }

  /** `removeAt(i)` takes out one occurrence of the element at `i` and nothing else. */
  lemma RemoveAtMultiset<T>(s: seq<T>, i: nat)
    requires i < |s|
    ensures multiset(RemoveAt(s, i)) == multiset(s) - multiset{s[i]}
  {
    if i == |s| - 1 {
      assert s == s[..i] + [s[i]];
    } else {
      assert s == s[..i] + [s[i]] + s[i + 1..|s| - 1] + [s[|s| - 1]];
    }
  }
}

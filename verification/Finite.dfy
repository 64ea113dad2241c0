/** Finite sets: how many elements, and the elements in some order. */
module Finite {
  lemma SubsetSize<T>(a: set<T>, b: set<T>)
    requires a <= b
    ensures |a| <= |b|
  {
    assert b == a + (b - a);
  }

  /** Every element once. */
  ghost predicate Lists(order: seq<nat>, keys: set<nat>) {
    && (forall k :: k in order <==> k in keys)
    && (forall i, j :: 0 <= i < j < |order| ==> order[i] != order[j])
  }

  lemma ListedFirst(k: nat, rest: seq<nat>, keys: set<nat>)
    requires k in keys && Lists(rest, keys - {k})
    ensures Lists([k] + rest, keys)
  {
  }

  lemma {:induction false} SomeListing(keys: set<nat>) returns (order: seq<nat>)
    ensures Lists(order, keys)
    decreases |keys|
  {
    if keys == {} {
      order := [];
    } else {
      var k :| k in keys;
      var rest := SomeListing(keys - {k});
      order := [k] + rest;
      ListedFirst(k, rest, keys);
    }
  }
}

/** Functional helpers (include/khepri/utility/functional.hpp). */
module Functional {
  /**
   * `pluck`: the member selected by `member` of every element of the
   * collection, in order, gathered by pushing one value per element.
   */
  method Pluck<C, V>(collection: seq<C>, member: C -> V) returns (v: seq<V>)
    ensures |v| == |collection|
    ensures forall i :: 0 <= i < |collection| ==> v[i] == member(collection[i])
  {
    v := [];
    for i := 0 to |collection|
      invariant |v| == i
      invariant forall k :: 0 <= k < i ==> v[k] == member(collection[k])
    {
      v := v + [member(collection[i])];
    }
  }
}

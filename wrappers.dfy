/** Option and Result, the failure-carrying values the rest of the model returns. */
module Wrappers {

  datatype Option<+T> = None | Some(value: T)

  datatype Result<+R, +E> = Success(value: R) | Failure(error: E)
}

/** Facts about sequences that enumerate a finite set, the way a Python loop
    over a dictionary visits each key exactly once. */
module Collections {

  predicate Distinct<K(==)>(s: seq<K>)
  {
    forall i, j :: 0 <= i < j < |s| ==> s[i] != s[j]
  }

  /** `order` visits every key of `keys` exactly once and nothing else. */
  predicate Enumerates<K(==)>(order: seq<K>, keys: set<K>)
  {
    && Distinct(order)
    && (forall k :: k in order ==> k in keys)
    && (forall k :: k in keys ==> k in order)
  }

  /** A loop over a dictionary runs once per key. */
  lemma {:induction false} EnumerationLength<K>(order: seq<K>, keys: set<K>)
    requires Enumerates(order, keys)
    ensures |order| == |keys|
  {
    if order != [] {
      var last := order[|order| - 1];
      var front := order[..|order| - 1];
      assert Enumerates(front, keys - {last}) by {
        forall k ensures k in front <==> k in keys - {last} {
          if k in front {
            var i :| 0 <= i < |front| && front[i] == k;
            assert order[i] == k && i < |order| - 1;
          }
        }
      }
      EnumerationLength(front, keys - {last});
    }
  }
}

/**
 * Go's `range` over a map visits every key exactly once in an order the runtime
 * chooses afresh. The model makes that order an explicit parameter.
 */
module MapOrder {

  predicate NoDuplicates<K(==)>(order: seq<K>) {
    forall i, j :: 0 <= i < j < |order| ==> order[i] != order[j]
  }

  /** `order` is one possible visiting order of a map whose key set is `keys`. */
  predicate IsEnumeration<K(==)>(order: seq<K>, keys: set<K>) {
    && NoDuplicates(order)
    && (forall i :: 0 <= i < |order| ==> order[i] in keys)
    && (forall k :: k in keys ==> k in order)
  }
}

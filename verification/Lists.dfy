/**
 Lists without repetition: the nodes of a linked list.
 */
module Lists {
  ghost predicate Distinct<T>(es: seq<T>) {
    forall j, k | 0 <= j < k < |es| :: es[j] != es[k]
  }

  lemma Apart<T>(es: seq<T>, k: nat)
    requires Distinct(es) && k < |es|
    ensures forall j | 0 <= j < |es| && j != k :: es[j] != es[k]
  {
  }

  lemma DistinctWithout<T>(es: seq<T>, k: nat)
    requires Distinct(es) && k < |es|
    ensures Distinct(es[..k] + es[k + 1..])
  {
  }

  lemma DistinctWith<T>(es: seq<T>, k: nat, n: T)
    requires Distinct(es) && k <= |es| && n !in es
    ensures Distinct(es[..k] + [n] + es[k..])
  {
  }
}

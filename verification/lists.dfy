/**
 * Python's order-preserving list comprehension `[x for x in s if keep(x)]`,
 * and what it means to be an order-preserving selection of a list.
 */
module Lists {

  /** `a` can be obtained from `b` by deleting elements, keeping the order. */
  ghost predicate IsSubsequence<T>(a: seq<T>, b: seq<T>)
    decreases |b|
  {
    a == [] || (b != [] && ((a[0] == b[0] && IsSubsequence(a[1..], b[1..])) || IsSubsequence(a, b[1..])))
  }

  /**
   * The elements of `s` that satisfy `keep`, in their order in `s`, each as
   * many times as it occurs there.
   */
  function Filter<T(!new)>(s: seq<T>, keep: T -> bool): (r: seq<T>)
    ensures IsSubsequence(r, s)
    ensures forall x :: x in r <==> x in s && keep(x)
    ensures forall x :: multiset(r)[x] == if keep(x) then multiset(s)[x] else 0
  {
    if s == [] then []
    else
      var rest := Filter(s[1..], keep);
      assert s == [s[0]] + s[1..];
      if keep(s[0]) then
        assert ([s[0]] + rest)[1..] == rest;
        [s[0]] + rest
      else rest
  }

  /**
   * Filtering by a condition and by its negation splits the list: every
   * element lands in exactly one of the two results, with its multiplicity.
   */
  lemma FilterPartition<T(!new)>(s: seq<T>, keep: T -> bool, drop: T -> bool)
    requires forall x :: drop(x) == !keep(x)
    ensures multiset(Filter(s, keep)) + multiset(Filter(s, drop)) == multiset(s)
    ensures forall x :: x in s ==> (x in Filter(s, keep)) != (x in Filter(s, drop))
  {
    var a, b := Filter(s, keep), Filter(s, drop);
    assert forall x :: (multiset(a) + multiset(b))[x] == multiset(s)[x];
  }

  /** No element satisfies the condition exactly when the filter is empty. */
  lemma FilterEmpty<T(!new)>(s: seq<T>, keep: T -> bool)
    ensures Filter(s, keep) == [] <==> forall x :: x in s ==> !keep(x)
  {
    var r := Filter(s, keep);
    if r != [] { assert r[0] in r; }
  }
}

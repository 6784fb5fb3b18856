/** Sorting by an order, as sort.Strings, sort.Sort and slices.Sort promise it. */
module Sorting {

  /** A strict order in which distinct elements may be level. */
  ghost predicate Orders<T(!new)>(less: (T, T) -> bool) {
    && (forall a, b :: less(a, b) ==> !less(b, a))
    && (forall a, b, c :: !less(b, a) && !less(c, b) ==> !less(c, a))
  }

  /** No later element is less. */
  ghost predicate SortedBy<T(!new)>(r: seq<T>, less: (T, T) -> bool) {
    forall i, j :: 0 <= i < j < |r| ==> !less(r[j], r[i])
  }

  function Insert<T>(r: seq<T>, x: T, less: (T, T) -> bool): (t: seq<T>)
    ensures multiset(t) == multiset(r) + multiset{x}
    ensures t != [] && (t[0] == x || (r != [] && t[0] == r[0]))
  {
    if r == [] || !less(r[0], x) then [x] + r
    else
      assert r == [r[0]] + r[1..];
      [r[0]] + Insert(r[1..], x, less)
  }

  lemma {:induction false} InsertSorts<T(!new)>(r: seq<T>, x: T, less: (T, T) -> bool)
    requires Orders(less) && SortedBy(r, less)
    ensures SortedBy(Insert(r, x, less), less)
  {
    if r != [] {
      if less(r[0], x) {
        var t := Insert(r[1..], x, less);
        InsertSorts(r[1..], x, less);
        forall j | 0 <= j < |t|
          ensures !less(t[j], r[0])
        {
          assert j > 0 ==> !less(t[j], t[0]);
          assert !less(t[0], r[0]);
        }
      } else {
        forall j | 0 <= j < |r|
          ensures !less(r[j], x)
        {
          assert j > 0 ==> !less(r[j], r[0]);
        }
      }
    }
  }

  /** Sorting: callers may rely on a sorted permutation and on nothing else. */
  method Sort<T(!new)>(a: seq<T>, less: (T, T) -> bool) returns (r: seq<T>)
    requires Orders(less)
    ensures multiset(r) == multiset(a) && SortedBy(r, less)
  {
    r := [];
    for n := 0 to |a|
      invariant multiset(r) == multiset(a[..n]) && SortedBy(r, less)
    {
      InsertSorts(r, a[n], less);
      r := Insert(r, a[n], less);
      assert a[..n + 1] == a[..n] + [a[n]];
    }
    assert a[..|a|] == a;
  }
}

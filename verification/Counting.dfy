/** Sums over finite sets, and the size facts about sets that the quorum and balance arguments need. */
module Counting {

  /** Some member of s. */
  ghost function Pick<T>(s: set<T>): (x: T)
    requires s != {}
    ensures x in s
  {
    var x :| x in s;
    x
  }

  /** The sum of f over the members of gs. */
  ghost function Sum(gs: set<int>, f: int -> int): int {
    if gs == {} then 0
    else
      var g := Pick(gs);
      f(g) + Sum(gs - {g}, f)
  }

  /** The sum does not depend on which member is taken out first. */
  lemma {:induction false} SumRemove(gs: set<int>, f: int -> int, x: int)
    requires x in gs
    ensures Sum(gs, f) == f(x) + Sum(gs - {x}, f)
  {
    var g := Pick(gs);
    if g != x {
      SumRemove(gs - {g}, f, x);
      SumRemove(gs - {x}, f, g);
      assert gs - {g} - {x} == gs - {x} - {g};
    }
  }

  /** A difference that is smaller member by member is smaller in total. */
  lemma {:induction false} SumDifference(gs: set<int>, a: int -> int, b: int -> int, c: int -> int, d: int -> int)
    requires forall g :: g in gs ==> a(g) - b(g) <= c(g) - d(g)
    ensures Sum(gs, a) - Sum(gs, b) <= Sum(gs, c) - Sum(gs, d)
  {
    if gs != {} {
      var x := Pick(gs);
      SumRemove(gs, a, x);
      SumRemove(gs, b, x);
      SumRemove(gs, c, x);
      SumRemove(gs, d, x);
      SumDifference(gs - {x}, a, b, c, d);
    }
  }

  /** Sums are monotone, strictly so when one member is strictly smaller. */
  lemma SumMonotone(gs: set<int>, a: int -> int, b: int -> int)
    requires forall g :: g in gs ==> a(g) <= b(g)
    ensures Sum(gs, a) <= Sum(gs, b)
    ensures forall x :: x in gs && a(x) < b(x) ==> Sum(gs, a) < Sum(gs, b)
  {
  }

  /** A sum drops when only two members change and those two drop together. */
  lemma SumTwoDrop(gs: set<int>, a: int -> int, b: int -> int, x: int, y: int)
    requires x in gs && y in gs && x != y
    requires forall g :: g in gs && g != x && g != y ==> a(g) == b(g)
    requires a(x) + a(y) < b(x) + b(y)
    ensures Sum(gs, a) < Sum(gs, b)
  {
    SumRemove(gs, a, x);
    SumRemove(gs, b, x);
    SumRemove(gs - {x}, a, y);
    SumRemove(gs - {x}, b, y);
    SumMonotone(gs - {x} - {y}, a, b);
  }

  /** Counting: the sum of ones is the size. */
  lemma {:induction false} SumOnes(gs: set<int>)
    ensures Sum(gs, _ => 1) == |gs|
  {
    if gs != {} {
      var x := Pick(gs);
      SumRemove(gs, _ => 1, x);
      SumOnes(gs - {x});
    }
  }

  lemma SubsetSize<T>(a: set<T>, b: set<T>)
    requires a <= b
    ensures |a| <= |b|
    ensures |a| == |b| ==> a == b
  {
    assert b == a + (b - a);
  }

  predicate NoRepeats<T(==)>(s: seq<T>) {
    forall i, j :: 0 <= i < j < |s| ==> s[i] != s[j]
  }

  /** The members of a list. */
  function Members<T>(s: seq<T>): set<T> { set x | x in s }

  lemma {:induction false} MembersSize<T>(s: seq<T>)
    ensures |Members(s)| <= |s|
    ensures NoRepeats(s) ==> |Members(s)| == |s|
  {
    if s != [] {
      var init, last := s[..|s| - 1], s[|s| - 1];
      MembersSize(init);
      assert s == init + [last];
      assert Members(s) == Members(init) + {last};
    }
  }

  /** The numbers below n. */
  function Below(n: nat): (r: set<int>)
    ensures |r| == n
    ensures forall i :: i in r <==> 0 <= i < n
  {
    if n == 0 then {} else Below(n - 1) + {n - 1}
  }

  /** Two majorities of the same n members have a member in common. */
  lemma MajoritiesMeet(n: nat, a: set<int>, b: set<int>) returns (x: int)
    requires a <= Below(n) && b <= Below(n)
    requires 2 * |a| > n && 2 * |b| > n
    ensures x in a && x in b
  {
    if a * b == {} {
      SubsetSize(a + b, Below(n));
      assert false;
    }
    x := Pick(a * b);
  }
}

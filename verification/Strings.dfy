/** The byte order on strings that Go's < uses. */
module Strings {
  import Sorting

  predicate Less(a: string, b: string) {
    b != [] && (a == [] || a[0] < b[0] || (a[0] == b[0] && Less(a[1..], b[1..])))
  }

  lemma {:induction false} Trichotomy(a: string, b: string)
    ensures Less(a, b) || a == b || Less(b, a)
    ensures !(Less(a, b) && Less(b, a)) && !Less(a, a)
  {
    if a != [] && b != [] {
      Trichotomy(a[1..], b[1..]);
      assert a == [a[0]] + a[1..] && b == [b[0]] + b[1..];
    }
    if a != [] {
      Trichotomy(a[1..], a[1..]);
    }
  }

  lemma {:induction false} Transitive(a: string, b: string, c: string)
    requires !Less(b, a) && !Less(c, b)
    ensures !Less(c, a)
  {
    if a != [] && b != [] && c != [] {
      if a[0] == b[0] == c[0] {
        Transitive(a[1..], b[1..], c[1..]);
      }
    }
  }

  predicate ProperPrefix(a: string, b: string) { |a| < |b| && a == b[..|a|] }

  /** a and b differ first at k, and a has the smaller character there. */
  predicate SmallerAt(a: string, b: string, k: int) {
    0 <= k < |a| && k < |b| && (forall i :: 0 <= i < k ==> a[i] == b[i]) && a[k] < b[k]
  }

  lemma SmallerAtTail(a: string, b: string, k: int)
    requires a != [] && b != [] && a[0] == b[0] && k >= 0
    ensures SmallerAt(a[1..], b[1..], k) <==> SmallerAt(a, b, k + 1)
  {
    var s, t := a[1..], b[1..];
    if SmallerAt(s, t, k) {
      forall i | 0 <= i < k + 1
        ensures a[i] == b[i]
      {
        assert i > 0 ==> a[i] == s[i - 1] && b[i] == t[i - 1];
      }
    }
    if SmallerAt(a, b, k + 1) {
      forall i | 0 <= i < k
        ensures s[i] == t[i]
      {
        assert s[i] == a[i + 1] && t[i] == b[i + 1];
      }
    }
  }

  /** The first character that differs decides, and a proper prefix is less. */
  lemma {:induction false} FirstDifferenceDecides(a: string, b: string)
    ensures Less(a, b) <==> ProperPrefix(a, b) || exists k :: SmallerAt(a, b, k)
  {
    if a != [] && b != [] {
      FirstDifferenceDecides(a[1..], b[1..]);
      assert a == [a[0]] + a[1..] && b == [b[0]] + b[1..];
      if a[0] == b[0] {
        assert ProperPrefix(a, b) <==> ProperPrefix(a[1..], b[1..]);
        if k :| SmallerAt(a, b, k) {
          SmallerAtTail(a, b, k - 1);
        }
        if k :| SmallerAt(a[1..], b[1..], k) {
          SmallerAtTail(a, b, k);
        }
      } else {
        assert a[0] < b[0] ==> SmallerAt(a, b, 0);
      }
    }
  }

  lemma LessOrders()
    ensures Sorting.Orders(Less)
  {
    forall a, b | Less(a, b)
      ensures !Less(b, a)
    {
      Trichotomy(a, b);
    }
    forall a, b, c | !Less(b, a) && !Less(c, b)
      ensures !Less(c, a)
    {
      Transitive(a, b, c);
    }
  }
}

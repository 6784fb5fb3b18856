/**
  Locality: a history of operations on many keys is linearizable if and only if each class
  that Partition makes of it is, so checking key by key loses nothing.
*/
module Locality {
  import opened KvModel

  /** a returned before b was called. */
  predicate Precedes(a: Operation, b: Operation) { a.ret < b.call }

  /** The order l puts no operation after one it preceded in real time. */
  ghost predicate RealTime(l: seq<Operation>) {
    forall i, j :: 0 <= i < j < |l| ==> !Precedes(l[j], l[i])
  }

  ghost predicate WellTimed(l: seq<Operation>) {
    forall i :: 0 <= i < |l| ==> l[i].call <= l[i].ret
  }

  /** One key's operations in the order l, run by Step from st. */
  ghost predicate Legal(l: seq<Operation>, st: KvState<string>)
    requires st.KvState?
  {
    l == [] || (var r := Step(st, l[0].input, l[0].output); r.0 && Legal(l[1..], r.1))
  }

  ghost predicate States(m: map<string, KvState<string>>) {
    forall k :: k in m ==> m[k].KvState?
  }

  function At(m: map<string, KvState<string>>, k: string): KvState<string> {
    if k in m then m[k] else INIT
  }

  /** Operations on all keys in the order l, each run by Step on the state of its own key. */
  ghost predicate LegalMap(l: seq<Operation>, m: map<string, KvState<string>>)
    requires States(m)
  {
    l == []
    || (var k := l[0].input.key;
        var r := Step(At(m, k), l[0].input, l[0].output);
        r.0 && LegalMap(l[1..], m[k := r.1]))
  }

  /** l reorders exactly the operations of h and respects real time. */
  ghost predicate Linearization(h: seq<Operation>, l: seq<Operation>) {
    multiset(l) == multiset(h) && RealTime(l)
  }

  ghost predicate LinearizableKey(h: seq<Operation>) {
    exists l :: Linearization(h, l) && Legal(l, INIT)
  }

  ghost predicate LinearizableMap(h: seq<Operation>) {
    exists l :: Linearization(h, l) && LegalMap(l, map[])
  }

  // ---- Restricting an order to a key ------------------------------------------------

  lemma {:induction false} RestrictCounts(h: seq<Operation>, k: string, op: Operation)
    ensures multiset(Restrict(h, k))[op] == if op.input.key == k then multiset(h)[op] else 0
  {
    if h != [] {
      RestrictCounts(h[1..], k, op);
      assert h == [h[0]] + h[1..];
    }
  }

  lemma RestrictPermutes(a: seq<Operation>, b: seq<Operation>, k: string)
    requires multiset(a) == multiset(b)
    ensures multiset(Restrict(a, k)) == multiset(Restrict(b, k))
  {
    forall op
      ensures multiset(Restrict(a, k))[op] == multiset(Restrict(b, k))[op]
    {
      RestrictCounts(a, k, op);
      RestrictCounts(b, k, op);
    }
  }

  lemma {:induction false} RestrictMembers(h: seq<Operation>, k: string, i: nat)
    requires i < |Restrict(h, k)|
    ensures Restrict(h, k)[i] in h && Restrict(h, k)[i].input.key == k
  {
    var n := if h[0].input.key == k then 1 else 0;
    if i >= n {
      RestrictMembers(h[1..], k, i - n);
    }
  }

  lemma {:induction false} RestrictRealTime(l: seq<Operation>, k: string)
    requires RealTime(l)
    ensures RealTime(Restrict(l, k))
  {
    if l != [] {
      RestrictRealTime(l[1..], k);
      forall i | 0 <= i < |Restrict(l[1..], k)|
        ensures !Precedes(Restrict(l[1..], k)[i], l[0])
      {
        RestrictMembers(l[1..], k, i);
      }
    }
  }

  /** An order is legal for the map if and only if its restriction to every key is legal for that key. */
  lemma {:induction false} LegalByKey(l: seq<Operation>, m: map<string, KvState<string>>)
    requires States(m)
    ensures forall k :: At(m, k).KvState?
    ensures LegalMap(l, m) <==> forall k :: Legal(Restrict(l, k), At(m, k))
  {
    if l != [] {
      var key := l[0].input.key;
      var r := Step(At(m, key), l[0].input, l[0].output);
      assert Restrict(l, key) == [l[0]] + Restrict(l[1..], key);
      assert Restrict(l, key)[1..] == Restrict(l[1..], key);
      if r.0 {
        var m' := m[key := r.1];
        LegalByKey(l[1..], m');
        assert forall k :: k != key ==> Restrict(l, k) == Restrict(l[1..], k) && At(m', k) == At(m, k);
        assert Legal(Restrict(l, key), At(m, key)) <==> Legal(Restrict(l[1..], key), At(m', key));
      } else {
        assert !Legal(Restrict(l, key), At(m, key));
      }
    }
  }

  // ---- Merging two orders --------------------------------------------------------------

  /** x may come before all of b. */
  predicate MayLead(x: Operation, b: seq<Operation>) {
    forall i :: 0 <= i < |b| ==> !Precedes(b[i], x)
  }

  /** Two orders taken together: always next the head that nothing in the other order precedes. */
  function Merge(a: seq<Operation>, b: seq<Operation>): (r: seq<Operation>)
    ensures multiset(r) == multiset(a) + multiset(b)
    decreases |a| + |b|
  {
    if a == [] then b
    else if b == [] then a
    else if MayLead(a[0], b) then
      assert a == [a[0]] + a[1..];
      [a[0]] + Merge(a[1..], b)
    else
      assert b == [b[0]] + b[1..];
      [b[0]] + Merge(a, b[1..])
  }

  /** When some operation of b precedes the head of a, nothing in a precedes the head of b. */
  lemma OneHeadMayLead(a: seq<Operation>, b: seq<Operation>)
    requires a != [] && b != [] && RealTime(a) && RealTime(b) && WellTimed(a) && WellTimed(b)
    ensures MayLead(a[0], b) || MayLead(b[0], a)
  {
    if !MayLead(a[0], b) {
      var i :| 0 <= i < |b| && Precedes(b[i], a[0]);
      forall j | 0 <= j < |a|
        ensures !Precedes(a[j], b[0])
      {
        assert b[0].call <= b[i].ret;
        assert a[0].call <= a[j].ret;
      }
    }
  }

  lemma Lead(x: Operation, a: seq<Operation>, b: seq<Operation>, r: seq<Operation>)
    requires MayLead(x, a) && MayLead(x, b) && multiset(r) == multiset(a) + multiset(b)
    ensures MayLead(x, r)
  {
    forall i | 0 <= i < |r|
      ensures !Precedes(r[i], x)
    {
      assert r[i] in multiset(r);
      assert r[i] in a || r[i] in b;
    }
  }

  lemma {:induction false} MergeRealTime(a: seq<Operation>, b: seq<Operation>)
    requires RealTime(a) && RealTime(b) && WellTimed(a) && WellTimed(b)
    ensures RealTime(Merge(a, b))
    decreases |a| + |b|
  {
    if a != [] && b != [] {
      OneHeadMayLead(a, b);
      if MayLead(a[0], b) {
        MergeRealTime(a[1..], b);
        Lead(a[0], a[1..], b, Merge(a[1..], b));
      } else {
        MergeRealTime(a, b[1..]);
        Lead(b[0], a, b[1..], Merge(a, b[1..]));
      }
    }
  }

  ghost predicate AllOn(l: seq<Operation>, k: string) {
    forall i :: 0 <= i < |l| ==> l[i].input.key == k
  }

  ghost predicate NoneOn(l: seq<Operation>, k: string) {
    forall i :: 0 <= i < |l| ==> l[i].input.key != k
  }

  lemma {:induction false} RestrictAll(l: seq<Operation>, k: string)
    ensures AllOn(l, k) ==> Restrict(l, k) == l
    ensures NoneOn(l, k) ==> Restrict(l, k) == []
  {
    if l != [] {
      RestrictAll(l[1..], k);
    }
  }

  /** Merging one key's order with an order of the others changes neither. */
  lemma {:induction false} MergeRestrict(a: seq<Operation>, b: seq<Operation>, key: string, k: string)
    requires AllOn(a, key) && NoneOn(b, key)
    ensures Restrict(Merge(a, b), k) == if k == key then a else Restrict(b, k)
    decreases |a| + |b|
  {
    RestrictAll(a, key);
    RestrictAll(b, key);
    if a == [] {
    } else if b == [] {
      if k != key {
        RestrictAll(a, k);
      }
    } else if MayLead(a[0], b) {
      MergeRestrict(a[1..], b, key, k);
      assert Merge(a, b)[1..] == Merge(a[1..], b);
    } else {
      MergeRestrict(a, b[1..], key, k);
      assert Merge(a, b)[1..] == Merge(a, b[1..]);
    }
  }

  // ---- The theorem ------------------------------------------------------------------------

  /** The operations of h on other keys than k. */
  function Without(h: seq<Operation>, k: string): seq<Operation> {
    if h == [] then []
    else if h[0].input.key != k then [h[0]] + Without(h[1..], k)
    else Without(h[1..], k)
  }

  lemma {:induction false} WithoutSplits(h: seq<Operation>, k: string)
    ensures multiset(h) == multiset(Restrict(h, k)) + multiset(Without(h, k))
  {
    if h != [] {
      WithoutSplits(h[1..], k);
      assert h == [h[0]] + h[1..];
    }
  }

  lemma {:induction false} WithoutFacts(h: seq<Operation>, k: string)
    ensures |Without(h, k)| <= |h| && (h != [] && h[0].input.key == k ==> |Without(h, k)| < |h|)
    ensures NoneOn(Without(h, k), k) && AllOn(Restrict(h, k), k)
  {
    if h != [] {
      WithoutFacts(h[1..], k);
    }
  }

  lemma {:induction false} RestrictWithout(h: seq<Operation>, k: string, j: string)
    ensures Restrict(Without(h, k), j) == if j == k then [] else Restrict(h, j)
  {
    if h != [] {
      RestrictWithout(h[1..], k, j);
      if h[0].input.key != k {
        assert Without(h, k)[1..] == Without(h[1..], k);
      }
    }
  }

  lemma PermutedFacts(h: seq<Operation>, l: seq<Operation>)
    requires multiset(h) == multiset(l)
    ensures WellTimed(h) ==> WellTimed(l)
    ensures forall k :: (AllOn(h, k) ==> AllOn(l, k)) && (NoneOn(h, k) ==> NoneOn(l, k))
  {
    forall i | 0 <= i < |l|
      ensures l[i] in h
    {
      assert l[i] in multiset(l);
    }
  }

  /** Easy half: a linearization of everything, restricted to a key, linearizes that key. */
  lemma MapGivesKeys(h: seq<Operation>, k: string)
    requires LinearizableMap(h)
    ensures LinearizableKey(Restrict(h, k))
  {
    var l :| Linearization(h, l) && LegalMap(l, map[]);
    RestrictPermutes(l, h, k);
    RestrictRealTime(l, k);
    LegalByKey(l, map[]);
    assert Legal(Restrict(l, k), At(map[], k));
    assert Linearization(Restrict(h, k), Restrict(l, k));
  }

  /** Hard half: linearizations of the keys merge into one of everything. */
  lemma {:induction false} KeysGiveMap(h: seq<Operation>)
    requires WellTimed(h) && forall k :: LinearizableKey(Restrict(h, k))
    ensures LinearizableMap(h)
    decreases |h|
  {
    if h == [] {
      assert Linearization(h, []) && LegalMap([], map[]);
    } else {
      var key := h[0].input.key;
      var rest := Without(h, key);
      WithoutFacts(h, key);
      WithoutSplits(h, key);
      PartsAreWellTimed(h, Restrict(h, key), rest);
      forall k
        ensures LinearizableKey(Restrict(rest, k))
      {
        RestrictWithout(h, key, k);
        if k == key {
          assert Linearization([], []) && Legal([], INIT);
        } else {
          assert LinearizableKey(Restrict(h, k));
        }
      }
      KeysGiveMap(rest);
      var b :| Linearization(rest, b) && LegalMap(b, map[]);
      assert LinearizableKey(Restrict(h, key));
      var a :| Linearization(Restrict(h, key), a) && Legal(a, INIT);
      MergeLinearizes(h, key, a, b);
    }
  }

  lemma PartsAreWellTimed(h: seq<Operation>, a: seq<Operation>, b: seq<Operation>)
    requires WellTimed(h) && multiset(h) == multiset(a) + multiset(b)
    ensures WellTimed(a) && WellTimed(b)
  {
    forall x | x in a || x in b
      ensures x.call <= x.ret
    {
      assert x in multiset(h);
      assert x in h;
    }
  }

  lemma MergeLinearizes(h: seq<Operation>, key: string, a: seq<Operation>, b: seq<Operation>)
    requires WellTimed(Restrict(h, key)) && WellTimed(Without(h, key))
    requires Linearization(Restrict(h, key), a) && Legal(a, INIT)
    requires Linearization(Without(h, key), b) && LegalMap(b, map[])
    ensures LinearizableMap(h)
  {
    WithoutFacts(h, key);
    WithoutSplits(h, key);
    PermutedFacts(Restrict(h, key), a);
    PermutedFacts(Without(h, key), b);
    MergeRealTime(a, b);
    var l := Merge(a, b);
    LegalByKey(b, map[]);
    forall k
      ensures Legal(Restrict(l, k), At(map[], k))
    {
      MergeRestrict(a, b, key, k);
      RestrictWithout(h, key, k);
      assert Legal(Restrict(b, k), At(map[], k));
    }
    LegalByKey(l, map[]);
    assert Linearization(h, l) && LegalMap(l, map[]);
  }

  /** Locality, for the classes that Partition returns. */
  lemma PartitionIsSound(h: seq<Operation>, keys: seq<string>, classes: seq<seq<Operation>>)
    requires WellTimed(h) && IsPartition(h, keys, classes)
    ensures LinearizableMap(h) <==> forall i :: 0 <= i < |classes| ==> LinearizableKey(classes[i])
  {
    if LinearizableMap(h) {
      forall i | 0 <= i < |classes|
        ensures LinearizableKey(classes[i])
      {
        MapGivesKeys(h, keys[i]);
      }
    }
    if forall i :: 0 <= i < |classes| ==> LinearizableKey(classes[i]) {
      forall k
        ensures LinearizableKey(Restrict(h, k))
      {
        if k in keys {
          var i :| 0 <= i < |keys| && keys[i] == k;
          assert LinearizableKey(classes[i]);
        } else {
          RestrictAll(h, k);
          assert Linearization([], []) && Legal([], INIT);
        }
      }
      KeysGiveMap(h);
    }
  }
}

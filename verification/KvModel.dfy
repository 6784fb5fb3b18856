/** The sequential specification of the key/value service and the splitting of histories, src/models1/kv.go. */
module KvModel {
  import opened Counting
  import Sorting
  import Strings

  /** Versions are 64-bit unsigned and wrap around. */
  const VERSIONS := 0x1_0000_0000_0000_0000

  datatype Err = OK | ErrNoKey | ErrVersion | ErrMaybe | ErrWrongLeader | ErrWrongGroup

  datatype KvInput<V> = KvInput(op: int, key: string, value: V, version: int)
  datatype KvOutput<V> = KvOutput(value: V, version: int, err: Err)

  /** Invalid is the state the model names after an unknown operation, which it never accepts. */
  datatype KvState<V> = KvState(value: V, version: int) | Invalid

  const GET := 0
  const PUT := 1

  /** Step: does the output fit the state, and what is the state afterwards? */
  function Step<V(==)>(st: KvState<V>, inp: KvInput<V>, out: KvOutput<V>): (r: (bool, KvState<V>))
    requires st.KvState?
    ensures r.0 ==> r.1.KvState?
  {
    if inp.op == GET then (out.value == st.value, st)
    else if inp.op == PUT then
      if st.version == inp.version then
        (out.err == OK || out.err == ErrMaybe, KvState(inp.value, (st.version + 1) % VERSIONS))
      else
        (out.err == ErrVersion || out.err == ErrMaybe, st)
    else (false, Invalid)
  }

  /** One completed operation of a history. */
  datatype Operation = Operation(clientId: int, input: KvInput<string>, call: int, output: KvOutput<string>, ret: int)

  const INIT := KvState("", 0)

  /** The operations of h on key k, in order. */
  function Restrict(h: seq<Operation>, k: string): seq<Operation> {
    if h == [] then []
    else if h[0].input.key == k then [h[0]] + Restrict(h[1..], k)
    else Restrict(h[1..], k)
  }

  lemma {:induction false} RestrictAppend(h: seq<Operation>, op: Operation, k: string)
    ensures Restrict(h + [op], k) == Restrict(h, k) + if op.input.key == k then [op] else []
  {
    if h == [] {
      assert h + [op] == [op];
    } else {
      assert (h + [op])[1..] == h[1..] + [op];
      RestrictAppend(h[1..], op, k);
    }
  }

  /** classes holds, for each key of h in ascending order, the operations on that key. */
  ghost predicate IsPartition(h: seq<Operation>, keys: seq<string>, classes: seq<seq<Operation>>) {
    && |keys| == |classes|
    && (forall i, j :: 0 <= i < j < |keys| ==> Strings.Less(keys[i], keys[j]))
    && (forall k :: k in keys <==> Uses(h, k))
    && (forall i :: 0 <= i < |keys| ==> classes[i] == Restrict(h, keys[i]))
  }

  /** m files every operation of h under its key, in order. */
  ghost predicate Files(m: map<string, seq<Operation>>, h: seq<Operation>) {
    && (forall k :: k in m ==> m[k] == Restrict(h, k))
    && (forall k :: k in m <==> Uses(h, k))
  }

  predicate Uses(h: seq<Operation>, k: string) {
    exists i :: 0 <= i < |h| && h[i].input.key == k
  }

  lemma {:induction false} UnusedKey(h: seq<Operation>, k: string)
    requires !Uses(h, k)
    ensures Restrict(h, k) == []
  {
    if h != [] {
      assert h[0].input.key != k;
      UnusedKey(h[1..], k);
    }
  }

  lemma FilesNext(m: map<string, seq<Operation>>, h: seq<Operation>, op: Operation)
    requires Files(m, h)
    ensures var key := op.input.key; Files(m[key := (if key in m then m[key] else []) + [op]], h + [op])
  {
    var key := op.input.key;
    var next := m[key := (if key in m then m[key] else []) + [op]];
    forall k | k in next
      ensures next[k] == Restrict(h + [op], k)
    {
      RestrictAppend(h, op, k);
      if k !in m {
        UnusedKey(h, k);
      }
    }
    forall k
      ensures k in next <==> Uses(h + [op], k)
    {
      if k == key {
        assert (h + [op])[|h|].input.key == k;
      } else if Uses(h, k) {
        var i :| 0 <= i < |h| && h[i].input.key == k;
        assert (h + [op])[i].input.key == k;
      }
    }
  }

  /** The first loop of Partition: every operation is filed under its key. */
  method FileByKey(h: seq<Operation>) returns (m: map<string, seq<Operation>>)
    ensures Files(m, h)
  {
    m := map[];
    for n := 0 to |h|
      invariant Files(m, h[..n])
    {
      FilesNext(m, h[..n], h[n]);
      assert h[..n + 1] == h[..n] + [h[n]];
      var key := h[n].input.key;
      m := m[key := (if key in m then m[key] else []) + [h[n]]];
    }
    assert h[..|h|] == h;
  }

  /** Partition. */
  method Partition(h: seq<Operation>) returns (keys: seq<string>, classes: seq<seq<Operation>>)
    ensures IsPartition(h, keys, classes)
  {
    var m := FileByKey(h);
    keys := SortedKeys(m);
    classes := [];
    for n := 0 to |keys|
      invariant |classes| == n && forall i :: 0 <= i < n ==> classes[i] == Restrict(h, keys[i])
    {
      assert keys[n] in m;
      classes := classes + [m[keys[n]]];
    }
  }

  /** The keys of the map, collected in any order and sorted. */
  method SortedKeys(m: map<string, seq<Operation>>) returns (sorted: seq<string>)
    ensures forall k :: k in sorted <==> k in m
    ensures forall i, j :: 0 <= i < j < |sorted| ==> Strings.Less(sorted[i], sorted[j])
  {
    var listed, rest := [], m.Keys;
    while rest != {}
      invariant rest <= m.Keys
      invariant forall k :: k in listed <==> k in m.Keys - rest
      invariant NoRepeats(listed)
    {
      var k :| k in rest;
      assert k !in listed;
      listed, rest := listed + [k], rest - {k};
    }
    Strings.LessOrders();
    sorted := Sorting.Sort(listed, Strings.Less);
    SortedKeysAscend(listed, sorted);
  }

  /** Distinct keys, once sorted, ascend strictly. */
  lemma SortedKeysAscend(listed: seq<string>, sorted: seq<string>)
    requires multiset(sorted) == multiset(listed)
    requires NoRepeats(listed)
    requires Sorting.SortedBy(sorted, Strings.Less)
    ensures forall k :: k in sorted <==> k in listed
    ensures forall i, j :: 0 <= i < j < |sorted| ==> Strings.Less(sorted[i], sorted[j])
  {
    assert forall k :: k in sorted <==> k in multiset(sorted);
    assert forall k :: k in listed <==> k in multiset(listed);
    forall i, j | 0 <= i < j < |sorted|
      ensures Strings.Less(sorted[i], sorted[j])
    {
      assert !Strings.Less(sorted[j], sorted[i]);
      Strings.Trichotomy(sorted[i], sorted[j]);
      if sorted[i] == sorted[j] {
        Repeated(sorted, i, j);
        OccursOnce(listed, sorted[i]);
      }
    }
  }

  lemma Repeated(s: seq<string>, i: nat, j: nat)
    requires i < j < |s| && s[i] == s[j]
    ensures multiset(s)[s[i]] >= 2
  {
    assert s == s[..j] + s[j..];
    assert s[i] in s[..j] && s[j] in s[j..];
  }

  lemma {:induction false} OccursOnce(s: seq<string>, k: string)
    requires NoRepeats(s)
    ensures multiset(s)[k] <= 1
  {
    if s != [] {
      assert s == [s[0]] + s[1..];
      OccursOnce(s[1..], k);
    }
  }
}

/** Connecting, disconnecting and partitioning a group of servers: src/tester1/group.go and src/tester1/srv.go. */
module Group {
  import opened Counting

  ghost predicate Disjoint(p: seq<int>, q: seq<int>) {
    forall x :: x in p ==> x !in q
  }

  /** The part of labrpc's Network that says which client ends are enabled. */
  class Network {
    var enabled: map<string, bool>

    constructor ()
      ensures enabled == map[]
    {
      enabled := map[];
    }

    method Enable(endname: string, on: bool)
      modifies this
      ensures enabled == old(enabled)[endname := on]
    {
      enabled := enabled[endname := on];
    }

    predicate Enabled(endname: string)
      reads this
    {
      endname in enabled && enabled[endname]
    }
  }

  /** Every server has one client end towards each server, and all end names differ. */
  ghost predicate Distinct(endNames: seq<seq<string>>) {
    && (forall i :: 0 <= i < |endNames| ==> |endNames[i]| == |endNames|)
    && (forall i, j, k, m ::
          0 <= i < |endNames| && 0 <= j < |endNames| && 0 <= k < |endNames| && 0 <= m < |endNames| ==>
          (endNames[i][j] == endNames[k][m] ==> i == k && j == m))
  }

  class ServerGrp {
    const net: Network
    /** endNames[i][j] is the name of server i's client end towards server j. */
    const endNames: seq<seq<string>>
    var connected: seq<bool>

    /** makeSrvGrp, given the client ends that makeServer made: MakeEnd refuses a name it already has. */
    constructor (net: Network, endNames: seq<seq<string>>)
      requires Distinct(endNames)
      ensures Valid() && this.net == net && this.endNames == endNames
      ensures forall i :: 0 <= i < |connected| ==> !connected[i]
    {
      this.net, this.endNames := net, endNames;
      connected := seq(|endNames|, _ => false);
    }

    ghost predicate Valid()
      reads this
    {
      |connected| == |endNames| && Distinct(endNames)
    }

    predicate Server(i: int) { 0 <= i < |endNames| }

    ghost predicate Servers(s: seq<int>) { forall k :: 0 <= k < |s| ==> Server(s[k]) }

    /** Server i may call server j. */
    ghost predicate Link(i: int, j: int)
      requires Valid() && Server(i) && Server(j)
      reads this, net
    {
      net.Enabled(endNames[i][j])
    }

    /** The servers that server i may call. */
    ghost function Reach(i: int): set<int>
      requires Valid() && Server(i)
      reads this, net
    {
      set x | 0 <= x < |endNames| && Link(i, x)
    }

    /** connect: the flags decide which of the listed servers are linked with i. */
    method Connect(i: int, to: seq<int>)
      requires Valid() && Server(i) && Servers(to)
      modifies this`connected, net
      ensures Valid() && connected == old(connected)[i := true]
      ensures forall a, b :: Server(a) && Server(b) ==>
        (Link(a, b) <==> (a == i && b in to && connected[b]) || (b == i && a in to && connected[a]) || old(Link(a, b)))
    {
      connected := connected[i := true];
      for j := 0 to |to|
        invariant Valid() && connected == old(connected)[i := true]
        invariant forall a, b :: Server(a) && Server(b) ==>
          (Link(a, b) <==> (a == i && b in to[..j] && connected[b]) || old(Link(a, b)))
      {
        if connected[to[j]] {
          net.Enable(endNames[i][to[j]], true);
        }
        assert to[..j + 1] == to[..j] + [to[j]];
      }
      assert to[..|to|] == to;
      for j := 0 to |to|
        invariant Valid() && connected == old(connected)[i := true]
        invariant forall a, b :: Server(a) && Server(b) ==>
          (Link(a, b) <==>
            (a == i && b in to && connected[b]) || (b == i && a in to[..j] && connected[a]) || old(Link(a, b)))
      {
        if connected[to[j]] {
          net.Enable(endNames[to[j]][i], true);
        }
        assert to[..j + 1] == to[..j] + [to[j]];
      }
    }

    /** disconnect. */
    method Disconnect(i: int, from: seq<int>)
      requires Valid() && Server(i) && Servers(from)
      modifies this`connected, net
      ensures Valid() && connected == old(connected)[i := false]
      ensures forall a, b :: Server(a) && Server(b) ==>
        (Link(a, b) <==> !(a == i && b in from) && !(b == i && a in from) && old(Link(a, b)))
    {
      connected := connected[i := false];
      for j := 0 to |from|
        invariant Valid() && connected == old(connected)[i := false]
        invariant forall a, b :: Server(a) && Server(b) ==>
          (Link(a, b) <==> !(a == i && b in from[..j]) && old(Link(a, b)))
      {
        net.Enable(endNames[i][from[j]], false);
        assert from[..j + 1] == from[..j] + [from[j]];
      }
      assert from[..|from|] == from;
      for j := 0 to |from|
        invariant Valid() && connected == old(connected)[i := false]
        invariant forall a, b :: Server(a) && Server(b) ==>
          (Link(a, b) <==> !(a == i && b in from) && !(b == i && a in from[..j]) && old(Link(a, b)))
      {
        net.Enable(endNames[from[j]][i], false);
        assert from[..j + 1] == from[..j] + [from[j]];
      }
    }

    /** The state when the servers done have been cut from the other side and joined together. */
    ghost predicate Joined(done: seq<int>, other: seq<int>)
      requires Valid()
      reads this, net
    {
      && (forall a :: Server(a) && a in done ==> connected[a])
      && (forall a, b :: Server(a) && Server(b) && a in done && b in done ==> Link(a, b))
      && (forall a, b :: Server(a) && Server(b) && a in done && b in other ==> !Link(a, b) && !Link(b, a))
    }

    /** Isolating side from other leaves the link between a and b alone. */
    ghost predicate Untouched(side: seq<int>, other: seq<int>, a: int, b: int) {
      !(a in side && (b in side || b in other)) && !(b in side && a in other)
    }

    /** The body of one loop of Partition, for all servers of a side. */
    method Isolate(side: seq<int>, other: seq<int>)
      requires Valid() && Servers(side) && Servers(other) && Disjoint(side, other)
      modifies this`connected, net
      ensures Valid() && Joined(side, other)
      ensures forall a :: Server(a) && a !in side ==> connected[a] == old(connected)[a]
      ensures forall a, b :: Server(a) && Server(b) && Untouched(side, other, a, b) ==>
        (Link(a, b) <==> old(Link(a, b)))
      ensures forall a, b :: Server(a) && Server(b) && a in side && b in other ==> !Link(a, b) && !Link(b, a)
    {
      for i := 0 to |side|
        invariant Valid() && Joined(side[..i], other)
        invariant forall a :: Server(a) && a !in side ==> connected[a] == old(connected)[a]
        invariant forall a, b :: Server(a) && Server(b) && Untouched(side, other, a, b) ==>
          (Link(a, b) <==> old(Link(a, b)))
      {
        Disconnect(side[i], other);
        Connect(side[i], side);
        assert side[..i + 1] == side[..i] + [side[i]];
      }
      assert side[..|side|] == side;
    }

    /**
      Partition: whatever the links and flags were before, two listed servers are linked afterwards
      if and only if they are on the same side, and no other link or flag changes.
    */
    method Partition(p1: seq<int>, p2: seq<int>)
      requires Valid() && Servers(p1) && Servers(p2) && Disjoint(p1, p2)
      modifies this`connected, net
      ensures Valid()
      ensures forall a :: Server(a) ==> connected[a] == (a in p1 || a in p2 || old(connected)[a])
      ensures forall a, b :: Server(a) && Server(b) && (a in p1 || a in p2) && (b in p1 || b in p2) ==>
        (Link(a, b) <==> (a in p1 <==> b in p1))
      ensures forall a, b :: Server(a) && Server(b) && !(a in p1 || a in p2) ==>
        (Link(a, b) <==> old(Link(a, b))) && (Link(b, a) <==> old(Link(b, a)))
    {
      Isolate(p1, p2);
      Isolate(p2, p1);
    }
  }

  // ---- Choosing the sides --------------------------------------------------------------

  /** The k-th server other than l. */
  function Other(l: int, k: int): int {
    if k < l then k else k + 1
  }

  /** MakePartition for n servers with leader l. */
  method MakePartition(n: nat, l: int) returns (p1: array<int>, p2: array<int>)
    requires n >= 2 && 0 <= l < n
    ensures fresh(p1) && fresh(p2) && p1.Length == n / 2 + 1 && p2.Length == n / 2
    ensures forall k :: 0 <= k < p1.Length ==> p1[k] == if k < n - 1 then Other(l, k) else 0
    ensures forall k :: 0 <= k < p2.Length - 1 ==> p2[k] == if k + p1.Length < n - 1 then Other(l, k + p1.Length) else 0
    ensures p2[p2.Length - 1] == l
  {
    p1 := new int[n / 2 + 1](_ => 0);
    p2 := new int[n / 2](_ => 0);
    var j := 0;
    for i := 0 to n
      invariant j == if l < i then i - 1 else i
      invariant forall k :: 0 <= k < p1.Length ==> p1[k] == if k < j then Other(l, k) else 0
      invariant forall k :: 0 <= k < p2.Length ==> p2[k] == if k + p1.Length < j then Other(l, k + p1.Length) else 0
    {
      if i != l {
        if j < p1.Length {
          p1[j] := i;
        } else {
          p2[j - p1.Length] := i;
        }
        j := j + 1;
      }
    }
    p2[p2.Length - 1] := l;
  }

  /** What MakePartition fills in. */
  ghost predicate IsSplit(n: nat, l: int, p1: seq<int>, p2: seq<int>) {
    && n >= 2 && 0 <= l < n && |p1| == n / 2 + 1 && |p2| == n / 2
    && (forall k :: 0 <= k < |p1| ==> p1[k] == if k < n - 1 then Other(l, k) else 0)
    && (forall k :: 0 <= k < |p2| - 1 ==> p2[k] == if k + |p1| < n - 1 then Other(l, k + |p1|) else 0)
    && p2[|p2| - 1] == l
  }

  /** Every server is on a side and the leader is on the second. */
  lemma SplitCovers(n: nat, l: int, p1: seq<int>, p2: seq<int>)
    requires IsSplit(n, l, p1, p2)
    ensures forall x :: (x in p1 || x in p2) <==> 0 <= x < n
    ensures 2 * |p1| > n && l in p2
  {
    assert p2[|p2| - 1] == l;
    forall x | 0 <= x < n
      ensures x in p1 || x in p2
    {
      if x != l {
        var k := if x < l then x else x - 1;
        assert Other(l, k) == x;
        if k < |p1| {
          assert p1[k] == x;
        } else {
          assert p2[k - |p1|] == x;
        }
      }
    }
  }

  /**
    The sides are disjoint for every odd number of servers. For an even number one slot stays
    at its initial zero, and the sides are disjoint only in two exceptional cases.
  */
  lemma SplitDisjoint(n: nat, l: int, p1: seq<int>, p2: seq<int>)
    requires IsSplit(n, l, p1, p2)
    ensures Disjoint(p1, p2) <==> n % 2 == 1 || l == if n == 2 then 1 else 0
  {
    assert p2[|p2| - 1] == l;
    if n % 2 == 1 || (n != 2 && l == 0) {
      forall x | x in p1
        ensures x !in p2
      {
        var k :| 0 <= k < |p1| && p1[k] == x;
      }
    } else if n != 2 {
      assert p1[0] == 0 && p2[|p2| - 2] == 0;
      assert 0 in p1 && 0 in p2;
    } else {
      assert p1[0] == 1 - l && p1[1] == 0;
      assert 0 in p1 && l in p2;
    }
  }

  /**
    The first side names a strict majority of the servers, each once, except that with two servers and
    leader 1 it names server 0 twice and no other.
  */
  lemma SplitMajority(n: nat, l: int, p1: seq<int>, p2: seq<int>)
    requires IsSplit(n, l, p1, p2)
    ensures NoRepeats(p1) <==> n != 2 || l == 0
    ensures 2 * |Members(p1)| > n <==> n != 2 || l == 0
  {
    MembersSize(p1);
    if n == 2 && l == 1 {
      assert p1 == [0, 0];
      assert Members(p1) == {0};
    }
  }

  /**
    The first side takes the lowest-numbered servers other than the leader in ascending order and the second
    the rest of them, up to the leader and the slot that an even number of servers leaves at zero.
  */
  lemma SplitAscends(n: nat, l: int, p1: seq<int>, p2: seq<int>)
    requires IsSplit(n, l, p1, p2) && n > 2
    ensures forall i, j :: 0 <= i < j < |p1| ==> p1[i] < p1[j]
    ensures forall i, j :: 0 <= i < j < |p2| - (if n % 2 == 1 then 1 else 2) ==> p2[i] < p2[j]
    ensures forall i, j :: 0 <= i < |p1| && 0 <= j < |p2| - (if n % 2 == 1 then 1 else 2) ==> p1[i] < p2[j]
    ensures l !in p1 && (n % 2 == 0 ==> p2[|p2| - 2] == 0)
  {
  }

  /**
    MakePartition followed by Partition, for an odd group: the leader can call only a minority of the
    servers, while every server on the other side can call a majority.
  */
  method CutOffLeader(sg: ServerGrp, l: int) returns (p1: seq<int>, p2: seq<int>)
    requires sg.Valid() && sg.Server(l) && |sg.endNames| % 2 == 1 && |sg.endNames| >= 3
    modifies sg`connected, sg.net
    ensures sg.Valid()
    ensures NoRepeats(p1) && 2 * |p1| > |sg.endNames| > 2 * |p2| && Disjoint(p1, p2) && l in p2
    ensures forall x :: (x in p1 || x in p2) <==> sg.Server(x)
    ensures forall a, b :: sg.Server(a) && sg.Server(b) ==> (sg.Link(a, b) <==> (a in p1 <==> b in p1))
    ensures 2 * |sg.Reach(l)| < |sg.endNames|
    ensures forall a :: a in p1 ==> sg.Server(a) && 2 * |sg.Reach(a)| > |sg.endNames|
  {
    var a1, a2 := MakePartition(|sg.endNames|, l);
    p1, p2 := a1[..], a2[..];
    SplitCovers(|sg.endNames|, l, p1, p2);
    SplitDisjoint(|sg.endNames|, l, p1, p2);
    SplitMajority(|sg.endNames|, l, p1, p2);
    assert forall k :: 0 <= k < |p1| ==> p1[k] in p1;
    assert forall k :: 0 <= k < |p2| ==> p2[k] in p2;
    sg.Partition(p1, p2);
    MembersSize(p2);
    SidesReach(sg, p1, p2);
  }

  /** Two sides that cover all servers and are linked within only: each server reaches its own side. */
  lemma SidesReach(sg: ServerGrp, p1: seq<int>, p2: seq<int>)
    requires sg.Valid() && Disjoint(p1, p2) && forall x :: (x in p1 || x in p2) <==> sg.Server(x)
    requires forall a, b :: sg.Server(a) && sg.Server(b) ==> (sg.Link(a, b) <==> (a in p1 <==> b in p1))
    ensures forall a :: sg.Server(a) ==> sg.Reach(a) == Members(if a in p1 then p1 else p2)
  {
    forall a | sg.Server(a)
      ensures sg.Reach(a) == Members(if a in p1 then p1 else p2)
    {
      forall x
        ensures x in sg.Reach(a) <==> x in Members(if a in p1 then p1 else p2)
      {
        assert sg.Server(x) <==> x in p1 || x in p2;
      }
    }
  }

  /** The splitting loop of kvtest's Partitioner for one side: the servers whose coin shows i. */
  method Side(coins: seq<int>, i: int) returns (side: seq<int>)
    ensures forall x :: x in side <==> 0 <= x < |coins| && coins[x] == i
  {
    side := [];
    for j := 0 to |coins|
      invariant forall x :: x in side <==> 0 <= x < j && coins[x] == i
    {
      if coins[j] == i {
        side := side + [j];
      }
    }
  }

  /** One round of the Partitioner: afterwards servers are linked exactly when their coins agree. */
  method RandomPartition(sg: ServerGrp, coins: seq<int>)
    requires sg.Valid() && |coins| == |sg.endNames| && forall x :: 0 <= x < |coins| ==> 0 <= coins[x] < 2
    modifies sg`connected, sg.net
    ensures sg.Valid()
    ensures forall a, b :: sg.Server(a) && sg.Server(b) ==> sg.connected[a] && (sg.Link(a, b) <==> coins[a] == coins[b])
  {
    var heads := Side(coins, 0);
    var tails := Side(coins, 1);
    assert forall k :: 0 <= k < |heads| ==> heads[k] in heads;
    assert forall k :: 0 <= k < |tails| ==> tails[k] in tails;
    sg.Partition(heads, tails);
  }
}

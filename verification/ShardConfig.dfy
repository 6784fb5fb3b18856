/** The ShardConfig object of src/shardkv1/shardcfg/shardcfg.go and its methods. */
module ShardConfig {
  import opened Counting
  import opened ShardSpec
  import Sorting

  const NSHARDS := 12

  /** Fatal stands for the calls of log.Fatalf, which end the program. */
  datatype Outcome = Done | Refused | Fatal

  /** The value of a configuration. */
  datatype View = View(num: int, shards: seq<int>, groups: map<int, seq<string>>)

  /** Every shard is unassigned. */
  predicate Unassigned(s: seq<int>) {
    |s| == NSHARDS && forall i :: 0 <= i < |s| ==> s[i] == 0
  }

  /** What MakeShardConfig returns. */
  predicate Initial(v: View) {
    v.num == 0 && Unassigned(v.shards) && v.groups == map[]
  }

  predicate Share(a: seq<string>, b: seq<string>) {
    exists x :: x in a && x in b
  }

  /** No two groups list the same server. */
  ghost predicate Separate(groups: map<int, seq<string>>) {
    forall g, h :: g in groups && h in groups && g != h ==> !Share(groups[g], groups[h])
  }

  /** The new groups share no server with the present groups or with each other. */
  ghost predicate Fits(groups: map<int, seq<string>>, servers: map<int, seq<string>>) {
    && (forall g, h :: g in servers && h in groups ==> !Share(groups[h], servers[g]))
    && (forall g, h :: g in servers && h in servers && g != h ==> !Share(servers[h], servers[g]))
  }

  function Restrict(servers: map<int, seq<string>>, gids: set<int>): map<int, seq<string>> {
    map g | g in servers && g in gids :: servers[g]
  }

  /** What Join may do; map iteration order decides how much a refused call has already applied. */
  ghost predicate JoinSpec(before: View, servers: map<int, seq<string>>, out: Outcome, after: View) {
    && after.shards == before.shards
    && (out.Done? <==> servers != map[] && servers.Keys !! before.groups.Keys && Fits(before.groups, servers))
    && (out.Refused? ==> exists g :: g in servers && g in before.groups)
    && (out.Fatal? ==> servers == map[] || !Fits(before.groups, servers - before.groups.Keys))
    && after.num == before.num + (if out.Done? then 1 else 0)
    && (out.Done? ==> after.groups == before.groups + servers)
    && (exists joined: set<int> :: Joined(before.groups, servers, joined, after.groups))
  }

  /** Exactly the groups in joined were added, and they clash with nothing present. */
  ghost predicate Joined(before: map<int, seq<string>>, servers: map<int, seq<string>>, joined: set<int>,
                         after: map<int, seq<string>>)
  {
    && joined <= servers.Keys && joined !! before.Keys
    && after == before + Restrict(servers, joined)
    && Fits(before, Restrict(servers, joined))
  }

  /** A group that clashes with nothing present may join as well. */
  lemma JoinedNext(before: map<int, seq<string>>, servers: map<int, seq<string>>, joined: set<int>,
                   now: map<int, seq<string>>, gid: int)
    requires Joined(before, servers, joined, now) && gid in servers && gid !in now
    requires forall x :: x in now ==> !Share(now[x], servers[gid])
    ensures Joined(before, servers, joined + {gid}, now[gid := servers[gid]])
  {
  }

  /** A clash with something present is a clash of a new group with the old groups or with another new one. */
  lemma JoinedClash(before: map<int, seq<string>>, servers: map<int, seq<string>>, joined: set<int>,
                    now: map<int, seq<string>>, gid: int, x: int)
    requires Joined(before, servers, joined, now) && gid in servers && gid !in now
    requires x in now && Share(now[x], servers[gid])
    ensures !Fits(before, servers - before.Keys) && !Fits(before, servers)
  {
    var added := servers - before.Keys;
    assert gid in added && added[gid] == servers[gid];
    if x !in before {
      assert x in added && added[x] == servers[x];
    }
  }

  /** What Leave does: it removes groups until one is missing. */
  ghost predicate LeaveSpec(before: View, gids: seq<int>, out: Outcome, after: View) {
    && after.shards == before.shards
    && (out.Fatal? <==> gids == [])
    && (out.Done? <==> gids != [] && NoRepeats(gids) && forall g :: g in gids ==> g in before.groups)
    && after.num == before.num + (if out.Done? then 1 else 0)
    && (out.Done? ==> after.groups == before.groups - Members(gids))
    && (exists n: nat ::
          Left(before.groups, gids, n, after.groups) && (out.Refused? ==> n < |gids| && gids[n] !in after.groups))
  }

  /** Exactly the first n groups of gids were removed, and all of them were present. */
  ghost predicate Left(before: map<int, seq<string>>, gids: seq<int>, n: nat, after: map<int, seq<string>>) {
    && n <= |gids| && NoRepeats(gids[..n])
    && (forall g :: g in gids[..n] ==> g in before)
    && after == before - Members(gids[..n])
  }

  /** What a balancing call adds to the bare one. */
  ghost function Settle(v: View, out: Outcome): View {
    if out.Done? then v.(shards := Rebalanced(v.shards, v.groups.Keys)) else v
  }

  ghost predicate JoinBalanceSpec(before: View, servers: map<int, seq<string>>, out: Outcome, after: View) {
    exists mid: View :: JoinSpec(before, servers, out, mid) && after == Settle(mid, out)
  }

  ghost predicate LeaveBalanceSpec(before: View, gids: seq<int>, out: Outcome, after: View) {
    exists mid: View :: LeaveSpec(before, gids, out, mid) && after == Settle(mid, out)
  }

  /** What CheckConfig accepts: the right number of groups, all present, every shard served, and balance. */
  ghost predicate Accepts(v: View, gids: seq<int>) {
    && |v.groups| == |gids|
    && (forall g :: g in gids ==> g in v.groups)
    && (gids != [] ==> forall i :: 0 <= i < |v.shards| ==> v.shards[i] in v.groups)
    && (forall g, h :: g in v.groups && h in v.groups ==> Count(v.shards, g) <= Count(v.shards, h) + 1)
  }

  // ---- Small steps used by the loops ------------------------------------------

  function Get(counts: map<int, nat>, g: int): nat {
    if g in counts then counts[g] else 0
  }

  lemma CountNext(s: seq<int>, i: nat, g: int)
    requires i < |s|
    ensures Count(s[..i + 1], g) == Count(s[..i], g) + if s[i] == g then 1 else 0
  {
    assert Owned(s[..i + 1], g) == Owned(s[..i], g) + if s[i] == g then {i} else {};
  }

  lemma CountBound(s: seq<int>, g: int)
    ensures Count(s, g) <= |s|
  {
    SubsetSize(Owned(s, g), Below(|s|));
  }

  /** counts is the number of shards of every group in s. */
  ghost predicate Tallies(counts: map<int, nat>, s: seq<int>) {
    forall g :: Get(counts, g) == Count(s, g)
  }

  lemma TalliesNext(counts: map<int, nat>, s: seq<int>, i: nat)
    requires i < |s| && Tallies(counts, s[..i])
    ensures Tallies(counts[s[i] := Get(counts, s[i]) + 1], s[..i + 1])
  {
    var next := counts[s[i] := Get(counts, s[i]) + 1];
    forall g
      ensures Get(next, g) == Count(s[..i + 1], g)
    {
      CountNext(s, i, g);
      assert Get(counts, g) == Count(s[..i], g);
    }
  }

  ghost predicate Ascending(r: seq<int>) {
    forall i, j :: 0 <= i < j < |r| ==> r[i] <= r[j]
  }

  predicate Smaller(a: int, b: int) { a < b }

  /** mg and lg are the smallest most and least loaded of the ids. */
  ghost predicate Extremes(s: seq<int>, ids: seq<int>, mg: int, lg: int) {
    && mg in ids && lg in ids
    && (forall h :: h in ids ==> Count(s, h) < Count(s, mg) || (Count(s, h) == Count(s, mg) && mg <= h))
    && (forall h :: h in ids ==> Count(s, lg) < Count(s, h) || (Count(s, h) == Count(s, lg) && lg <= h))
  }

  /** An id after all others takes over only by beating the count. */
  lemma ExtremesNext(s: seq<int>, ids: seq<int>, mg: int, lg: int, g: int)
    requires Ascending(ids + [g])
    ensures ids == [] ==> Extremes(s, ids + [g], g, g)
    ensures Extremes(s, ids, mg, lg) ==>
      Extremes(s, ids + [g], if Count(s, g) > Count(s, mg) then g else mg, if Count(s, g) < Count(s, lg) then g else lg)
  {
  }

  class Config {
    var num: int
    const shards: array<int>
    var groups: map<int, seq<string>>

    predicate Valid() { shards.Length == NSHARDS }

    ghost function Value(): View
      reads this, shards
    {
      View(num, shards[..], groups)
    }

    /** MakeShardConfig. */
    constructor ()
      ensures Valid() && fresh(shards)
      ensures Initial(Value())
    {
      num := 0;
      shards := new int[NSHARDS](_ => 0);
      groups := map[];
    }

    /** Copy: an equal configuration that shares no storage with this one. */
    method Copy() returns (c: Config)
      requires Valid()
      ensures c.Valid() && fresh(c) && fresh(c.shards)
      ensures c.Value() == Value()
    {
      c := new Config();
      c.num := num;
      for i := 0 to NSHARDS
        invariant c.shards[..i] == shards[..i]
        invariant c.num == num && c.groups == map[]
      {
        c.shards[i] := shards[i];
      }
      var rest := groups.Keys;
      while rest != {}
        invariant rest <= groups.Keys && c.num == num && c.shards[..] == shards[..]
        invariant c.groups == Restrict(groups, groups.Keys - rest)
      {
        ghost var some := Pick(rest);
        var k :| k in rest;
        c.groups := c.groups[k := groups[k]];
        rest := rest - {k};
      }
    }

    method CountShards() returns (counts: map<int, nat>)
      requires Valid()
      ensures Tallies(counts, shards[..])
    {
      counts := map[];
      var table := shards[..];
      assert forall g :: Owned(table[..0], g) == {};
      for i := 0 to NSHARDS
        invariant Tallies(counts, table[..i])
      {
        TalliesNext(counts, table, i);
        counts := counts[table[i] := Get(counts, table[i]) + 1];
      }
      assert table[..NSHARDS] == table;
    }

    /** The group ids in ascending order, whatever order the map is walked in. */
    method GroupIds() returns (sorted: seq<int>)
      ensures Ascending(sorted) && |sorted| == |groups|
      ensures forall k :: k in sorted <==> k in groups
    {
      var keys, rest := [], groups.Keys;
      while rest != {}
        invariant rest <= groups.Keys && |keys| + |rest| == |groups|
        invariant forall k :: k in keys <==> k in groups.Keys - rest
      {
        ghost var some := Pick(rest);
        var k :| k in rest;
        keys, rest := keys + [k], rest - {k};
      }
      sorted := Sorting.Sort(keys, Smaller);
      assert |multiset(sorted)| == |multiset(keys)|;
      assert forall k :: k in sorted <==> k in multiset(sorted);
      assert forall k :: k in keys <==> k in multiset(keys);
    }

    /** analyze: whatever order the group map is walked in, it finds the same two groups. */
    method Analyze() returns (mg: int, mn: int, lg: int, ln: int)
      requires Valid()
      ensures groups == map[] ==> mg == lg == mn == -1 && ln == 257
      ensures groups != map[] ==> mg == Most(shards[..], groups.Keys) && mn == Count(shards[..], mg)
      ensures groups != map[] ==> lg == Least(shards[..], groups.Keys) && ln == Count(shards[..], lg)
    {
      var counts := CountShards();
      mg, mn, lg, ln := -1, -1, -1, 257;
      var sorted := GroupIds();
      ghost var s := shards[..];
      for i := 0 to |sorted|
        invariant if i == 0 then mg == lg == mn == -1 && ln == 257 else Extremes(s, sorted[..i], mg, lg)
        invariant i > 0 ==> mn == Count(s, mg) && ln == Count(s, lg)
      {
        var g := sorted[i];
        CountBound(s, g);
        assert Get(counts, g) == Count(s, g);
        assert sorted[..i + 1] == sorted[..i] + [g];
        ExtremesNext(s, sorted[..i], mg, lg, g);
        if Get(counts, g) < ln {
          ln, lg := Get(counts, g), g;
        }
        if Get(counts, g) > mn {
          mn, mg := Get(counts, g), g;
        }
      }
      assert sorted[..|sorted|] == sorted;
      if groups != map[] {
        var k := Pick(groups.Keys);
        assert k in sorted;
        ExtremesAreUnique(s, groups.Keys, mg, lg);
      }
    }

    /** least: the group that gets the next unassigned shard. */
    method LeastLoaded() returns (lg: int)
      requires Valid()
      ensures lg == if groups == map[] then -1 else Least(shards[..], groups.Keys)
    {
      var _, _, g, _ := Analyze();
      lg := g;
    }

    /** Rebalance: both range loops walk a copy of the table, as Go does for arrays. */
    method Rebalance()
      requires Valid()
      modifies shards
      ensures shards[..] == Rebalanced(old(shards[..]), groups.Keys)
    {
      ghost var gs := groups.Keys;
      if |groups| < 1 {
        for s := 0 to NSHARDS
          invariant forall k :: 0 <= k < s ==> shards[k] == 0
        {
          shards[s] := 0;
        }
        assert gs == {};
        return;
      }
      assert gs != {};
      var table := shards[..];
      for s := 0 to NSHARDS
        invariant shards[s..] == table[s..]
        invariant Assign(shards[..], gs, s) == Assign(table, gs, 0)
      {
        if table[s] !in groups {
          var lg := LeastLoaded();
          ghost var before := shards[..];
          shards[s] := lg;
          assert shards[..] == before[s := lg];
        }
        assert shards[s + 1..] == table[s + 1..];
      }
      MoveShards();
    }

    /** The second loop of Rebalance. */
    method MoveShards()
      requires Valid() && groups != map[]
      modifies shards
      ensures shards[..] == Level(old(shards[..]), groups.Keys)
    {
      ghost var gs := groups.Keys;
      while true
        invariant Level(shards[..], gs) == Level(old(shards[..]), gs)
        decreases Energy(shards[..], gs)
      {
        var mg, mn, lg, ln := Analyze();
        if mn < ln + 2 {
          break;
        }
        var table := shards[..];
        MoveFinds(table, gs);
        MoveLowersEnergy(table, gs);
        EnergyNonNegative(table, gs);
        var s := 0;
        while s < NSHARDS
          invariant 0 <= s <= NSHARDS && shards[..] == table
          invariant FirstOwned(table, mg, 0) == FirstOwned(table, mg, s)
        {
          if table[s] == mg {
            shards[s] := lg;
            break;
          }
          s := s + 1;
        }
        assert shards[..] == MoveOne(table, gs);
      }
    }

    /** The name comparison inside Join: does a present group list one of these servers? */
    method Clashes(servers: seq<string>) returns (clash: bool)
      ensures clash <==> exists x :: x in groups && Share(groups[x], servers)
    {
      var rest := groups.Keys;
      clash := false;
      while rest != {}
        invariant rest <= groups.Keys
        invariant clash <==> exists x :: x in groups.Keys - rest && Share(groups[x], servers)
      {
        ghost var some := Pick(rest);
        var x :| x in rest;
        var i := 0;
        while i < |groups[x]|
          invariant 0 <= i <= |groups[x]|
          invariant clash <==>
            (exists y :: y in groups.Keys - rest && Share(groups[y], servers)) || Share(groups[x][..i], servers)
        {
          if groups[x][i] in servers {
            clash := true;
            assert groups[x][i] in groups[x][..i + 1];
          }
          assert groups[x][..i + 1] == groups[x][..i] + [groups[x][i]];
          i := i + 1;
        }
        assert groups[x][..i] == groups[x];
        rest := rest - {x};
      }
    }

    /** Join. */
    method Join(servers: map<int, seq<string>>) returns (out: Outcome)
      requires Valid()
      modifies this
      ensures JoinSpec(old(Value()), servers, out, Value())
    {
      var rest := servers.Keys;
      var changed := false;
      while rest != {}
        invariant rest <= servers.Keys && num == old(num)
        invariant changed <==> rest != servers.Keys
        invariant Joined(old(groups), servers, servers.Keys - rest, groups)
      {
        ghost var some := Pick(rest);
        var gid :| gid in rest;
        if gid in groups {
          return Refused;
        }
        var clash := Clashes(servers[gid]);
        if clash {
          ghost var x :| x in groups && Share(groups[x], servers[gid]);
          JoinedClash(old(groups), servers, servers.Keys - rest, groups, gid, x);
          return Fatal;
        }
        JoinedNext(old(groups), servers, servers.Keys - rest, groups, gid);
        groups := groups[gid := servers[gid]];
        changed := true;
        assert servers.Keys - (rest - {gid}) == servers.Keys - rest + {gid};
        rest := rest - {gid};
      }
      assert Restrict(servers, servers.Keys - rest) == servers;
      if !changed {
        return Fatal;
      }
      num := num + 1;
      return Done;
    }

    /** Leave. */
    method Leave(gids: seq<int>) returns (out: Outcome)
      requires Valid()
      modifies this
      ensures LeaveSpec(old(Value()), gids, out, Value())
    {
      for i := 0 to |gids|
        invariant num == old(num) && Left(old(groups), gids, i, groups)
      {
        var gid := gids[i];
        if gid !in groups {
          assert gid in gids;
          assert gid in old(groups) ==> exists k :: 0 <= k < i && gids[k] == gid;
          return Refused;
        }
        groups := groups - {gid};
        assert gids[..i + 1] == gids[..i] + [gids[i]];
      }
      assert gids[..|gids|] == gids;
      if gids == [] {
        return Fatal;
      }
      num := num + 1;
      return Done;
    }

    /** JoinBalance. */
    method JoinBalance(servers: map<int, seq<string>>) returns (out: Outcome)
      requires Valid()
      modifies this, shards
      ensures JoinBalanceSpec(old(Value()), servers, out, Value())
    {
      out := Join(servers);
      if out.Done? {
        Rebalance();
      }
    }

    /** LeaveBalance. */
    method LeaveBalance(gids: seq<int>) returns (out: Outcome)
      requires Valid()
      modifies this, shards
      ensures LeaveBalanceSpec(old(Value()), gids, out, Value())
    {
      out := Leave(gids);
      if out.Done? {
        Rebalance();
      }
    }

    /** IsMember: does any shard belong to the group? */
    method IsMember(gid: int) returns (member: bool)
      requires Valid()
      ensures member <==> gid in Value().shards
    {
      for i := 0 to NSHARDS
        invariant gid !in shards[..i]
      {
        if shards[i] == gid {
          assert shards[..][i] == gid;
          return true;
        }
      }
      assert shards[..NSHARDS] == shards[..];
      return false;
    }

    /** CheckConfig, with its fatal errors as the answer false. */
    method CheckConfig(gids: seq<int>) returns (ok: bool)
      requires Valid()
      ensures ok <==> Accepts(Value(), gids)
    {
      ghost var v := Value();
      if |groups| != |gids| {
        return false;
      }
      for i := 0 to |gids|
        invariant forall g :: g in gids[..i] ==> g in groups
      {
        var gid := gids[i];
        if gid !in groups {
          assert gid in gids;
          return false;
        }
        assert gids[..i + 1] == gids[..i] + [gids[i]];
      }
      assert gids[..|gids|] == gids;
      if |gids| > 0 {
        for i := 0 to NSHARDS
          invariant forall k :: 0 <= k < i ==> shards[k] in groups
        {
          if shards[i] !in groups {
            assert v.shards[i] == shards[i] && v.shards[i] !in v.groups;
            return false;
          }
        }
      }
      var counts := CountShards();
      var min, max := 257, 0;
      var rest := groups.Keys;
      while rest != {}
        invariant rest <= groups.Keys
        invariant forall g :: g in groups.Keys - rest ==> min <= Count(v.shards, g) <= max
        invariant max == 0 || exists g :: g in groups.Keys - rest && Count(v.shards, g) == max
        invariant min == 257 || exists g :: g in groups.Keys - rest && Count(v.shards, g) == min
        invariant min == 257 ==> max == 0
      {
        ghost var some := Pick(rest);
        var g :| g in rest;
        CountBound(v.shards, g);
        if Get(counts, g) > max {
          max := Get(counts, g);
        }
        if Get(counts, g) < min {
          min := Get(counts, g);
        }
        rest := rest - {g};
      }
      return max <= min + 1;
    }
  }

  /** Work on a copy leaves the original as it was. */
  method RebalanceCopy(cfg: Config, servers: map<int, seq<string>>, gids: seq<int>)
    returns (c: Config, joined: Outcome, left: Outcome)
    requires cfg.Valid()
    ensures unchanged(cfg) && unchanged(cfg.shards) && fresh(c) && fresh(c.shards)
    ensures exists mid: View ::
      JoinBalanceSpec(cfg.Value(), servers, joined, mid) && LeaveBalanceSpec(mid, gids, left, c.Value())
  {
    c := cfg.Copy();
    joined := c.JoinBalance(servers);
    ghost var mid := c.Value();
    left := c.LeaveBalance(gids);
  }
}

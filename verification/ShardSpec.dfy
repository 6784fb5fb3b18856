/**
  What src/shardkv1/shardcfg/shardcfg.go computes, as functions of the shard table and
  the set of group ids, and the laws of that computation.
*/
module ShardSpec {
  import opened Counting

  /** The shards that table s gives to group g. */
  function Owned(s: seq<int>, g: int): set<int> {
    set i | 0 <= i < |s| && s[i] == g
  }

  function Count(s: seq<int>, g: int): nat {
    |Owned(s, g)|
  }

  /** g is the smallest id among the groups with the most shards. */
  predicate IsMost(s: seq<int>, gs: set<int>, g: int) {
    g in gs && forall h :: h in gs ==> Count(s, h) < Count(s, g) || (Count(s, h) == Count(s, g) && g <= h)
  }

  /** g is the smallest id among the groups with the fewest shards. */
  predicate IsLeast(s: seq<int>, gs: set<int>, g: int) {
    g in gs && forall h :: h in gs ==> Count(s, g) < Count(s, h) || (Count(s, h) == Count(s, g) && g <= h)
  }

  ghost function Most(s: seq<int>, gs: set<int>): (g: int)
    requires gs != {}
    ensures IsMost(s, gs, g)
  {
    var x := Pick(gs);
    if gs == {x} then x
    else
      assert gs - {x} != {};
      var y := Most(s, gs - {x});
      if Count(s, y) < Count(s, x) || (Count(s, y) == Count(s, x) && x <= y) then x else y
  }

  ghost function Least(s: seq<int>, gs: set<int>): (g: int)
    requires gs != {}
    ensures IsLeast(s, gs, g)
  {
    var x := Pick(gs);
    if gs == {x} then x
    else
      assert gs - {x} != {};
      var y := Least(s, gs - {x});
      if Count(s, x) < Count(s, y) || (Count(s, y) == Count(s, x) && x <= y) then x else y
  }

  /** Ties are broken by the id, so which group is most or least loaded depends on the table and the ids alone. */
  lemma ExtremesAreUnique(s: seq<int>, gs: set<int>, g: int, h: int)
    requires IsMost(s, gs, g) && IsLeast(s, gs, h)
    ensures g == Most(s, gs) && h == Least(s, gs)
  {
  }

  /** The first shard of group g, or |s| when it has none. */
  function FirstOwned(s: seq<int>, g: int, from: nat): (i: nat)
    requires from <= |s|
    ensures from <= i <= |s|
    ensures i < |s| ==> s[i] == g
    ensures forall k :: from <= k < i ==> s[k] != g
    decreases |s| - from
  {
    if from == |s| || s[from] == g then from else FirstOwned(s, g, from + 1)
  }

  /** Giving shard i to v takes it from its owner, gives it to v and touches no other group. */
  lemma CountUpdate(s: seq<int>, i: nat, v: int)
    requires i < |s| && s[i] != v
    ensures Owned(s[i := v], v) == Owned(s, v) + {i} && Owned(s[i := v], s[i]) == Owned(s, s[i]) - {i}
    ensures Count(s[i := v], v) == Count(s, v) + 1 && Count(s[i := v], s[i]) == Count(s, s[i]) - 1
    ensures forall g :: g != v && g != s[i] ==> Owned(s[i := v], g) == Owned(s, g)
  {
  }

  // ---- The allocator -------------------------------------------------------

  /** The first loop of Rebalance, from shard i on: unassigned shards go to the least loaded group. */
  ghost function Assign(s: seq<int>, gs: set<int>, i: nat): (r: seq<int>)
    requires gs != {} && i <= |s|
    ensures |r| == |s|
    decreases |s| - i
  {
    if i == |s| then s
    else if s[i] in gs then Assign(s, gs, i + 1)
    else Assign(s[i := Least(s, gs)], gs, i + 1)
  }

  ghost predicate Levelled(s: seq<int>, gs: set<int>)
    requires gs != {}
  {
    Count(s, Most(s, gs)) < Count(s, Least(s, gs)) + 2
  }

  /** One round of the second loop of Rebalance. */
  ghost function MoveOne(s: seq<int>, gs: set<int>): (r: seq<int>)
    requires gs != {} && !Levelled(s, gs)
    ensures |r| == |s|
  {
    MoveFinds(s, gs);
    s[FirstOwned(s, Most(s, gs), 0) := Least(s, gs)]
  }

  /** The scan for a shard to move always finds one, and it never moves a shard onto its own group. */
  lemma MoveFinds(s: seq<int>, gs: set<int>)
    requires gs != {} && !Levelled(s, gs)
    ensures FirstOwned(s, Most(s, gs), 0) < |s|
    ensures Most(s, gs) != Least(s, gs)
  {
  }

  function Square(x: int): int { x * x }

  /** The sum of the squared shard counts. */
  ghost function Energy(s: seq<int>, gs: set<int>): int {
    Sum(gs, g => Square(Count(s, g)))
  }

  lemma {:induction false} EnergyNonNegative(s: seq<int>, gs: set<int>)
    ensures Energy(s, gs) >= 0
    decreases gs
  {
    if gs != {} {
      var x := Pick(gs);
      SumRemove(gs, g => Square(Count(s, g)), x);
      EnergyNonNegative(s, gs - {x});
    }
  }

  /** From s to r one shard went from the most loaded group mg to the least loaded group lg. */
  ghost predicate Moved(s: seq<int>, r: seq<int>, gs: set<int>, mg: int, lg: int) {
    && mg in gs && lg in gs && Count(s, mg) >= Count(s, lg) + 2
    && (forall g :: g in gs ==> Count(s, lg) <= Count(s, g) <= Count(s, mg))
    && (forall g :: g in gs ==> Count(r, g) == Count(s, g) + if g == mg then -1 else if g == lg then 1 else 0)
  }

  lemma MoveOneMoves(s: seq<int>, gs: set<int>)
    requires gs != {} && !Levelled(s, gs)
    ensures Moved(s, MoveOne(s, gs), gs, Most(s, gs), Least(s, gs))
  {
    MoveFinds(s, gs);
    CountUpdate(s, FirstOwned(s, Most(s, gs), 0), Least(s, gs));
  }

  /** Every round of the second loop lowers the energy, so the loop ends. */
  lemma MoveLowersEnergy(s: seq<int>, gs: set<int>)
    requires gs != {} && !Levelled(s, gs)
    ensures Energy(MoveOne(s, gs), gs) < Energy(s, gs)
  {
    MoveFinds(s, gs);
    MoveOneMoves(s, gs);
    MovedLowersEnergy(s, MoveOne(s, gs), gs, Most(s, gs), Least(s, gs));
  }

  lemma MovedLowersEnergy(s: seq<int>, r: seq<int>, gs: set<int>, mg: int, lg: int)
    requires Moved(s, r, gs, mg, lg)
    ensures Energy(r, gs) < Energy(s, gs)
  {
    var before := g => Square(Count(s, g));
    var after := g => Square(Count(r, g));
    SquaresDrop(Count(s, mg), Count(s, lg));
    assert Count(r, mg) == Count(s, mg) - 1 && Count(r, lg) == Count(s, lg) + 1;
    forall g | g in gs && g != mg && g != lg
      ensures after(g) == before(g)
    {
      assert Count(r, g) == Count(s, g);
    }
    SumTwoDrop(gs, after, before, mg, lg);
  }

  lemma SquaresDrop(most: int, least: int)
    requires most >= least + 2
    ensures Square(most - 1) + Square(least + 1) < Square(most) + Square(least)
  {
  }

  /** The second loop of Rebalance. */
  ghost function Level(s: seq<int>, gs: set<int>): (r: seq<int>)
    requires gs != {}
    ensures |r| == |s| && Levelled(r, gs)
    decreases Energy(s, gs)
  {
    if Levelled(s, gs) then s
    else
      EnergyNonNegative(s, gs);
      MoveLowersEnergy(s, gs);
      Level(MoveOne(s, gs), gs)
  }

  /** What Rebalance leaves in the shard table. */
  ghost function Rebalanced(s: seq<int>, gs: set<int>): (r: seq<int>)
    ensures |r| == |s|
  {
    if gs == {} then seq(|s|, _ => 0) else Level(Assign(s, gs, 0), gs)
  }

  // ---- Balance ---------------------------------------------------------------

  /** Every shard belongs to a group and no group has two shards more than another. */
  ghost predicate Balanced(s: seq<int>, gs: set<int>) {
    && (forall i :: 0 <= i < |s| ==> s[i] in gs)
    && (forall g, h :: g in gs && h in gs ==> Count(s, g) <= Count(s, h) + 1)
  }

  /** Group g has more shards in s than in the starting table s0. */
  ghost predicate Gained(s0: seq<int>, s: seq<int>, g: int) { Count(s, g) > Count(s0, g) }

  /** Group g has fewer shards in s than in the starting table s0. */
  ghost predicate Lost(s0: seq<int>, s: seq<int>, g: int) { Count(s, g) < Count(s0, g) }

  /**
    What holds between the starting table and every later one: a group only gains shards or
    only loses them, a group that gained is within one of every group below it, a group that
    lost is within one of every group above it, and no loser is below a gainer.
  */
  ghost predicate Fair(s0: seq<int>, s: seq<int>, gs: set<int>) {
    |s| == |s0| && OneWay(s0, s, gs) && FairCounts(s0, s, gs)
  }

  ghost predicate OneWay(s0: seq<int>, s: seq<int>, gs: set<int>) {
    forall g :: g in gs ==> Owned(s0, g) <= Owned(s, g) || Owned(s, g) <= Owned(s0, g)
  }

  /** A group that gained is within one of every group below it. */
  ghost predicate GainersLow(s0: seq<int>, s: seq<int>, gs: set<int>) {
    forall h, k :: h in gs && k in gs && Gained(s0, s, h) ==> Count(s, h) <= Count(s, k) + 1
  }

  /** A group that lost is within one of every group above it. */
  ghost predicate LosersHigh(s0: seq<int>, s: seq<int>, gs: set<int>) {
    forall g, k :: g in gs && k in gs && Lost(s0, s, g) ==> Count(s, k) <= Count(s, g) + 1
  }

  /** No loser is below a gainer. */
  ghost predicate LosersAboveGainers(s0: seq<int>, s: seq<int>, gs: set<int>) {
    forall g, h :: g in gs && h in gs && Lost(s0, s, g) && Gained(s0, s, h) ==> Count(s, h) <= Count(s, g)
  }

  ghost predicate FairCounts(s0: seq<int>, s: seq<int>, gs: set<int>) {
    GainersLow(s0, s, gs) && LosersHigh(s0, s, gs) && LosersAboveGainers(s0, s, gs)
  }

  /** Tells from the sizes which of the two subset cases holds. */
  lemma FairSides(s0: seq<int>, s: seq<int>, gs: set<int>, g: int)
    requires Fair(s0, s, gs) && g in gs
    ensures Gained(s0, s, g) ==> Owned(s0, g) <= Owned(s, g)
    ensures Lost(s0, s, g) ==> Owned(s, g) <= Owned(s0, g)
    ensures !Gained(s0, s, g) && !Lost(s0, s, g) ==> Owned(s, g) == Owned(s0, g)
  {
    if Owned(s0, g) <= Owned(s, g) {
      SubsetSize(Owned(s0, g), Owned(s, g));
    } else {
      SubsetSize(Owned(s, g), Owned(s0, g));
    }
  }

  /** The state of the first loop when it reaches shard i. */
  ghost predicate Assigning(s0: seq<int>, s: seq<int>, gs: set<int>, i: nat) {
    && |s| == |s0| && i <= |s|
    && (forall k :: 0 <= k < i ==> s[k] in gs)
    && (forall k :: 0 <= k < |s| ==> s[k] == s0[k] || (k < i && s0[k] !in gs))
    && GainersLow(s0, s, gs)
  }

  lemma {:induction false} AssignFair(s0: seq<int>, s: seq<int>, gs: set<int>, i: nat)
    requires gs != {} && Assigning(s0, s, gs, i)
    ensures Assigning(s0, Assign(s, gs, i), gs, |s0|)
    decreases |s| - i
  {
    if i < |s| {
      if s[i] !in gs {
        CountUpdate(s, i, Least(s, gs));
        AssignFair(s0, s[i := Least(s, gs)], gs, i + 1);
      } else {
        AssignFair(s0, s, gs, i + 1);
      }
    }
  }

  lemma AssignedIsFair(s0: seq<int>, s: seq<int>, gs: set<int>)
    requires Assigning(s0, s, gs, |s0|)
    ensures Fair(s0, s, gs)
  {
    forall g | g in gs
      ensures Owned(s0, g) <= Owned(s, g) && !Lost(s0, s, g)
    {
      assert Owned(s0, g) <= Owned(s, g);
      SubsetSize(Owned(s0, g), Owned(s, g));
    }
  }

  lemma GainersStayLow(s0: seq<int>, s: seq<int>, r: seq<int>, gs: set<int>, mg: int, lg: int)
    requires GainersLow(s0, s, gs) && Moved(s, r, gs, mg, lg)
    ensures !Gained(s0, s, mg) && GainersLow(s0, r, gs)
  {
  }

  lemma LosersStayHigh(s0: seq<int>, s: seq<int>, r: seq<int>, gs: set<int>, mg: int, lg: int)
    requires LosersHigh(s0, s, gs) && Moved(s, r, gs, mg, lg)
    ensures !Lost(s0, s, lg) && LosersHigh(s0, r, gs)
  {
  }

  lemma LosersStayAbove(s0: seq<int>, s: seq<int>, r: seq<int>, gs: set<int>, mg: int, lg: int)
    requires FairCounts(s0, s, gs) && Moved(s, r, gs, mg, lg)
    ensures LosersAboveGainers(s0, r, gs)
  {
  }

  /** A move takes from a group that has not gained and gives to one that has not lost. */
  lemma MoveKeepsCounts(s0: seq<int>, s: seq<int>, gs: set<int>)
    requires gs != {} && FairCounts(s0, s, gs) && !Levelled(s, gs)
    ensures !Gained(s0, s, Most(s, gs)) && !Lost(s0, s, Least(s, gs))
    ensures FairCounts(s0, MoveOne(s, gs), gs)
  {
    var mg, lg, r := Most(s, gs), Least(s, gs), MoveOne(s, gs);
    MoveOneMoves(s, gs);
    GainersStayLow(s0, s, r, gs, mg, lg);
    LosersStayHigh(s0, s, r, gs, mg, lg);
    LosersStayAbove(s0, s, r, gs, mg, lg);
  }

  /** One move keeps fairness, and the shard it moves is still where it started: no shard moves twice. */
  lemma MoveKeepsFair(s0: seq<int>, s: seq<int>, gs: set<int>)
    requires gs != {} && Fair(s0, s, gs) && !Levelled(s, gs)
    ensures Fair(s0, MoveOne(s, gs), gs)
    ensures var i := FirstOwned(s, Most(s, gs), 0); i < |s| && s[i] == s0[i]
  {
    var mg, lg, r := Most(s, gs), Least(s, gs), MoveOne(s, gs);
    MoveFinds(s, gs);
    MoveKeepsCounts(s0, s, gs);
    var i := FirstOwned(s, mg, 0);
    CountUpdate(s, i, lg);
    FairSides(s0, s, gs, mg);
    FairSides(s0, s, gs, lg);
    assert i in Owned(s, mg) && i in Owned(s0, mg);
    assert Owned(r, mg) <= Owned(s0, mg) && Owned(s0, lg) <= Owned(r, lg);
  }

  lemma {:induction false} LevelKeepsFair(s0: seq<int>, s: seq<int>, gs: set<int>)
    requires gs != {} && Fair(s0, s, gs) && (forall i :: 0 <= i < |s| ==> s[i] in gs)
    ensures Fair(s0, Level(s, gs), gs) && Balanced(Level(s, gs), gs)
    decreases Energy(s, gs)
  {
    if !Levelled(s, gs) {
      EnergyNonNegative(s, gs);
      MoveLowersEnergy(s, gs);
      MoveKeepsFair(s0, s, gs);
      LevelKeepsFair(s0, MoveOne(s, gs), gs);
    }
  }

  /** Rebalance balances, and is fair to the table it started from. */
  lemma RebalanceBalances(s0: seq<int>, gs: set<int>)
    requires gs != {}
    ensures Balanced(Rebalanced(s0, gs), gs) && Fair(s0, Rebalanced(s0, gs), gs)
  {
    AssignFair(s0, s0, gs, 0);
    var s := Assign(s0, gs, 0);
    AssignedIsFair(s0, s, gs);
    LevelKeepsFair(s0, s, gs);
  }

  // ---- Which shard goes where ---------------------------------------------------

  /** Each unassigned shard, in index order, goes to the smallest least loaded id of the table at that point. */
  lemma {:induction false} AssignInOrder(s: seq<int>, gs: set<int>, i: nat, k: nat)
    requires gs != {} && i <= k < |s|
    ensures var a := Assign(s, gs, i);
      && a[..i] == s[..i]
      && (if s[k] in gs then a[k] == s[k] else IsLeast(a[..k] + s[k..], gs, a[k]))
    decreases |s| - i
  {
    var t := if s[i] in gs then s else s[i := Least(s, gs)];
    var a := Assign(s, gs, i);
    AssignKeepsBelow(t, gs, i + 1);
    assert a[..i] == a[..i + 1][..i] == t[..i + 1][..i] == s[..i];
    if k > i {
      AssignInOrder(t, gs, i + 1, k);
      assert t[k..] == s[k..];
    } else {
      assert a[i] == a[..i + 1][i] == t[i];
      assert a[..k] + s[k..] == s;
    }
  }

  lemma {:induction false} AssignKeepsBelow(s: seq<int>, gs: set<int>, i: nat)
    requires gs != {} && i <= |s|
    ensures Assign(s, gs, i)[..i] == s[..i]
    decreases |s| - i
  {
    if i < |s| {
      var t := if s[i] in gs then s else s[i := Least(s, gs)];
      AssignKeepsBelow(t, gs, i + 1);
      assert Assign(s, gs, i)[..i] == t[..i + 1][..i] == s[..i];
    }
  }

  /** A group that gives up shards gives up its lowest-numbered ones. */
  ghost predicate GivesLowest(s0: seq<int>, s: seq<int>, gs: set<int>) {
    |s| == |s0| && forall i, j :: 0 <= i < j < |s0| && s0[i] == s0[j] && s0[i] in gs && s[j] != s0[j] ==> s[i] != s0[i]
  }

  lemma MoveGivesLowest(s0: seq<int>, s: seq<int>, gs: set<int>)
    requires gs != {} && Fair(s0, s, gs) && !Levelled(s, gs) && GivesLowest(s0, s, gs)
    ensures GivesLowest(s0, MoveOne(s, gs), gs)
  {
    var mg, r := Most(s, gs), MoveOne(s, gs);
    MoveFinds(s, gs);
    MoveKeepsFair(s0, s, gs);
    var f := FirstOwned(s, mg, 0);
    forall i, j | 0 <= i < j < |s0| && s0[i] == s0[j] && s0[i] in gs && r[j] != s0[j]
      ensures r[i] != s0[i]
    {
      assert j == f ==> s[i] != mg;
      assert i != f && j != f ==> r[i] == s[i] && r[j] == s[j];
    }
  }

  lemma {:induction false} LevelGivesLowest(s0: seq<int>, s: seq<int>, gs: set<int>)
    requires gs != {} && Fair(s0, s, gs) && GivesLowest(s0, s, gs)
    ensures GivesLowest(s0, Level(s, gs), gs)
    decreases Energy(s, gs)
  {
    if !Levelled(s, gs) {
      EnergyNonNegative(s, gs);
      MoveLowersEnergy(s, gs);
      MoveKeepsFair(s0, s, gs);
      MoveGivesLowest(s0, s, gs);
      LevelGivesLowest(s0, MoveOne(s, gs), gs);
    }
  }

  /** Rebalance takes the lowest-numbered shards of every group that gives up some. */
  lemma LowestMoveFirst(s0: seq<int>, gs: set<int>)
    requires gs != {}
    ensures GivesLowest(s0, Rebalanced(s0, gs), gs)
  {
    AssignFair(s0, s0, gs, 0);
    var s := Assign(s0, gs, 0);
    AssignedIsFair(s0, s, gs);
    LevelGivesLowest(s0, s, gs);
  }

  /** The first unassigned shard goes to the smallest least loaded group. */
  ghost predicate AssignsFirst(s: seq<int>, t: seq<int>, gs: set<int>) {
    exists i, lg :: 0 <= i < |s| && s[i] !in gs && (forall k :: 0 <= k < i ==> s[k] in gs)
      && IsLeast(s, gs, lg) && t == s[i := lg]
  }

  /** The first shard of the smallest most loaded group goes to the smallest least loaded one, two or more behind. */
  ghost predicate MovesFirst(s: seq<int>, t: seq<int>, gs: set<int>) {
    exists i, lg :: 0 <= i < |s| && IsMost(s, gs, s[i]) && (forall k :: 0 <= k < i ==> s[k] != s[i])
      && IsLeast(s, gs, lg) && Count(s, s[i]) >= Count(s, lg) + 2 && t == s[i := lg]
  }

  ghost predicate AllAssigned(s: seq<int>, gs: set<int>) {
    forall i :: 0 <= i < |s| ==> s[i] in gs
  }

  ghost predicate GreedyStep(s: seq<int>, t: seq<int>, gs: set<int>) {
    if AllAssigned(s, gs) then MovesFirst(s, t, gs) else AssignsFirst(s, t, gs)
  }

  /** Tables each of which a greedy step makes into the next. */
  ghost predicate GreedyRun(ts: seq<seq<int>>, gs: set<int>) {
    ts != [] && forall n :: 0 <= n < |ts| - 1 ==> GreedyStep(ts[n], ts[n + 1], gs)
  }

  lemma {:induction false} AssignSkips(s: seq<int>, gs: set<int>, i: nat, j: nat)
    requires gs != {} && i <= j <= |s| && forall k :: i <= k < j ==> s[k] in gs
    ensures Assign(s, gs, i) == Assign(s, gs, j)
    decreases j - i
  {
    if i < j {
      AssignSkips(s, gs, i + 1, j);
    }
  }

  lemma AllAssignedIsSkipped(s: seq<int>, gs: set<int>)
    requires gs != {} && AllAssigned(s, gs)
    ensures Rebalanced(s, gs) == Level(s, gs)
  {
    AssignSkips(s, gs, 0, |s|);
  }

  lemma MovesFirstIsMoveOne(s: seq<int>, t: seq<int>, gs: set<int>)
    requires gs != {} && MovesFirst(s, t, gs)
    ensures !Levelled(s, gs) && t == MoveOne(s, gs)
  {
    var i, lg :| 0 <= i < |s| && IsMost(s, gs, s[i]) && (forall k :: 0 <= k < i ==> s[k] != s[i])
      && IsLeast(s, gs, lg) && Count(s, s[i]) >= Count(s, lg) + 2 && t == s[i := lg];
    ExtremesAreUnique(s, gs, s[i], lg);
    assert FirstOwned(s, s[i], 0) == i;
  }

  lemma MovesFirstKeepsEnd(s: seq<int>, t: seq<int>, gs: set<int>)
    requires gs != {} && AllAssigned(s, gs) && MovesFirst(s, t, gs)
    ensures Rebalanced(s, gs) == Rebalanced(t, gs)
  {
    MovesFirstIsMoveOne(s, t, gs);
    AllAssignedIsSkipped(s, gs);
    AllAssignedIsSkipped(t, gs);
  }

  lemma AssignsFirstKeepsEnd(s: seq<int>, t: seq<int>, gs: set<int>)
    requires gs != {} && AssignsFirst(s, t, gs)
    ensures Rebalanced(s, gs) == Rebalanced(t, gs)
  {
    var i, lg :| 0 <= i < |s| && s[i] !in gs && (forall k :: 0 <= k < i ==> s[k] in gs)
      && IsLeast(s, gs, lg) && t == s[i := lg];
    ExtremesAreUnique(s, gs, Most(s, gs), lg);
    AssignSkips(s, gs, 0, i);
    AssignSkips(t, gs, 0, i + 1);
  }

  /** A greedy step does not change where Rebalance ends. */
  lemma GreedyStepKeepsEnd(s: seq<int>, t: seq<int>, gs: set<int>)
    requires gs != {} && GreedyStep(s, t, gs)
    ensures Rebalanced(s, gs) == Rebalanced(t, gs)
  {
    if AllAssigned(s, gs) {
      MovesFirstKeepsEnd(s, t, gs);
    } else {
      AssignsFirstKeepsEnd(s, t, gs);
    }
  }

  lemma {:induction false} GreedyRunKeepsEnd(ts: seq<seq<int>>, gs: set<int>, n: nat)
    requires gs != {} && GreedyRun(ts, gs) && n < |ts|
    ensures Rebalanced(ts[0], gs) == Rebalanced(ts[n], gs)
  {
    if n > 0 {
      GreedyRunKeepsEnd(ts, gs, n - 1);
      assert GreedyStep(ts[n - 1], ts[n - 1 + 1], gs);
      GreedyStepKeepsEnd(ts[n - 1], ts[n], gs);
    }
  }

  lemma BalancedIsKept(s: seq<int>, gs: set<int>)
    requires gs != {} && Balanced(s, gs)
    ensures Rebalanced(s, gs) == s
  {
    AllAssignedIsSkipped(s, gs);
  }

  lemma GreedyCons(s: seq<int>, ts: seq<seq<int>>, gs: set<int>)
    requires GreedyRun(ts, gs) && GreedyStep(s, ts[0], gs)
    ensures GreedyRun([s] + ts, gs)
  {
  }

  lemma MoveOneIsGreedy(s: seq<int>, gs: set<int>)
    requires gs != {} && AllAssigned(s, gs) && !Levelled(s, gs)
    ensures GreedyStep(s, MoveOne(s, gs), gs)
  {
    MoveFinds(s, gs);
    var i := FirstOwned(s, Most(s, gs), 0);
    assert IsMost(s, gs, s[i]) && IsLeast(s, gs, Least(s, gs));
  }

  lemma {:induction false} LevelIsGreedy(s: seq<int>, gs: set<int>) returns (ts: seq<seq<int>>)
    requires gs != {} && AllAssigned(s, gs)
    ensures GreedyRun(ts, gs) && ts[0] == s && ts[|ts| - 1] == Level(s, gs)
    decreases Energy(s, gs)
  {
    if Levelled(s, gs) {
      ts := [s];
    } else {
      EnergyNonNegative(s, gs);
      MoveLowersEnergy(s, gs);
      MoveOneIsGreedy(s, gs);
      var rest := LevelIsGreedy(MoveOne(s, gs), gs);
      GreedyCons(s, rest, gs);
      ts := [s] + rest;
    }
  }

  lemma {:induction false} AssignIsGreedy(s: seq<int>, gs: set<int>, i: nat) returns (ts: seq<seq<int>>)
    requires gs != {} && i <= |s| && forall k :: 0 <= k < i ==> s[k] in gs
    ensures GreedyRun(ts, gs) && ts[0] == s && ts[|ts| - 1] == Level(Assign(s, gs, i), gs)
    decreases |s| - i
  {
    if i == |s| {
      ts := LevelIsGreedy(s, gs);
    } else if s[i] in gs {
      ts := AssignIsGreedy(s, gs, i + 1);
    } else {
      var t := s[i := Least(s, gs)];
      var rest := AssignIsGreedy(t, gs, i + 1);
      assert AssignsFirst(s, t, gs);
      GreedyCons(s, rest, gs);
      ts := [s] + rest;
    }
  }

  /** Rebalance takes greedy steps until the table is balanced, and every way of doing so ends in the same table. */
  lemma RebalanceIsGreedy(s0: seq<int>, r: seq<int>, gs: set<int>)
    requires gs != {}
    ensures r == Rebalanced(s0, gs) <==>
      exists ts :: GreedyRun(ts, gs) && ts[0] == s0 && ts[|ts| - 1] == r && Balanced(r, gs)
  {
    if r == Rebalanced(s0, gs) {
      RebalanceBalances(s0, gs);
      var ts := AssignIsGreedy(s0, gs, 0);
      assert GreedyRun(ts, gs) && ts[0] == s0 && ts[|ts| - 1] == r && Balanced(r, gs);
    }
    if ts :| GreedyRun(ts, gs) && ts[0] == s0 && ts[|ts| - 1] == r && Balanced(r, gs) {
      GreedyRunKeepsEnd(ts, gs, |ts| - 1);
      BalancedIsKept(r, gs);
    }
  }

  // ---- Least movement --------------------------------------------------------

  /** The shards on which two tables agree. */
  function Kept(s: seq<int>, t: seq<int>): set<int>
    requires |s| == |t|
  {
    set i | 0 <= i < |s| && s[i] == t[i]
  }

  /** The number of shards that moving from s to t moves. */
  function Moves(s: seq<int>, t: seq<int>): int
    requires |s| == |t|
  {
    |s| - |Kept(s, t)|
  }

  /** The shards of groups gs on which two tables agree. */
  function KeptIn(s: seq<int>, t: seq<int>, gs: set<int>): set<int>
    requires |s| == |t|
  {
    set i | i in Kept(s, t) && t[i] in gs
  }

  function Both(s: seq<int>, t: seq<int>, g: int): nat {
    |Owned(s, g) * Owned(t, g)|
  }

  lemma KeptSplit(s: seq<int>, t: seq<int>, gs: set<int>, x: int)
    requires |s| == |t| && x in gs
    ensures |KeptIn(s, t, gs)| == Both(s, t, x) + |KeptIn(s, t, gs - {x})|
  {
    assert KeptIn(s, t, gs) == (Owned(s, x) * Owned(t, x)) + KeptIn(s, t, gs - {x});
  }

  /** The agreement of two tables, group by group. */
  lemma {:induction false} KeptByGroup(s: seq<int>, t: seq<int>, gs: set<int>)
    requires |s| == |t|
    ensures |KeptIn(s, t, gs)| == Sum(gs, g => Both(s, t, g))
    decreases gs
  {
    if gs == {} {
      assert KeptIn(s, t, gs) == {};
    } else {
      var x := Pick(gs);
      SumRemove(gs, g => Both(s, t, g), x);
      KeptByGroup(s, t, gs - {x});
      KeptSplit(s, t, gs, x);
    }
  }

  /** A table that uses only the groups gs has as many shards as those groups own. */
  lemma CountsAddUp(s: seq<int>, gs: set<int>)
    requires forall i :: 0 <= i < |s| ==> s[i] in gs
    ensures Sum(gs, g => Count(s, g)) == |s|
  {
    KeptByGroup(s, s, gs);
    assert KeptIn(s, s, gs) == Below(|s|);
    var both := g => Both(s, s, g);
    var own := g => Count(s, g);
    forall g | g in gs
      ensures both(g) == own(g)
    {
      assert Owned(s, g) * Owned(s, g) == Owned(s, g);
    }
    SumMonotone(gs, both, own);
    SumMonotone(gs, own, both);
  }

  /** Two balanced tables over the same groups use the same two neighbouring sizes. */
  lemma SameLevels(r: seq<int>, t: seq<int>, gs: set<int>, g: int, h: int)
    requires |r| == |t| && Balanced(r, gs) && Balanced(t, gs) && g in gs && h in gs
    ensures Count(t, g) <= Count(r, h) + 1
  {
    CountsAddUp(r, gs);
    CountsAddUp(t, gs);
    if Count(t, g) > Count(r, h) + 1 {
      SumMonotone(gs, g => Count(r, g), g => Count(t, g));
    }
  }

  ghost function Min(a: int, b: int): int { if a <= b then a else b }

  /** A group keeps no more than it has before or after, and a fair group keeps all it can. */
  lemma BothBound(s0: seq<int>, t: seq<int>, gs: set<int>, g: int)
    requires g in gs
    ensures Both(s0, t, g) <= Min(Count(s0, g), Count(t, g))
    ensures Fair(s0, t, gs) ==> Both(s0, t, g) == Min(Count(s0, g), Count(t, g))
  {
    SubsetSize(Owned(s0, g) * Owned(t, g), Owned(s0, g));
    SubsetSize(Owned(s0, g) * Owned(t, g), Owned(t, g));
    if Fair(s0, t, gs) {
      if Owned(s0, g) <= Owned(t, g) {
        assert Owned(s0, g) * Owned(t, g) == Owned(s0, g);
      } else {
        assert Owned(s0, g) * Owned(t, g) == Owned(t, g);
      }
    }
  }

  /** How much of the start each group can keep at most, and that a fair table keeps exactly that. */
  lemma KeptBound(s0: seq<int>, t: seq<int>, gs: set<int>)
    requires |s0| == |t| && Balanced(t, gs)
    ensures |Kept(s0, t)| <= Sum(gs, g => Min(Count(s0, g), Count(t, g)))
    ensures Fair(s0, t, gs) ==> |Kept(s0, t)| == Sum(gs, g => Min(Count(s0, g), Count(t, g)))
  {
    KeptByGroup(s0, t, gs);
    assert KeptIn(s0, t, gs) == Kept(s0, t);
    var both := g => Both(s0, t, g);
    var least := g => Min(Count(s0, g), Count(t, g));
    forall g | g in gs
      ensures both(g) <= least(g)
      ensures Fair(s0, t, gs) ==> both(g) == least(g)
    {
      BothBound(s0, t, gs, g);
    }
    SumMonotone(gs, both, least);
    if Fair(s0, t, gs) {
      SumMonotone(gs, least, both);
    }
  }

  /** No balanced table keeps more of the start than a fair balanced one. */
  lemma FairKeepsMost(s0: seq<int>, r: seq<int>, t: seq<int>, gs: set<int>)
    requires |t| == |s0| && Balanced(t, gs) && Balanced(r, gs) && Fair(s0, r, gs)
    ensures |Kept(s0, t)| <= |Kept(s0, r)|
  {
    var mine := g => Min(Count(s0, g), Count(r, g));
    var other := g => Min(Count(s0, g), Count(t, g));
    KeptBound(s0, r, gs);
    KeptBound(s0, t, gs);
    if h, k :| h in gs && k in gs && Gained(s0, r, h) && Count(r, h) == Count(r, k) + 1 {
      // A gainer sits on the upper level, so every loser does too.
      forall g | g in gs
        ensures other(g) <= mine(g)
      {
        SameLevels(r, t, gs, g, k);
      }
      SumMonotone(gs, other, mine);
    } else {
      // Every gainer sits on the lower level, which no balanced table goes below.
      forall g | g in gs
        ensures other(g) - mine(g) <= Count(t, g) - Count(r, g)
      {
        if Gained(s0, r, g) {
          NotBelowLowest(r, t, gs, g);
        }
      }
      SumDifference(gs, other, mine, g => Count(t, g), g => Count(r, g));
      CountsAddUp(r, gs);
      CountsAddUp(t, gs);
    }
  }

  lemma NotBelowLowest(r: seq<int>, t: seq<int>, gs: set<int>, g: int)
    requires |r| == |t| && Balanced(r, gs) && Balanced(t, gs) && g in gs
    requires forall k :: k in gs ==> Count(r, g) <= Count(r, k)
    ensures Count(t, g) >= Count(r, g)
  {
    CountsAddUp(r, gs);
    CountsAddUp(t, gs);
    if Count(t, g) < Count(r, g) {
      SumMonotone(gs, g => Count(t, g), g => Count(r, g));
    }
  }

  /** Least movement: no balanced table is reached from the start by moving fewer shards. */
  lemma MinimalMovement(s0: seq<int>, t: seq<int>, gs: set<int>)
    requires gs != {} && |t| == |s0| && Balanced(t, gs)
    ensures Moves(s0, Rebalanced(s0, gs)) <= Moves(s0, t)
  {
    RebalanceBalances(s0, gs);
    FairKeepsMost(s0, Rebalanced(s0, gs), t, gs);
  }

  // ---- Stability ----------------------------------------------------------------

  /** A shard is taken from a present group only for one that started at least two shards behind it. */
  lemma MoveIsJustified(s0: seq<int>, gs: set<int>, i: nat)
    requires gs != {} && i < |s0| && s0[i] in gs && Rebalanced(s0, gs)[i] != s0[i]
    ensures Rebalanced(s0, gs)[i] in gs
    ensures Count(s0, s0[i]) >= Count(s0, Rebalanced(s0, gs)[i]) + 2
  {
    RebalanceBalances(s0, gs);
    var r := Rebalanced(s0, gs);
    var g, h := s0[i], r[i];
    assert i in Owned(s0, g) && i !in Owned(r, g) && i in Owned(r, h) && i !in Owned(s0, h);
    FairSides(s0, r, gs, g);
    FairSides(s0, r, gs, h);
    SubsetSize(Owned(r, g), Owned(s0, g));
    SubsetSize(Owned(s0, h), Owned(r, h));
  }

  /** After groups join a balanced table, shards move only onto the joiners. */
  lemma JoinStability(s0: seq<int>, gs: set<int>, joiners: set<int>, i: nat)
    requires Balanced(s0, gs) && joiners != {} && joiners !! gs && i < |s0|
    ensures var r := Rebalanced(s0, gs + joiners); r[i] == s0[i] || r[i] in joiners
  {
    RebalanceBalances(s0, gs + joiners);
    if Rebalanced(s0, gs + joiners)[i] != s0[i] {
      MoveIsJustified(s0, gs + joiners, i);
    }
  }

  /** After groups leave a balanced table, only the leavers' shards move. */
  lemma LeaveStability(s0: seq<int>, gs: set<int>, leavers: set<int>, i: nat)
    requires Balanced(s0, gs) && gs - leavers != {} && i < |s0|
    ensures Rebalanced(s0, gs - leavers)[i] != s0[i] <==> s0[i] in leavers
  {
    RebalanceBalances(s0, gs - leavers);
    if s0[i] !in leavers && Rebalanced(s0, gs - leavers)[i] != s0[i] {
      MoveIsJustified(s0, gs - leavers, i);
    }
  }

  // ---- Membership -----------------------------------------------------------------

  /** In a balanced table every group owns a shard if and only if there are no more groups than shards. */
  lemma AllGroupsServe(s: seq<int>, gs: set<int>)
    requires Balanced(s, gs)
    ensures (forall g :: g in gs ==> g in s) <==> |gs| <= |s|
  {
    CountsAddUp(s, gs);
    SumOnes(gs);
    if |gs| <= |s| {
      forall g | g in gs
        ensures g in s
      {
        if Count(s, g) == 0 {
          SumMonotone(gs, g => Count(s, g), _ => 1);
        }
        var i := Pick(Owned(s, g));
        assert s[i] == g;
      }
    } else {
      if forall g :: g in gs ==> g in s {
        forall g | g in gs
          ensures 1 <= Count(s, g)
        {
          var i :| 0 <= i < |s| && s[i] == g;
          assert i in Owned(s, g);
        }
        SumMonotone(gs, _ => 1, g => Count(s, g));
        assert false;
      }
    }
  }
}

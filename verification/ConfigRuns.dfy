/** What every sequence of join and leave calls keeps, starting from an empty configuration. */
module ConfigRuns {
  import opened Counting
  import opened ShardSpec
  import opened ShardConfig

  datatype Call = JoinCall(servers: map<int, seq<string>>) | LeaveCall(gids: seq<int>)

  ghost predicate CallSpec(before: View, call: Call, out: Outcome, after: View) {
    match call
    case JoinCall(servers) => JoinBalanceSpec(before, servers, out, after)
    case LeaveCall(gids) => LeaveBalanceSpec(before, gids, out, after)
  }

  /** A sequence of calls, successful or not, on a configuration that starts empty. */
  ghost predicate IsRun(views: seq<View>, calls: seq<Call>, outs: seq<Outcome>) {
    && |views| == |calls| + 1 && |outs| == |calls|
    && Initial(views[0])
    && forall i :: 0 <= i < |calls| ==> CallSpec(views[i], calls[i], outs[i], views[i + 1])
  }

  function Successes(outs: seq<Outcome>): nat {
    if outs == [] then 0 else Successes(outs[..|outs| - 1]) + if outs[|outs| - 1].Done? then 1 else 0
  }

  /** What a successful call leaves behind. */
  ghost predicate Settled(v: View) {
    if v.groups == map[] then Unassigned(v.shards) else Balanced(v.shards, v.groups.Keys)
  }

  /** Adding groups that fit to separate groups leaves them separate. */
  lemma JoinedStaySeparate(before: map<int, seq<string>>, servers: map<int, seq<string>>, joined: set<int>,
                           after: map<int, seq<string>>)
    requires Separate(before) && Joined(before, servers, joined, after)
    ensures Separate(after)
  {
  }

  /** One call keeps the groups separate, counts itself when it succeeds and then leaves a settled table. */
  lemma CallKeeps(before: View, call: Call, out: Outcome, after: View)
    requires CallSpec(before, call, out, after)
    requires |before.shards| == NSHARDS && Separate(before.groups)
    ensures |after.shards| == NSHARDS && Separate(after.groups)
    ensures after.num == before.num + if out.Done? then 1 else 0
    ensures out.Done? ==> Settled(after)
    ensures !out.Done? ==> after.shards == before.shards
  {
    var mid: View;
    match call {
      case JoinCall(servers) =>
        mid :| JoinSpec(before, servers, out, mid) && after == Settle(mid, out);
        var joined: set<int> :| Joined(before.groups, servers, joined, mid.groups);
        JoinedStaySeparate(before.groups, servers, joined, mid.groups);
      case LeaveCall(gids) =>
        mid :| LeaveSpec(before, gids, out, mid) && after == Settle(mid, out);
    }
    if out.Done? && mid.groups.Keys != {} {
      RebalanceBalances(mid.shards, mid.groups.Keys);
    }
  }

  /** In every run: groups never share a server, Num counts the successes, and a success settles the table. */
  lemma {:induction false} RunsAreSound(views: seq<View>, calls: seq<Call>, outs: seq<Outcome>, n: nat)
    requires IsRun(views, calls, outs) && n <= |calls|
    ensures |views[n].shards| == NSHARDS && Separate(views[n].groups)
    ensures views[n].num == Successes(outs[..n])
    ensures n > 0 && outs[n - 1].Done? ==> Settled(views[n])
  {
    if n > 0 {
      RunsAreSound(views, calls, outs, n - 1);
      CallKeeps(views[n - 1], calls[n - 1], outs[n - 1], views[n - 1 + 1]);
      assert outs[..n][..n - 1] == outs[..n - 1];
    }
  }

  /** CheckConfig accepts a configuration against its own groups if and only if its table is balanced or it has none. */
  lemma AcceptedMeansBalanced(v: View, gids: seq<int>)
    requires |gids| == |v.groups| && forall g :: g in gids ==> g in v.groups
    ensures Accepts(v, gids) <==> v.groups == map[] || Balanced(v.shards, v.groups.Keys)
  {
  }

  /** After a success CheckConfig accepts the configuration against any listing of its own groups. */
  lemma SettledIsAccepted(v: View, gids: seq<int>)
    requires Settled(v) && |gids| == |v.groups| && forall g :: g in gids ==> g in v.groups
    ensures Accepts(v, gids)
  {
  }

  /** After a success IsMember agrees with the group map exactly when there are 1 to NSHARDS groups. */
  lemma MembershipAgrees(v: View)
    requires Settled(v) && |v.shards| == NSHARDS
    ensures (forall g :: g in v.shards <==> g in v.groups) <==> 1 <= |v.groups| <= NSHARDS
  {
    if v.groups == map[] {
      var g := v.shards[0];
      assert g in v.shards && g !in v.groups;
    } else {
      assert v.groups.Keys != {};
      AllGroupsServe(v.shards, v.groups.Keys);
      forall g | g in v.shards
        ensures g in v.groups
      {
        var i :| 0 <= i < |v.shards| && v.shards[i] == g;
      }
    }
  }

  /** A successful JoinBalance on a settled table moves shards only onto the joining groups. */
  lemma JoinMovesOntoJoiners(before: View, servers: map<int, seq<string>>, after: View, i: nat)
    requires JoinBalanceSpec(before, servers, Done, after) && Balanced(before.shards, before.groups.Keys)
    requires i < |before.shards|
    ensures |after.shards| == |before.shards|
    ensures after.shards[i] == before.shards[i] || after.shards[i] in servers
  {
    assert servers.Keys != {};
    assert after.groups.Keys == before.groups.Keys + servers.Keys;
    JoinStability(before.shards, before.groups.Keys, servers.Keys, i);
  }

  /** A successful LeaveBalance on a settled table that keeps a group moves exactly the leavers' shards. */
  lemma LeaveMovesLeaversOnly(before: View, gids: seq<int>, after: View, i: nat)
    requires LeaveBalanceSpec(before, gids, Done, after) && Balanced(before.shards, before.groups.Keys)
    requires after.groups != map[] && i < |before.shards|
    ensures |after.shards| == |before.shards|
    ensures after.shards[i] != before.shards[i] <==> before.shards[i] in gids
  {
    var leavers := Members(gids);
    assert after.groups.Keys == before.groups.Keys - leavers;
    assert after.groups.Keys != {};
    LeaveStability(before.shards, before.groups.Keys, leavers, i);
  }

  /** No successful call moves more shards than it must to balance the groups it leaves. */
  lemma CallsMoveLeast(before: View, call: Call, after: View, t: seq<int>)
    requires CallSpec(before, call, Done, after) && after.groups != map[]
    requires |t| == |before.shards| && Balanced(t, after.groups.Keys)
    ensures |after.shards| == |before.shards|
    ensures Moves(before.shards, after.shards) <= Moves(before.shards, t)
  {
    assert after.groups.Keys != {};
    MinimalMovement(before.shards, t, after.groups.Keys);
  }
}

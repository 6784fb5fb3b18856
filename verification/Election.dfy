/** Election safety, and what src/raft1/test.go can observe of it. */
module Election {
  import opened Counting
  import opened Raft
  import opened Cluster

  /** A winner of a term holds grants of that term from a majority of distinct peers, itself included. */
  lemma WinnerHasMajority(c: State, p: int, t: int)
    requires Inv(c) && 0 <= p < |c.peers| && Won(c.peers[p], |c.peers|, t)
    ensures {p} + Backers(c, p, t) <= Below(|c.peers|)
    ensures 2 * |{p} + Backers(c, p, t)| > |c.peers|
  {
    forall k | 0 <= k < |c.votes| && Tallied(c.votes[k], p, t)
      ensures c.votes[k].to != p && 0 <= c.votes[k].to < |c.peers|
    {
      assert VoteCallOk(c, c.votes[k]);
    }
    assert p !in Backers(c, p, t);
  }

  /** x voted for p in term t: it is p itself, or it granted p's request. */
  ghost predicate VotedFor(c: State, x: int, p: int, t: int) {
    x == p || exists k ::
      && 0 <= k < |c.votes| && Granted(c.votes[k])
      && c.votes[k].from == p && c.votes[k].to == x && c.votes[k].args.term == t
  }

  /** A peer votes for at most one candidate of a term. */
  lemma OneVotePerTerm(c: State, x: int, p: int, q: int, t: int)
    requires Inv(c) && 0 <= p < |c.peers| && 0 <= q < |c.peers|
    requires t in c.peers[p].ballots && t in c.peers[q].ballots
    requires VotedFor(c, x, p, t) && VotedFor(c, x, q, t)
    ensures p == q
  {
  }

  lemma BackerVoted(c: State, x: int, p: int, t: int)
    requires x in {p} + Backers(c, p, t)
    ensures VotedFor(c, x, p, t)
  {
  }

  /** Two winners of one term are the same peer: their majorities share a voter. */
  lemma OneWinner(c: State, p: int, q: int, t: int)
    requires Inv(c) && 0 <= p < |c.peers| && 0 <= q < |c.peers|
    requires Won(c.peers[p], |c.peers|, t) && Won(c.peers[q], |c.peers|, t)
    ensures p == q
  {
    WinnerHasMajority(c, p, t);
    WinnerHasMajority(c, q, t);
    var x := MajoritiesMeet(|c.peers|, {p} + Backers(c, p, t), {q} + Backers(c, q, t));
    BackerVoted(c, x, p, t);
    BackerVoted(c, x, q, t);
    OneVotePerTerm(c, x, p, q, t);
  }

  // ---- The count is exact ------------------------------------------------------------

  /** In its current election every peer has counted itself and each grant that came back, once. */
  ghost predicate CountedNow(c: State) {
    forall p :: 0 <= p < |c.peers| && c.peers[p].currentTerm in c.peers[p].ballots ==> CountsAll(c, p)
  }

  ghost predicate CountsAll(c: State, p: int)
    requires 0 <= p < |c.peers| && c.peers[p].currentTerm in c.peers[p].ballots
  {
    c.peers[p].ballots[c.peers[p].currentTerm] == 1 + |Backers(c, p, c.peers[p].currentTerm)|
  }

  lemma NoBackersYet(c: State, p: int, t: int)
    requires Inv(c) && 0 <= p < |c.peers| && t !in c.peers[p].ballots
    ensures Backers(c, p, t) == {}
  {
    forall k | 0 <= k < |c.votes|
      ensures !Tallied(c.votes[k], p, t)
    {
      assert VoteCallOk(c, c.votes[k]);
    }
  }

  lemma TickCounts(c: State, p: int, now: int, timeout: int)
    requires Inv(c) && CountedNow(c) && Alive(c, p)
    ensures CountedNow(Next(c, Tick(p, now, timeout)))
  {
    var d := Next(c, Tick(p, now, timeout));
    if ElectionDue(c.peers[p], now, timeout) {
      BackersUnchanged(c, d);
      assert PeerOk(c.peers[p], p, |c.peers|);
      NoBackersYet(c, p, d.peers[p].currentTerm);
      forall q | 0 <= q < |d.peers| && d.peers[q].currentTerm in d.peers[q].ballots
        ensures CountsAll(d, q)
      {
        assert q != p ==> CountsAll(c, q);
      }
    }
  }

  /** Only one peer changes, by nothing but a later term, and no vote comes back. */
  lemma QuietCounts(c: State, d: State, p: int)
    requires Inv(c) && CountedNow(c) && 0 <= p < |c.peers| == |d.peers|
    requires forall q :: 0 <= q < |c.peers| && q != p ==> d.peers[q] == c.peers[q]
    requires d.peers[p].ballots == c.peers[p].ballots && d.peers[p].currentTerm >= c.peers[p].currentTerm
    requires forall q, t :: Backers(d, q, t) == Backers(c, q, t)
    ensures CountedNow(d)
  {
    assert PeerOk(c.peers[p], p, |c.peers|);
    forall q | 0 <= q < |d.peers| && d.peers[q].currentTerm in d.peers[q].ballots
      ensures CountsAll(d, q)
    {
      assert CountsAll(c, q);
    }
  }

  /** An answer to another election adds no backer to this one. */
  lemma OtherBackers(c: State, d: State, k: int, p: int, t: int)
    requires 0 <= k < |c.votes| && c.votes[k].phase.Executed?
    requires d.votes == c.votes[k := c.votes[k].(phase := Delivered(c.votes[k].phase.reply))]
    requires !(Granted(c.votes[k]) && c.votes[k].from == p && c.votes[k].args.term == t)
    ensures Backers(d, p, t) == Backers(c, p, t)
  {
    assert forall i :: 0 <= i < |c.votes| ==> Tallied(d.votes[i], p, t) == Tallied(c.votes[i], p, t);
    forall v
      ensures v in Backers(d, p, t) <==> v in Backers(c, p, t)
    {
      if v in Backers(d, p, t) {
        var i :| 0 <= i < |d.votes| && Tallied(d.votes[i], p, t) && d.votes[i].to == v;
        assert Tallied(c.votes[i], p, t) && c.votes[i].to == v;
      }
      if v in Backers(c, p, t) {
        var i :| 0 <= i < |c.votes| && Tallied(c.votes[i], p, t) && c.votes[i].to == v;
        assert Tallied(d.votes[i], p, t) && d.votes[i].to == v;
      }
    }
  }

  lemma ReplyCounts(c: State, k: int)
    requires Inv(c) && CountedNow(c) && Enabled(c, VoteReplied(k))
    ensures CountedNow(Next(c, VoteReplied(k)))
  {
    var d := Next(c, VoteReplied(k));
    var call := c.votes[k];
    assert VoteCallOk(c, call);
    CountDelivered(c, k);
    forall q | 0 <= q < |d.peers| && d.peers[q].currentTerm in d.peers[q].ballots
      ensures CountsAll(d, q)
    {
      ReplyCountsAt(c, k, q);
    }
  }

  lemma ReplyCountsAt(c: State, k: int, q: int)
    requires Inv(c) && CountedNow(c) && Enabled(c, VoteReplied(k)) && 0 <= q < |c.peers|
    ensures var d := Next(c, VoteReplied(k));
      && |d.peers| == |c.peers|
      && (d.peers[q].currentTerm in d.peers[q].ballots ==> CountsAll(d, q))
  {
    var d := Next(c, VoteReplied(k));
    var call, t := c.votes[k], c.peers[q].currentTerm;
    assert VoteCallOk(c, call) && PeerOk(c.peers[call.from], call.from, |c.peers|);
    VoteReplyKeepsPeer(c.peers[call.from], call.from, |c.peers|, call.args, call.phase.reply);
    assert d.peers[q].currentTerm == t && d.peers[q].ballots.Keys == c.peers[q].ballots.Keys;
    if t in c.peers[q].ballots {
      assert CountsAll(c, q);
      if Granted(call) && call.from == q && call.args.term == t {
        CountDelivered(c, k);
      } else {
        OtherBackers(c, d, k, q, t);
      }
    }
  }

  lemma DeliveryCounts(c: State, k: int, now: int)
    requires Inv(c) && CountedNow(c) && Enabled(c, DeliverVote(k, now))
    ensures CountedNow(Next(c, DeliverVote(k, now)))
  {
    var d := Next(c, DeliverVote(k, now));
    BackersUnchanged(c, d);
    QuietCounts(c, d, c.votes[k].to);
  }

  lemma BeatCounts(c: State, e: Event)
    requires Inv(c) && CountedNow(c) && Enabled(c, e) && (e.DeliverBeat? || e.BeatReplied?)
    ensures CountedNow(Next(c, e))
  {
    if e.DeliverBeat? {
      HeartbeatsAreNeverAccepted(c, e.k);
      QuietCounts(c, Next(c, e), c.beats[e.k].to);
    } else {
      QuietCounts(c, Next(c, e), c.beats[e.k].from);
    }
  }

  lemma StepCounts(c: State, e: Event)
    requires Inv(c) && CountedNow(c) && Enabled(c, e)
    ensures CountedNow(Next(c, e))
  {
    match e {
      case Tick(p, now, timeout) => TickCounts(c, p, now, timeout);
      case DeliverVote(k, now) => DeliveryCounts(c, k, now);
      case VoteReplied(k) => ReplyCounts(c, k);
      case SendBeat(p, _) => QuietCounts(c, Next(c, e), p);
      case DeliverBeat(_, _) => BeatCounts(c, e);
      case BeatReplied(_) => BeatCounts(c, e);
    }
  }

  lemma {:induction false} CountIsExact(n: nat, cs: seq<State>, es: seq<Event>, i: nat)
    requires IsRun(n, cs, es) && i <= |es|
    ensures CountedNow(cs[i])
  {
    if i > 0 {
      CountIsExact(n, cs, es, i - 1);
      RunInv(n, cs, es, i - 1);
      StepCounts(cs[i - 1], es[i - 1]);
      assert cs[i - 1 + 1] == Next(cs[i - 1], es[i - 1]);
    }
  }

  /**
    At every moment of a run, a peer that stands in its current term leads if and only if grants have come
    back from others that with its own vote make a majority.
  */
  lemma LeadsWithMajority(n: nat, cs: seq<State>, es: seq<Event>, i: nat, p: int)
    requires IsRun(n, cs, es) && i <= |es| && 0 <= p < n
    ensures |cs[i].peers| == n
    ensures var t := cs[i].peers[p].currentTerm;
      Leads(cs[i], p, t) <==>
        t in cs[i].peers[p].ballots && Backers(cs[i], p, t) != {} && 2 * (1 + |Backers(cs[i], p, t)|) > n
  {
    RunInv(n, cs, es, i);
    CountIsExact(n, cs, es, i);
    assert PeerOk(cs[i].peers[p], p, n);
    if cs[i].peers[p].currentTerm in cs[i].peers[p].ballots {
      assert CountsAll(cs[i], p);
    }
  }

  predicate Leads(c: State, p: int, t: int) {
    0 <= p < |c.peers| && c.peers[p].state == Leader && c.peers[p].currentTerm == t
  }

  /** Election safety: over a whole run, however peers are observed, a term has at most one leader. */
  lemma ElectionSafety(n: nat, cs: seq<State>, es: seq<Event>, i: nat, j: nat, p: int, q: int, t: int)
    requires IsRun(n, cs, es) && i <= |es| && j <= |es|
    requires Leads(cs[i], p, t) && Leads(cs[j], q, t)
    ensures p == q
  {
    var last := |es|;
    RunInv(n, cs, es, i);
    RunInv(n, cs, es, j);
    RunInv(n, cs, es, last);
    RunGrows(n, cs, es, i, last);
    RunGrows(n, cs, es, j, last);
    assert PeerOk(cs[i].peers[p], p, n) && PeerOk(cs[j].peers[q], q, n);
    assert Grows(cs[i].peers[p], cs[last].peers[p]) && Grows(cs[j].peers[q], cs[last].peers[q]);
    OneWinner(cs[last], p, q, t);
  }

  /** A leader keeps leading until its own term has passed. */
  lemma LeadershipLasts(n: nat, cs: seq<State>, es: seq<Event>, i: nat, j: nat, p: int, t: int)
    requires IsRun(n, cs, es) && i <= j <= |es| && Leads(cs[i], p, t)
    ensures 0 <= p < |cs[j].peers| && cs[j].peers[p].currentTerm >= t
    ensures cs[j].peers[p].currentTerm == t <==> Leads(cs[j], p, t)
  {
    RunGrows(n, cs, es, i, j);
    assert Grows(cs[i].peers[p], cs[j].peers[p]);
  }

  /** A non-empty vote never changes within its term. */
  lemma VotesArePermanent(n: nat, cs: seq<State>, es: seq<Event>, i: nat, j: nat, p: int)
    requires IsRun(n, cs, es) && i <= j <= |es| && 0 <= p < n
    ensures |cs[i].peers| == |cs[j].peers| == n
    ensures cs[i].peers[p].currentTerm <= cs[j].peers[p].currentTerm
    ensures cs[i].peers[p].currentTerm == cs[j].peers[p].currentTerm && cs[i].peers[p].votedFor != NOBODY
      ==> cs[j].peers[p].votedFor == cs[i].peers[p].votedFor
  {
    RunGrows(n, cs, es, i, j);
    assert Grows(cs[i].peers[p], cs[j].peers[p]);
  }

  /** All heartbeats of one term name the same leader. */
  lemma HeartbeatsAgree(n: nat, cs: seq<State>, es: seq<Event>, i: nat, a: int, b: int)
    requires IsRun(n, cs, es) && i <= |es|
    requires 0 <= a < |cs[i].beats| && 0 <= b < |cs[i].beats| && cs[i].beats[a].args.term == cs[i].beats[b].args.term
    ensures cs[i].beats[a].args.leaderId == cs[i].beats[b].args.leaderId
  {
    RunInv(n, cs, es, i);
    assert BeatCallOk(cs[i], cs[i].beats[a]) && BeatCallOk(cs[i], cs[i].beats[b]);
    OneWinner(cs[i], cs[i].beats[a].from, cs[i].beats[b].from, cs[i].beats[a].args.term);
  }

  lemma BeatOriginNext(c: State, e: Event, k: int)
    requires Enabled(c, e) && 0 <= k < |Next(c, e).beats|
    ensures var d := Next(c, e);
      if k < |c.beats| then d.beats[k].from == c.beats[k].from && d.beats[k].args == c.beats[k].args
      else Leads(c, d.beats[k].from, d.beats[k].args.term)
  {
  }

  /** Every heartbeat was sent by the leader of its term while it led. */
  lemma {:induction false} HeartbeatsComeFromLeaders(n: nat, cs: seq<State>, es: seq<Event>, i: nat, k: int)
    returns (j: nat)
    requires IsRun(n, cs, es) && i <= |es| && 0 <= k < |cs[i].beats|
    ensures j <= i && Leads(cs[j], cs[i].beats[k].from, cs[i].beats[k].args.term)
  {
    var c, e := cs[i - 1], es[i - 1];
    assert cs[i - 1 + 1] == Next(c, e);
    BeatOriginNext(c, e, k);
    if k < |c.beats| {
      j := HeartbeatsComeFromLeaders(n, cs, es, i - 1, k);
    } else {
      j := i - 1;
    }
  }

  /** No reachable delivery takes the accepting branch of AppendEntries. */
  lemma AcceptIsUnreachable(n: nat, cs: seq<State>, es: seq<Event>, i: nat, k: int)
    requires IsRun(n, cs, es) && i <= |es| && 0 <= k < |cs[i].beats|
    ensures 0 <= cs[i].beats[k].to < |cs[i].peers|
    ensures AppendAnswer(cs[i].peers[cs[i].beats[k].to], cs[i].beats[k].args, FRESH_APPEND_REPLY) != Accepted
    ensures AppendAnswer(cs[i].peers[cs[i].beats[k].to], cs[i].beats[k].args, FRESH_APPEND_REPLY) == Panicked
      <==> cs[i].peers[cs[i].beats[k].to].currentTerm == 0
  {
    RunInv(n, cs, es, i);
    HeartbeatsAreNeverAccepted(cs[i], k);
    assert BeatCallOk(cs[i], cs[i].beats[k]);
    assert PeerOk(cs[i].peers[cs[i].beats[k].to], cs[i].beats[k].to, |cs[i].peers|);
  }

  // ---- Elections are opened once ----------------------------------------------------

  /** Event j of the run starts peer p's election for term t. */
  predicate Opens(cs: seq<State>, es: seq<Event>, j: int, p: int, t: int) {
    && 0 <= j < |es| && j < |cs| && es[j].Tick? && es[j].p == p && 0 <= p < |cs[j].peers|
    && ElectionDue(cs[j].peers[p], es[j].now, es[j].timeout) && cs[j].peers[p].currentTerm + 1 == t
  }

  /** Peer p has asked x for its vote in term t. */
  ghost predicate Asked(c: State, p: int, x: int, t: int) {
    exists k :: 0 <= k < |c.votes| && c.votes[k].from == p && c.votes[k].to == x && c.votes[k].args.term == t
  }

  lemma {:induction false} VotersAreAll(me: int, n: nat, x: int)
    requires 0 <= x < n && x != me
    ensures x in Voters(me, n)
  {
    if x < n - 1 {
      VotersAreAll(me, n - 1, x);
    }
  }

  /** No event takes back a request. */
  lemma AskedStays(c: State, e: Event, p: int, x: int, t: int)
    requires Enabled(c, e) && Asked(c, p, x, t)
    ensures Asked(Next(c, e), p, x, t)
  {
    var k :| 0 <= k < |c.votes| && c.votes[k].from == p && c.votes[k].to == x && c.votes[k].args.term == t;
    var d := Next(c, e);
    assert d.votes[k].from == p && d.votes[k].to == x && d.votes[k].args.term == t;
  }

  /** Starting an election asks every other peer. */
  lemma OpeningAsks(c: State, p: int, now: int, timeout: int, x: int)
    requires Enabled(c, Tick(p, now, timeout)) && ElectionDue(c.peers[p], now, timeout)
    requires 0 <= x < |c.peers| && x != p
    ensures Asked(Next(c, Tick(p, now, timeout)), p, x, c.peers[p].currentTerm + 1)
  {
    var d := Next(c, Tick(p, now, timeout));
    VotersAreAll(p, |c.peers|, x);
    var i :| 0 <= i < |Voters(p, |c.peers|)| && Voters(p, |c.peers|)[i] == x;
    assert d.votes[|c.votes| + i].to == x;
  }

  /** Only starting an election gives a peer a new election. */
  lemma BallotsStep(c: State, e: Event, p: int, t: int)
    requires Inv(c) && Enabled(c, e) && 0 <= p < |c.peers|
    ensures |Next(c, e).peers| == |c.peers|
    ensures t in Next(c, e).peers[p].ballots <==>
      (t in c.peers[p].ballots
      || (e.Tick? && e.p == p && ElectionDue(c.peers[p], e.now, e.timeout) && c.peers[p].currentTerm + 1 == t))
  {
  }

  lemma AskedStep(c: State, e: Event, p: int, x: int, t: int)
    requires Inv(c) && Enabled(c, e) && 0 <= p < |c.peers| && 0 <= x < |c.peers| && x != p
    requires t in c.peers[p].ballots ==> Asked(c, p, x, t)
    ensures |Next(c, e).peers| == |c.peers|
    ensures t in Next(c, e).peers[p].ballots ==> Asked(Next(c, e), p, x, t)
  {
    BallotsStep(c, e, p, t);
    if t in c.peers[p].ballots {
      AskedStays(c, e, p, x, t);
    } else if t in Next(c, e).peers[p].ballots {
      OpeningAsks(c, p, e.now, e.timeout, x);
    }
  }

  /** In every term in which it has stood, a peer has asked every other peer. */
  lemma {:induction false} StoodMeansAsked(n: nat, cs: seq<State>, es: seq<Event>, i: nat, p: int, x: int, t: int)
    requires IsRun(n, cs, es) && i <= |es| && 0 <= p < n && 0 <= x < n && x != p
    ensures |cs[i].peers| == n
    ensures t in cs[i].peers[p].ballots ==> Asked(cs[i], p, x, t)
  {
    if i > 0 {
      StoodMeansAsked(n, cs, es, i - 1, p, x, t);
      RunInv(n, cs, es, i - 1);
      AskedStep(cs[i - 1], es[i - 1], p, x, t);
      assert cs[i - 1 + 1] == Next(cs[i - 1], es[i - 1]);
    }
  }

  /** A peer has stood in a term if and only if some event of the run started that election. */
  lemma {:induction false} StoodMeansOpened(n: nat, cs: seq<State>, es: seq<Event>, i: nat, p: int, t: int)
    requires IsRun(n, cs, es) && i <= |es| && 0 <= p < n
    ensures |cs[i].peers| == n
    ensures t in cs[i].peers[p].ballots <==> exists j :: 0 <= j < i && Opens(cs, es, j, p, t)
  {
    if i > 0 {
      StoodMeansOpened(n, cs, es, i - 1, p, t);
      RunInv(n, cs, es, i - 1);
      BallotsStep(cs[i - 1], es[i - 1], p, t);
      assert cs[i - 1 + 1] == Next(cs[i - 1], es[i - 1]);
      assert t in cs[i].peers[p].ballots <==> (t in cs[i - 1].peers[p].ballots || Opens(cs, es, i - 1, p, t));
    }
  }

  lemma NotOpenedBefore(n: nat, cs: seq<State>, es: seq<Event>, k: nat, p: int, t: int)
    requires IsRun(n, cs, es) && Opens(cs, es, k, p, t)
    ensures forall j :: 0 <= j < k ==> !Opens(cs, es, j, p, t)
  {
    RunInv(n, cs, es, k);
    assert PeerOk(cs[k].peers[p], p, n);
    StoodMeansOpened(n, cs, es, k, p, t);
  }

  /** Over a whole run a peer starts at most one election in a term, and asks each other peer in it exactly once. */
  lemma ElectionsOpenOnce(n: nat, cs: seq<State>, es: seq<Event>, j: nat, k: nat, p: int, t: int)
    requires IsRun(n, cs, es) && Opens(cs, es, j, p, t)
    ensures Opens(cs, es, k, p, t) ==> j == k
    ensures |cs[|es|].peers| == n
    ensures forall x :: 0 <= x < n && x != p ==> Asked(cs[|es|], p, x, t)
    ensures forall a, b :: 0 <= a < b < |cs[|es|].votes| ==> !SameRequest(cs[|es|].votes[a], cs[|es|].votes[b])
  {
    RunInv(n, cs, es, j);
    RunInv(n, cs, es, |es|);
    StoodMeansOpened(n, cs, es, |es|, p, t);
    forall x | 0 <= x < n && x != p
      ensures Asked(cs[|es|], p, x, t)
    {
      StoodMeansAsked(n, cs, es, |es|, p, x, t);
    }
    NotOpenedBefore(n, cs, es, j, p, t);
    if Opens(cs, es, k, p, t) {
      NotOpenedBefore(n, cs, es, k, p, t);
    }
  }

  /** Votes are counted only when an answer comes back, so a leader has another peer behind it. */
  lemma LeaderHasBacker(c: State, p: int, t: int)
    requires Inv(c) && Leads(c, p, t)
    ensures |c.peers| >= 2
  {
  }

  /** A peer on its own never leads. */
  lemma LonePeerNeverLeads(cs: seq<State>, es: seq<Event>, i: nat, p: int, t: int)
    requires IsRun(1, cs, es) && i <= |es|
    ensures !Leads(cs[i], p, t)
  {
    RunInv(1, cs, es, i);
    if Leads(cs[i], p, t) {
      LeaderHasBacker(cs[i], p, t);
    }
  }

  // ---- Elections can succeed --------------------------------------------------------

  lemma Extend(n: nat, cs: seq<State>, es: seq<Event>, e: Event)
    requires IsRun(n, cs, es) && Enabled(cs[|es|], e)
    ensures IsRun(n, cs + [Next(cs[|es|], e)], es + [e])
  {
  }

  /** p stands in term 1, k voters have granted and been counted, and the others have not been asked yet. */
  ghost predicate Standing(c: State, n: nat, p: int, k: nat) {
    && |c.peers| == n && 0 <= p < n && |c.votes| == n - 1 && k < n
    && c.peers[p].currentTerm == 1 && !c.peers[p].halted
    && 1 in c.peers[p].ballots && c.peers[p].ballots[1] == k + 1
    && c.peers[p].state == (if k > 0 && k + 1 > n / 2 then Leader else Candidate)
    && (forall j :: k <= j < n - 1 ==> c.votes[j] == VoteCall(p, Voters(p, n)[j], VoteArgs(1, p, 0, 0), Sent))
    && (forall j :: k <= j < n - 1 ==> c.peers[Voters(p, n)[j]] == NEW_PEER)
  }

  lemma AskNext(n: nat, cs: seq<State>, es: seq<Event>, p: int, k: nat) returns (ds: seq<State>, fs: seq<Event>)
    requires IsRun(n, cs, es) && Standing(cs[|es|], n, p, k) && k < n - 1
    ensures IsRun(n, ds, fs) && Standing(ds[|fs|], n, p, k + 1)
  {
    var c := cs[|es|];
    var d := Next(c, DeliverVote(k, 0));
    Extend(n, cs, es, DeliverVote(k, 0));
    Extend(n, cs + [d], es + [DeliverVote(k, 0)], VoteReplied(k));
    ds := cs + [d] + [Next(d, VoteReplied(k))];
    fs := es + [DeliverVote(k, 0)] + [VoteReplied(k)];
  }

  lemma {:induction false} StandAndAsk(n: nat, p: int, k: nat) returns (cs: seq<State>, es: seq<Event>)
    requires 0 <= p < n && k < n
    ensures IsRun(n, cs, es) && Standing(cs[|es|], n, p, k)
  {
    if k == 0 {
      var c := Init(n);
      Extend(n, [c], [], Tick(p, 1, 0));
      cs, es := [c] + [Next(c, Tick(p, 1, 0))], [] + [Tick(p, 1, 0)];
    } else {
      var bs, ds := StandAndAsk(n, p, k - 1);
      cs, es := AskNext(n, bs, ds, p, k - 1);
    }
  }

  /** Any peer of a cluster of at least two can be elected; with LonePeerNeverLeads this is exact. */
  lemma ElectionCanSucceed(n: nat, p: int) returns (cs: seq<State>, es: seq<Event>)
    requires n >= 2 && 0 <= p < n
    ensures IsRun(n, cs, es) && Leads(cs[|es|], p, 1)
  {
    cs, es := StandAndAsk(n, p, n / 2);
  }

  // ---- checkOneLeader ---------------------------------------------------------------

  /** What checkOneLeader learns about one peer: nothing if it is disconnected, else what GetState says. */
  datatype Sighting = Unseen | Seen(term: int, leader: bool)

  datatype Verdict = NoLeader | OneLeader(server: int) | SeveralLeaders(term: int)

  predicate Leading(a: seq<Sighting>, p: int) {
    0 <= p < |a| && a[p].Seen? && a[p].leader
  }

  /** s lists, in order, some of the first i peers, which claim to lead term t. */
  ghost predicate Claims(a: seq<Sighting>, i: nat, t: int, s: seq<int>) {
    && (forall k :: 0 <= k < |s| ==> s[k] < i && Leading(a, s[k]) && a[s[k]].term == t)
    && (forall k, m :: 0 <= k < m < |s| ==> s[k] < s[m])
  }

  ghost predicate AllClaim(a: seq<Sighting>, i: nat, leaders: map<int, seq<int>>) {
    forall t :: t in leaders ==> leaders[t] != [] && Claims(a, i, t, leaders[t])
  }

  ghost predicate AllListed(a: seq<Sighting>, i: nat, leaders: map<int, seq<int>>) {
    forall p :: 0 <= p < i && Leading(a, p) ==> a[p].term in leaders && p in leaders[a[p].term]
  }

  /** The map of the first i peers that claim to lead: term to the peers, in order. */
  ghost predicate Collected(a: seq<Sighting>, i: nat, leaders: map<int, seq<int>>) {
    AllClaim(a, i, leaders) && AllListed(a, i, leaders)
  }

  /** The map once peer i is noted under term t. */
  function Noted(leaders: map<int, seq<int>>, t: int, i: int): map<int, seq<int>> {
    leaders[t := (if t in leaders then leaders[t] else []) + [i]]
  }

  lemma ClaimsNext(a: seq<Sighting>, i: nat, t: int, s: seq<int>)
    requires Claims(a, i, t, s)
    ensures Claims(a, i + 1, t, s)
    ensures Leading(a, i) && a[i].term == t ==> Claims(a, i + 1, t, s + [i])
  {
  }

  lemma AllClaimNext(a: seq<Sighting>, i: nat, leaders: map<int, seq<int>>)
    requires AllClaim(a, i, leaders) && Leading(a, i)
    ensures AllClaim(a, i + 1, Noted(leaders, a[i].term, i))
  {
    var next := Noted(leaders, a[i].term, i);
    forall u | u in next
      ensures next[u] != [] && Claims(a, i + 1, u, next[u])
    {
      ClaimsNext(a, i, u, if u in leaders then leaders[u] else []);
    }
  }

  lemma AllListedNext(a: seq<Sighting>, i: nat, leaders: map<int, seq<int>>)
    requires AllListed(a, i, leaders) && Leading(a, i)
    ensures AllListed(a, i + 1, Noted(leaders, a[i].term, i))
  {
    var next := Noted(leaders, a[i].term, i);
    forall p | 0 <= p < i + 1 && Leading(a, p)
      ensures a[p].term in next && p in next[a[p].term]
    {
      assert p < i ==> p in leaders[a[p].term];
    }
  }

  /**
    One pass of checkOneLeader: it complains exactly when two peers lead one term, and
    otherwise reports the seen leader of the latest term.
  */
  method CheckOneLeader(a: seq<Sighting>) returns (v: Verdict)
    requires forall p :: 0 <= p < |a| && a[p].Seen? ==> a[p].term >= 0
    ensures v.SeveralLeaders? <==> exists p, q :: Leading(a, p) && Leading(a, q) && p != q && a[p].term == a[q].term
    ensures v.NoLeader? <==> forall p :: !Leading(a, p)
    ensures v.OneLeader? ==> Leading(a, v.server)
    ensures v.OneLeader? ==> forall p :: Leading(a, p) && p != v.server ==> a[p].term < a[v.server].term
  {
    var leaders: map<int, seq<int>> := map[];
    for i := 0 to |a|
      invariant Collected(a, i, leaders)
    {
      if a[i].Seen? && a[i].leader {
        AllClaimNext(a, i, leaders);
        AllListedNext(a, i, leaders);
        leaders := Noted(leaders, a[i].term, i);
      }
    }
    var last, rest := -1, leaders.Keys;
    while rest != {}
      invariant rest <= leaders.Keys
      invariant if rest == leaders.Keys then last == -1 else last in leaders
      invariant forall t :: t in leaders.Keys - rest ==> t <= last && |leaders[t]| == 1
    {
      ghost var some := Pick(rest);
      var t :| t in rest;
      ghost var p := leaders[t][0];
      assert Leading(a, p);
      if |leaders[t]| > 1 {
        ghost var q := leaders[t][1];
        assert Leading(a, q) && p < q;
        return SeveralLeaders(t);
      }
      if t > last {
        last := t;
      }
      rest := rest - {t};
    }
    if |leaders| != 0 {
      v := OneLeader(leaders[last][0]);
    } else {
      v := NoLeader;
    }
    SingleEntries(a, leaders);
  }

  /** When each term has one entry, equal terms mean equal peers. */
  lemma SingleEntries(a: seq<Sighting>, leaders: map<int, seq<int>>)
    requires Collected(a, |a|, leaders) && forall t :: t in leaders ==> |leaders[t]| == 1
    ensures forall p :: Leading(a, p) ==> a[p].term in leaders && leaders[a[p].term][0] == p
  {
  }

  /** a records what peers said in a run, peer p at moment at[p]. */
  ghost predicate Records(cs: seq<State>, at: seq<nat>, a: seq<Sighting>) {
    && |at| == |a|
    && forall p :: 0 <= p < |a| && a[p].Seen? ==>
         at[p] < |cs| && p < |cs[at[p]].peers|
         && a[p].term == cs[at[p]].peers[p].currentTerm && (a[p].leader <==> cs[at[p]].peers[p].state == Leader)
  }

  /** Asking the peers at different moments of a run never shows two leaders of one term. */
  lemma SightingsAreSafe(n: nat, cs: seq<State>, es: seq<Event>, at: seq<nat>, a: seq<Sighting>)
    requires IsRun(n, cs, es) && Records(cs, at, a)
    ensures forall p :: 0 <= p < |a| && a[p].Seen? ==> a[p].term >= 0
    ensures forall p, q :: Leading(a, p) && Leading(a, q) && p != q ==> a[p].term != a[q].term
  {
    forall p | 0 <= p < |a| && a[p].Seen?
      ensures a[p].term >= 0
    {
      RunInv(n, cs, es, at[p]);
      assert PeerOk(cs[at[p]].peers[p], p, n);
    }
    forall p, q | Leading(a, p) && Leading(a, q) && p != q
      ensures a[p].term != a[q].term
    {
      if a[p].term == a[q].term {
        ElectionSafety(n, cs, es, at[p], at[q], p, q, a[p].term);
      }
    }
  }
}

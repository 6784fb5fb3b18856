/**
  A cluster of Raft peers over a network that loses, delays and reorders messages. A call is
  executed at most once and answered at most once; a lost message is one whose event never comes.
*/
module Cluster {
  import opened Counting
  import opened Raft

  datatype Phase<R> = Sent | Executed(reply: R) | Delivered(reply: R)

  datatype VoteCall = VoteCall(from: int, to: int, args: VoteArgs, phase: Phase<VoteReply>)
  datatype BeatCall = BeatCall(from: int, to: int, args: AppendArgs, phase: Phase<AppendReply>)

  datatype State = State(peers: seq<Peer>, votes: seq<VoteCall>, beats: seq<BeatCall>)

  datatype Event =
    | Tick(p: int, now: int, timeout: int)
    | DeliverVote(k: int, now: int)
    | VoteReplied(k: int)
    | SendBeat(p: int, to: int)
    | DeliverBeat(k: int, now: int)
    | BeatReplied(k: int)

  ghost function Init(n: nat): State {
    State(seq(n, _ => NEW_PEER), [], [])
  }

  predicate Alive(c: State, p: int) {
    0 <= p < |c.peers| && !c.peers[p].halted
  }

  /**
    When an event can happen. That an answered election is one its candidate has started is no
    restriction: it holds of every call, by VoteCallOk below.
  */
  predicate Enabled(c: State, e: Event) {
    match e
    case Tick(p, _, _) => Alive(c, p)
    case DeliverVote(k, _) => 0 <= k < |c.votes| && c.votes[k].phase.Sent? && Alive(c, c.votes[k].to)
    case VoteReplied(k) =>
      0 <= k < |c.votes| && c.votes[k].phase.Executed? && Alive(c, c.votes[k].from)
      && c.votes[k].args.term in c.peers[c.votes[k].from].ballots
    case SendBeat(p, to) => Alive(c, p) && 0 <= to < |c.peers| && to != p && c.peers[p].state == Leader
    case DeliverBeat(k, _) => 0 <= k < |c.beats| && c.beats[k].phase.Sent? && Alive(c, c.beats[k].to)
    case BeatReplied(k) => 0 <= k < |c.beats| && c.beats[k].phase.Executed? && Alive(c, c.beats[k].from)
  }

  /** The requests of one election. */
  function Requests(me: int, args: VoteArgs, asked: seq<int>): (r: seq<VoteCall>)
    ensures |r| == |asked|
    ensures forall i :: 0 <= i < |r| ==> r[i] == VoteCall(me, asked[i], args, Sent)
  {
    seq(|asked|, i requires 0 <= i < |asked| => VoteCall(me, asked[i], args, Sent))
  }

  function Next(c: State, e: Event): State
    requires Enabled(c, e)
  {
    match e
    case Tick(p, now, timeout) =>
      if ElectionDue(c.peers[p], now, timeout) then
        var q := StartElection(c.peers[p], p, now);
        State(c.peers[p := q], c.votes + Requests(p, ElectionArgs(q, p), Voters(p, |c.peers|)), c.beats)
      else c
    case DeliverVote(k, now) =>
      var call := c.votes[k];
      var (q, reply) := OnRequestVote(c.peers[call.to], call.args, now);
      State(c.peers[call.to := q], c.votes[k := call.(phase := Executed(reply))], c.beats)
    case VoteReplied(k) =>
      var call := c.votes[k];
      var q := OnVoteReply(c.peers[call.from], |c.peers|, call.args, call.phase.reply);
      State(c.peers[call.from := q], c.votes[k := call.(phase := Delivered(call.phase.reply))], c.beats)
    case SendBeat(p, to) =>
      State(c.peers, c.votes, c.beats + [BeatCall(p, to, Heartbeat(c.peers[p], p).value, Sent)])
    case DeliverBeat(k, now) =>
      var call := c.beats[k];
      var (q, reply) := OnAppendEntries(c.peers[call.to], call.args, FRESH_APPEND_REPLY, now);
      // a panicking handler never answers
      State(c.peers[call.to := q], c.votes, if q.halted then c.beats else c.beats[k := call.(phase := Executed(reply))])
    case BeatReplied(k) =>
      var call := c.beats[k];
      var q := OnAppendReply(c.peers[call.from], call.phase.reply);
      State(c.peers[call.from := q], c.votes, c.beats[k := call.(phase := Delivered(call.phase.reply))])
  }

  /** Every run without restarts of n peers. */
  ghost predicate IsRun(n: nat, cs: seq<State>, es: seq<Event>) {
    && |cs| == |es| + 1
    && cs[0] == Init(n)
    && forall i :: 0 <= i < |es| ==> Enabled(cs[i], es[i]) && cs[i + 1] == Next(cs[i], es[i])
  }

  // ---- The invariant ------------------------------------------------------------

  /** The peer collected a majority in the election it started in term t. */
  predicate Won(p: Peer, n: nat, t: int) {
    t in p.ballots && 2 * p.ballots[t] > n
  }

  ghost predicate PeerOk(p: Peer, me: int, n: nat) {
    && 0 <= p.currentTerm && NOBODY <= p.votedFor < n
    && (forall t :: t in p.ballots ==> 1 <= t <= p.currentTerm && 1 <= p.ballots[t])
    && (p.currentTerm in p.ballots ==> p.votedFor == me)
    && (p.state != Follower <==> p.currentTerm in p.ballots)
    && (p.state == Leader <==> Won(p, n, p.currentTerm) && 2 <= p.ballots[p.currentTerm])
  }

  predicate Granted(call: VoteCall) {
    !call.phase.Sent? && call.phase.reply.voteGranted
  }

  /** A granted vote is still remembered by its voter, or the voter has moved to a later term. */
  ghost predicate Remembered(voter: Peer, from: int, t: int) {
    && t <= voter.currentTerm
    && (t == voter.currentTerm ==> voter.votedFor == from)
    && t !in voter.ballots
  }

  ghost predicate VoteCallOk(c: State, call: VoteCall) {
    && 0 <= call.from < |c.peers| && 0 <= call.to < |c.peers| && call.from != call.to
    && call.args.candidateId == call.from
    && call.args.term in c.peers[call.from].ballots
    && (Granted(call) ==>
          call.phase.reply.term == call.args.term && Remembered(c.peers[call.to], call.from, call.args.term))
    && (!call.phase.Sent? && !Granted(call) ==> call.phase.reply.term == 0)
  }

  ghost predicate BeatCallOk(c: State, call: BeatCall) {
    && 0 <= call.from < |c.peers| && 0 <= call.to < |c.peers| && call.from != call.to
    && call.args.leaderId == call.from && call.args.entries == [] && call.args.prevLogIndex == 0
    && Won(c.peers[call.from], |c.peers|, call.args.term)
    && (!call.phase.Sent? ==> !call.phase.reply.success)
  }

  predicate SameRequest(a: VoteCall, b: VoteCall) {
    a.from == b.from && a.to == b.to && a.args.term == b.args.term
  }

  /** One request per peer and election. */
  ghost predicate AskedOnce(c: State) {
    forall i, j :: 0 <= i < j < |c.votes| ==> !SameRequest(c.votes[i], c.votes[j])
  }

  /** One vote per voter and term. */
  ghost predicate VotedOnce(c: State) {
    forall i, j :: 0 <= i < |c.votes| && 0 <= j < |c.votes| && Granted(c.votes[i]) && Granted(c.votes[j])
      && c.votes[i].to == c.votes[j].to && c.votes[i].args.term == c.votes[j].args.term
      ==> c.votes[i].from == c.votes[j].from
  }

  predicate Tallied(call: VoteCall, p: int, t: int) {
    call.from == p && call.args.term == t && call.phase.Delivered? && call.phase.reply.voteGranted
  }

  /** The voters whose grants have come back to p for its election in term t. */
  function Backers(c: State, p: int, t: int): set<int> {
    set k | 0 <= k < |c.votes| && Tallied(c.votes[k], p, t) :: c.votes[k].to
  }

  /** No voter is counted twice. */
  ghost predicate CountedOnce(c: State) {
    forall p, t :: 0 <= p < |c.peers| && t in c.peers[p].ballots ==> c.peers[p].ballots[t] <= 1 + |Backers(c, p, t)|
  }

  ghost predicate Inv(c: State) {
    && (forall p :: 0 <= p < |c.peers| ==> PeerOk(c.peers[p], p, |c.peers|))
    && (forall k :: 0 <= k < |c.votes| ==> VoteCallOk(c, c.votes[k]))
    && (forall k :: 0 <= k < |c.beats| ==> BeatCallOk(c, c.beats[k]))
    && AskedOnce(c) && VotedOnce(c) && CountedOnce(c)
  }

  /** What one step never undoes at a peer. */
  ghost predicate Grows(p: Peer, q: Peer) {
    && p.currentTerm <= q.currentTerm
    && (forall t :: t in p.ballots ==> t in q.ballots && p.ballots[t] <= q.ballots[t])
    && (forall t :: t in q.ballots ==> t in p.ballots || t > p.currentTerm)
    && (p.currentTerm == q.currentTerm && p.votedFor != NOBODY ==> q.votedFor == p.votedFor)
    && (p.currentTerm == q.currentTerm && p.state == Leader ==> q.state == Leader)
  }

  lemma GrowsTransitive(p: Peer, q: Peer, r: Peer)
    requires Grows(p, q) && Grows(q, r)
    ensures Grows(p, r)
  {
  }

  ghost predicate AllGrow(c: State, d: State) {
    |d.peers| == |c.peers| && forall p :: 0 <= p < |c.peers| ==> Grows(c.peers[p], d.peers[p])
  }

  lemma InitInv(n: nat)
    ensures Inv(Init(n))
  {
  }

  // ---- Steps keep the invariant ----------------------------------------------------

  /** Growth at the peers keeps what is known about every old call. */
  lemma CallsStayOk(c: State, d: State)
    requires Inv(c) && AllGrow(c, d)
    ensures forall k :: 0 <= k < |c.votes| ==> VoteCallOk(d, c.votes[k])
    ensures forall k :: 0 <= k < |c.beats| ==> BeatCallOk(d, c.beats[k])
  {
  }

  /** Votes that are not yet delivered are not yet counted. */
  lemma BackersUnchanged(c: State, d: State)
    requires |c.votes| <= |d.votes|
    requires forall k :: 0 <= k < |d.votes| ==>
      if k < |c.votes| && c.votes[k].phase.Delivered? then d.votes[k] == c.votes[k] else !d.votes[k].phase.Delivered?
    ensures forall p, t :: Backers(d, p, t) == Backers(c, p, t)
  {
  }

  lemma StartElectionKeepsPeer(p: Peer, me: int, n: nat, now: int)
    requires PeerOk(p, me, n) && 0 <= me < n && p.state != Leader
    ensures var q := StartElection(p, me, now);
      PeerOk(q, me, n) && Grows(p, q) && q.currentTerm in q.ballots && q.currentTerm !in p.ballots
      && q.ballots[q.currentTerm] == 1 && q.ballots.Keys == p.ballots.Keys + {q.currentTerm}
      && forall t :: t in p.ballots ==> q.ballots[t] == p.ballots[t]
  {
  }

  /** The requests of a new election repeat no earlier request. */
  lemma NewRequests(c: State, p: int, args: VoteArgs, asked: seq<int>)
    requires Inv(c) && 0 <= p < |c.peers| && args.term !in c.peers[p].ballots
    requires NoRepeats(asked)
    ensures var d := c.(votes := c.votes + Requests(p, args, asked)); AskedOnce(d) && VotedOnce(d)
  {
  }

  lemma TickKeeps(c: State, p: int, now: int, timeout: int)
    requires Inv(c) && Alive(c, p)
    ensures var d := Next(c, Tick(p, now, timeout)); Inv(d) && AllGrow(c, d)
  {
    var d := Next(c, Tick(p, now, timeout));
    assert PeerOk(c.peers[p], p, |c.peers|);
    if ElectionDue(c.peers[p], now, timeout) {
      StartElectionKeepsPeer(c.peers[p], p, |c.peers|, now);
      NewRequests(c, p, ElectionArgs(d.peers[p], p), Voters(p, |c.peers|));
      assert AllGrow(c, d);
      CallsStayOk(c, d);
      BackersUnchanged(c, d);
    }
  }

  lemma RequestVoteKeepsPeer(p: Peer, me: int, n: nat, args: VoteArgs, now: int)
    requires PeerOk(p, me, n) && 0 <= me && 0 <= args.candidateId < n && args.candidateId != me
    ensures var (q, reply) := OnRequestVote(p, args, now);
      && PeerOk(q, me, n) && Grows(p, q) && q.ballots == p.ballots
      && reply.term == (if reply.voteGranted then args.term else 0)
      && (reply.voteGranted ==> q.currentTerm == args.term && Remembered(q, args.candidateId, args.term))
  {
  }

  /** A new answer keeps the votes single: what its voter granted in that term it granted to the same candidate. */
  lemma AnswerKeepsVotes(c: State, d: State, k: int)
    requires AskedOnce(c) && VotedOnce(c) && 0 <= k < |c.votes| == |d.votes|
    requires d.votes == c.votes[k := c.votes[k].(phase := d.votes[k].phase)]
    requires c.votes[k].phase.Sent? && d.votes[k].phase.Executed?
    requires forall i :: 0 <= i < |d.votes| ==> VoteCallOk(d, d.votes[i])
    requires VoteCallOk(d, d.votes[k])
    requires Granted(d.votes[k]) ==> d.peers[d.votes[k].to].currentTerm == d.votes[k].args.term
    ensures AskedOnce(d) && VotedOnce(d)
  {
  }

  lemma DeliverVoteKeeps(c: State, k: int, now: int)
    requires Inv(c) && Enabled(c, DeliverVote(k, now))
    ensures var d := Next(c, DeliverVote(k, now)); Inv(d) && AllGrow(c, d)
  {
    var d := Next(c, DeliverVote(k, now));
    var call := c.votes[k];
    assert VoteCallOk(c, call) && PeerOk(c.peers[call.to], call.to, |c.peers|);
    RequestVoteKeepsPeer(c.peers[call.to], call.to, |c.peers|, call.args, now);
    assert AllGrow(c, d);
    CallsStayOk(c, d);
    assert VoteCallOk(d, call);
    BackersUnchanged(c, d);
    AnswerKeepsVotes(c, d, k);
  }

  /** The vote-reply goroutine never steps down: a reply never carries a later term than its request. */
  lemma VoteReplyKeepsPeer(p: Peer, me: int, n: nat, args: VoteArgs, reply: VoteReply)
    requires PeerOk(p, me, n) && args.term in p.ballots
    requires reply.term == if reply.voteGranted then args.term else 0
    ensures var q := OnVoteReply(p, n, args, reply);
      && PeerOk(q, me, n) && Grows(p, q) && q.currentTerm == p.currentTerm && q.votedFor == p.votedFor
      && q.ballots.Keys == p.ballots.Keys
      && (forall t :: t in q.ballots && t != args.term ==> q.ballots[t] == p.ballots[t])
      && q.ballots[args.term] <= p.ballots[args.term] + if reply.voteGranted then 1 else 0
  {
  }

  lemma VoteRepliedKeeps(c: State, k: int)
    requires Inv(c) && Enabled(c, VoteReplied(k))
    ensures var d := Next(c, VoteReplied(k)); Inv(d) && AllGrow(c, d)
  {
    var d := Next(c, VoteReplied(k));
    var call := c.votes[k];
    var p := call.from;
    assert VoteCallOk(c, call) && PeerOk(c.peers[p], p, |c.peers|);
    VoteReplyKeepsPeer(c.peers[p], p, |c.peers|, call.args, call.phase.reply);
    assert AllGrow(c, d);
    CallsStayOk(c, d);
    assert VoteCallOk(d, c.votes[k]);
    PhaseOnly(c, d, k);
    CountsStayOnce(c, k);
  }

  /** A counted grant has its voter among the backers. */
  lemma CountsStayOnce(c: State, k: int)
    requires Inv(c) && Enabled(c, VoteReplied(k))
    ensures CountedOnce(Next(c, VoteReplied(k)))
  {
    var d := Next(c, VoteReplied(k));
    var call := c.votes[k];
    assert VoteCallOk(c, call) && PeerOk(c.peers[call.from], call.from, |c.peers|);
    VoteReplyKeepsPeer(c.peers[call.from], call.from, |c.peers|, call.args, call.phase.reply);
    CountDelivered(c, k);
    forall q, t | 0 <= q < |d.peers| && t in d.peers[q].ballots
      ensures d.peers[q].ballots[t] <= 1 + |Backers(d, q, t)|
    {
      SubsetSize(Backers(c, q, t), Backers(d, q, t));
    }
  }

  /** Delivering an answer changes neither who was asked nor who granted. */
  lemma PhaseOnly(c: State, d: State, k: int)
    requires AskedOnce(c) && VotedOnce(c) && 0 <= k < |c.votes| && c.votes[k].phase.Executed?
    requires d.votes == c.votes[k := c.votes[k].(phase := Delivered(c.votes[k].phase.reply))]
    ensures AskedOnce(d) && VotedOnce(d)
  {
  }

  lemma BackersGrow(c: State, d: State, k: int)
    requires 0 <= k < |c.votes| == |d.votes| && c.votes[k].phase.Executed?
    requires d.votes == c.votes[k := c.votes[k].(phase := Delivered(c.votes[k].phase.reply))]
    ensures forall p, t :: Backers(c, p, t) <= Backers(d, p, t)
  {
    forall p, t, v | v in Backers(c, p, t)
      ensures v in Backers(d, p, t)
    {
      var i :| 0 <= i < |c.votes| && Tallied(c.votes[i], p, t) && c.votes[i].to == v;
      assert Tallied(d.votes[i], p, t);
    }
  }

  /** Counting a delivered grant adds its voter to the backers, and that voter was not among them. */
  lemma CountDelivered(c: State, k: int)
    requires Inv(c) && Enabled(c, VoteReplied(k))
    ensures var d, call := Next(c, VoteReplied(k)), c.votes[k];
      && (forall p, t :: Backers(c, p, t) <= Backers(d, p, t))
      && (Granted(call) ==> |Backers(d, call.from, call.args.term)| == |Backers(c, call.from, call.args.term)| + 1)
  {
    var d := Next(c, VoteReplied(k));
    var call := c.votes[k];
    BackersGrow(c, d, k);
    if Granted(call) {
      var p, t := call.from, call.args.term;
      assert Tallied(d.votes[k], p, t);
      forall i | 0 <= i < |c.votes| && Tallied(c.votes[i], p, t)
        ensures c.votes[i].to != call.to
      {
        assert i < k ==> !SameRequest(c.votes[i], c.votes[k]);
        assert k < i ==> !SameRequest(c.votes[k], c.votes[i]);
      }
      forall v | v in Backers(d, p, t)
        ensures v in Backers(c, p, t) + {call.to}
      {
        var i :| 0 <= i < |d.votes| && Tallied(d.votes[i], p, t) && d.votes[i].to == v;
        assert i != k ==> Tallied(c.votes[i], p, t);
      }
      assert Backers(d, p, t) == Backers(c, p, t) + {call.to};
    }
  }

  /** A heartbeat is refused by a peer past term zero, and halts a peer still in term zero. */
  lemma HeartbeatsAreNeverAccepted(c: State, k: int)
    requires Inv(c) && 0 <= k < |c.beats|
    ensures 0 <= c.beats[k].to < |c.peers|
    ensures var p := c.peers[c.beats[k].to];
      AppendAnswer(p, c.beats[k].args, FRESH_APPEND_REPLY) == if p.currentTerm > 0 then Rejected else Panicked
  {
  }

  /** A step of one peer that touches no vote and no tally. */
  lemma BeatStepKeeps(c: State, d: State, p: int)
    requires Inv(c) && 0 <= p < |c.peers| == |d.peers|
    requires d.votes == c.votes && d.peers == c.peers[p := d.peers[p]]
    requires PeerOk(d.peers[p], p, |c.peers|) && Grows(c.peers[p], d.peers[p])
    requires d.peers[p].ballots == c.peers[p].ballots
    requires forall k :: 0 <= k < |d.beats| ==> BeatCallOk(c, d.beats[k])
    ensures Inv(d) && AllGrow(c, d)
  {
    assert AllGrow(c, d);
    CallsStayOk(c, d);
    BackersUnchanged(c, d);
    forall k | 0 <= k < |d.beats|
      ensures BeatCallOk(d, d.beats[k])
    {
      assert BeatCallOk(c, d.beats[k]);
      assert Grows(c.peers[d.beats[k].from], d.peers[d.beats[k].from]);
    }
  }

  lemma SendBeatKeeps(c: State, p: int, to: int)
    requires Inv(c) && Enabled(c, SendBeat(p, to))
    ensures Inv(Next(c, SendBeat(p, to))) && AllGrow(c, Next(c, SendBeat(p, to)))
  {
    assert PeerOk(c.peers[p], p, |c.peers|);
    BeatStepKeeps(c, Next(c, SendBeat(p, to)), p);
  }

  lemma DeliverBeatKeeps(c: State, k: int, now: int)
    requires Inv(c) && Enabled(c, DeliverBeat(k, now))
    ensures Inv(Next(c, DeliverBeat(k, now))) && AllGrow(c, Next(c, DeliverBeat(k, now)))
  {
    HeartbeatsAreNeverAccepted(c, k);
    assert BeatCallOk(c, c.beats[k]) && PeerOk(c.peers[c.beats[k].to], c.beats[k].to, |c.peers|);
    BeatStepKeeps(c, Next(c, DeliverBeat(k, now)), c.beats[k].to);
  }

  /** Stepping down moves to a strictly later term, so forgetting the vote is harmless. */
  lemma AppendReplyKeepsPeer(p: Peer, me: int, n: nat, reply: AppendReply)
    requires PeerOk(p, me, n)
    ensures var q := OnAppendReply(p, reply);
      && PeerOk(q, me, n) && Grows(p, q) && q.ballots == p.ballots
      && (q.votedFor != p.votedFor ==> q.currentTerm > p.currentTerm)
  {
  }

  lemma BeatRepliedKeeps(c: State, k: int)
    requires Inv(c) && Enabled(c, BeatReplied(k))
    ensures Inv(Next(c, BeatReplied(k))) && AllGrow(c, Next(c, BeatReplied(k)))
  {
    var p := c.beats[k].from;
    assert BeatCallOk(c, c.beats[k]) && PeerOk(c.peers[p], p, |c.peers|);
    AppendReplyKeepsPeer(c.peers[p], p, |c.peers|, c.beats[k].phase.reply);
    BeatStepKeeps(c, Next(c, BeatReplied(k)), p);
  }

  lemma StepKeeps(c: State, e: Event)
    requires Inv(c) && Enabled(c, e)
    ensures Inv(Next(c, e)) && AllGrow(c, Next(c, e))
  {
    match e {
      case Tick(p, now, timeout) => TickKeeps(c, p, now, timeout);
      case DeliverVote(k, now) => DeliverVoteKeeps(c, k, now);
      case VoteReplied(k) => VoteRepliedKeeps(c, k);
      case SendBeat(p, to) => SendBeatKeeps(c, p, to);
      case DeliverBeat(k, now) => DeliverBeatKeeps(c, k, now);
      case BeatReplied(k) => BeatRepliedKeeps(c, k);
    }
  }

  /** The invariant holds throughout every run. */
  lemma {:induction false} RunInv(n: nat, cs: seq<State>, es: seq<Event>, i: nat)
    requires IsRun(n, cs, es) && i <= |es|
    ensures Inv(cs[i]) && |cs[i].peers| == n
  {
    if i == 0 {
      InitInv(n);
    } else {
      RunInv(n, cs, es, i - 1);
      StepKeeps(cs[i - 1], es[i - 1]);
      assert cs[i - 1 + 1] == Next(cs[i - 1], es[i - 1]);
    }
  }

  /** One moment of a run to the next. */
  lemma RunStep(n: nat, cs: seq<State>, es: seq<Event>, i: nat)
    requires IsRun(n, cs, es) && i < |es|
    ensures AllGrow(cs[i], cs[i + 1])
  {
    RunInv(n, cs, es, i);
    StepKeeps(cs[i], es[i]);
  }

  lemma AllGrowTransitive(c: State, d: State, e: State)
    requires AllGrow(c, d) && AllGrow(d, e)
    ensures AllGrow(c, e)
  {
    forall p | 0 <= p < |c.peers|
      ensures Grows(c.peers[p], e.peers[p])
    {
      GrowsTransitive(c.peers[p], d.peers[p], e.peers[p]);
    }
  }

  lemma {:induction false} ChainGrows(cs: seq<State>, i: nat, j: nat)
    requires i <= j < |cs|
    requires forall k :: i <= k < j ==> AllGrow(cs[k], cs[k + 1])
    ensures AllGrow(cs[i], cs[j])
  {
    if i < j {
      assert AllGrow(cs[j - 1], cs[j - 1 + 1]);
      ChainGrows(cs, i, j - 1);
      AllGrowTransitive(cs[i], cs[j - 1], cs[j]);
    }
  }

  /** Along every run: terms never fall, votes stand for their term, leaders lead until their term passes. */
  lemma RunGrows(n: nat, cs: seq<State>, es: seq<Event>, i: nat, j: nat)
    requires IsRun(n, cs, es) && i <= j <= |es|
    ensures |cs[i].peers| == |cs[j].peers| == n && AllGrow(cs[i], cs[j])
  {
    RunInv(n, cs, es, i);
    forall k | i <= k < j
      ensures AllGrow(cs[k], cs[k + 1])
    {
      RunStep(n, cs, es, k);
    }
    ChainGrows(cs, i, j);
  }
}

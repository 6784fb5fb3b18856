/**
  One Raft peer: the election part of src/raft1/raft.go. Each function below is what one
  critical section does to the peer; the class holds the fields and the methods.
*/
module Raft {
  import opened Counting

  datatype Role = Follower | Candidate | Leader

  datatype LogEntry = LogEntry(command: int, entryTerm: int)

  datatype VoteArgs = VoteArgs(term: int, candidateId: int, lastLogIndex: int, lastLogTerm: int)
  datatype VoteReply = VoteReply(term: int, voteGranted: bool)

  datatype AppendArgs = AppendArgs(term: int, leaderId: int, prevLogIndex: int, prevLogTerm: int,
                                   entries: seq<LogEntry>, leaderCommit: int)
  datatype AppendReply = AppendReply(term: int, success: bool)

  datatype Option<T> = None | Some(value: T)

  /**
    The value of a peer. ballots maps each term in which the peer started an election to that
    election's votesReceived, which the election's reply goroutines share. halted says that
    a handler has panicked.
  */
  datatype Peer = Peer(currentTerm: int, votedFor: int, state: Role, lastHeartbeat: int,
                       ballots: map<int, int>, halted: bool)

  const NOBODY := -1

  /** The reply structure that the RPC layer hands to a handler is freshly zeroed. */
  const FRESH_VOTE_REPLY := VoteReply(0, false)
  const FRESH_APPEND_REPLY := AppendReply(0, false)

  const NEW_PEER := Peer(0, NOBODY, Follower, 0, map[], false)

  /** RequestVote. A refusal leaves the reply's Term at zero. */
  function OnRequestVote(p: Peer, args: VoteArgs, now: int): (Peer, VoteReply) {
    if p.currentTerm > args.term then (p, FRESH_VOTE_REPLY)
    else
      var q := if p.currentTerm < args.term
               then p.(state := Follower, currentTerm := args.term, votedFor := NOBODY) else p;
      if q.votedFor != NOBODY && q.votedFor != args.candidateId then (q, FRESH_VOTE_REPLY)
      else (q.(votedFor := args.candidateId, lastHeartbeat := now), VoteReply(q.currentTerm, true))
  }

  /** The condition under which ticker starts an election. */
  predicate ElectionDue(p: Peer, now: int, timeout: int) {
    p.state != Leader && now - p.lastHeartbeat > timeout
  }

  /** The state change with which ticker starts an election. */
  function StartElection(p: Peer, me: int, now: int): Peer {
    p.(state := Candidate, currentTerm := p.currentTerm + 1, votedFor := me, lastHeartbeat := now,
       ballots := p.ballots[p.currentTerm + 1 := 1])
  }

  function ElectionArgs(p: Peer, me: int): VoteArgs {
    VoteArgs(p.currentTerm, me, 0, 0)
  }

  /** The reply goroutine of an election: n is the number of peers, args what the election sent. */
  function OnVoteReply(p: Peer, n: nat, args: VoteArgs, reply: VoteReply): Peer
    requires args.term in p.ballots
  {
    if p.currentTerm != args.term then p
    else if p.currentTerm < reply.term then p.(currentTerm := reply.term, state := Follower, votedFor := NOBODY)
    else if reply.voteGranted then
      var received := p.ballots[args.term] + 1;
      p.(ballots := p.ballots[args.term := received],
         state := if p.state == Candidate && received > n / 2 then Leader else p.state)
    else p
  }

  /** What a call of AppendEntries can come to. */
  datatype Answer = Rejected | Accepted | Panicked

  /** The guard of AppendEntries reads the fresh reply's Term, and it indexes Entries unchecked. */
  function AppendAnswer(p: Peer, args: AppendArgs, reply: AppendReply): Answer {
    if reply.term < p.currentTerm then Rejected
    else if !(0 <= args.prevLogIndex < |args.entries|) then Panicked
    else if args.entries[args.prevLogIndex].entryTerm != reply.term then Rejected
    else Accepted
  }

  /** AppendEntries. */
  function OnAppendEntries(p: Peer, args: AppendArgs, reply: AppendReply, now: int): (Peer, AppendReply) {
    match AppendAnswer(p, args, reply)
    case Rejected => (p, AppendReply(p.currentTerm, false))
    case Panicked => (p.(halted := true), reply)
    case Accepted =>
      (p.(currentTerm := args.term, state := Follower, votedFor := NOBODY, lastHeartbeat := now),
       AppendReply(args.term, true))
  }

  /** What broadcastHeartbeats sends, if the peer still leads when the sending goroutine runs. */
  function Heartbeat(p: Peer, me: int): Option<AppendArgs> {
    if p.state != Leader then None else Some(AppendArgs(p.currentTerm, me, 0, 0, [], 0))
  }

  /** The reply goroutine of a heartbeat. */
  function OnAppendReply(p: Peer, reply: AppendReply): Peer {
    if reply.term > p.currentTerm then p.(currentTerm := reply.term, state := Follower, votedFor := NOBODY) else p
  }

  /** The peers a candidate asks, in the order ticker walks them. */
  function Voters(me: int, n: nat): (r: seq<int>)
    ensures forall i :: 0 <= i < |r| ==> 0 <= r[i] < n && r[i] != me
    ensures NoRepeats(r)
    ensures |r| == if 0 <= me < n then n - 1 else n
  {
    if n == 0 then [] else Voters(me, n - 1) + if n - 1 == me then [] else [n - 1]
  }

  /** The rule a voter follows, as Figure 2 of the Raft paper states it apart from the log comparison. */
  lemma VoteRule(p: Peer, args: VoteArgs, now: int)
    requires args.candidateId != NOBODY
    ensures var (q, reply) := OnRequestVote(p, args, now);
      && (reply.voteGranted <==>
            args.term > p.currentTerm || (args.term == p.currentTerm && p.votedFor in {NOBODY, args.candidateId}))
      && q.currentTerm == (if args.term > p.currentTerm then args.term else p.currentTerm)
      && (reply.voteGranted ==>
            q.votedFor == args.candidateId && reply.term == q.currentTerm == args.term && q.lastHeartbeat == now)
      && (!reply.voteGranted ==> q == p && reply.term == 0)
      && q.ballots == p.ballots && q.halted == p.halted
      && (q.state == if args.term > p.currentTerm then Follower else p.state)
  {
  }

  /** A leader that hears back from a peer of a later term steps down into that term. */
  lemma StaleLeaderStepsDown(leader: Peer, me: int, peer: Peer, now: int)
    requires leader.state == Leader && 0 <= leader.currentTerm < peer.currentTerm
    ensures var reply := OnAppendEntries(peer, Heartbeat(leader, me).value, FRESH_APPEND_REPLY, now).1;
      var q := OnAppendReply(leader, reply);
      q.state == Follower && q.currentTerm == peer.currentTerm && q.votedFor == NOBODY
  {
  }

  /** Whichever reply tells a candidate or leader of a later term, it steps down into that term in the same way. */
  lemma SameStepDown(p: Peer, n: nat, args: VoteArgs, vote: VoteReply, beat: AppendReply)
    requires args.term in p.ballots && args.term == p.currentTerm < vote.term == beat.term
    ensures OnVoteReply(p, n, args, vote) == OnAppendReply(p, beat)
    ensures var q := OnAppendReply(p, beat);
      q.currentTerm == beat.term && q.state == Follower && q.votedFor == NOBODY
      && q.lastHeartbeat == p.lastHeartbeat && q.ballots == p.ballots && q.halted == p.halted
  {
  }

  /** A reply of no later term means nothing to the sender of a heartbeat. */
  lemma OldReplyIsIgnored(p: Peer, reply: AppendReply)
    requires reply.term <= p.currentTerm
    ensures OnAppendReply(p, reply) == p
  {
  }

  /** A refused heartbeat changes nothing at its receiver, whose term it learns. */
  lemma RefusalChangesNothing(p: Peer, args: AppendArgs, now: int)
    requires p.currentTerm > 0
    ensures OnAppendEntries(p, args, FRESH_APPEND_REPLY, now) == (p, AppendReply(p.currentTerm, false))
  {
  }

  /**
    Were a heartbeat accepted, its receiver would follow the sender's term and forget its vote, even for
    that very term: any candidate of the term would then get a second vote from it.
  */
  lemma AcceptanceForgetsVote(p: Peer, args: AppendArgs, reply: AppendReply, now: int, vote: VoteArgs)
    requires AppendAnswer(p, args, reply) == Accepted && vote.term == args.term
    ensures var (q, answer) := OnAppendEntries(p, args, reply, now);
      && answer == AppendReply(args.term, true) && q.currentTerm == args.term && q.state == Follower
      && q.lastHeartbeat == now && q.ballots == p.ballots && q.halted == p.halted
      && OnRequestVote(q, vote, now).1.voteGranted
  {
  }

  class Raft {
    const me: int
    const n: nat
    var currentTerm: int
    var votedFor: int
    var state: Role
    var lastHeartbeat: int
    var ballots: map<int, int>
    var halted: bool

    function Value(): Peer
      reads this
    {
      Peer(currentTerm, votedFor, state, lastHeartbeat, ballots, halted)
    }

    /** Make. */
    constructor (n: nat, me: int)
      ensures this.n == n && this.me == me
      ensures Value() == NEW_PEER
    {
      this.n, this.me := n, me;
      currentTerm, votedFor, state, lastHeartbeat, ballots, halted := 0, NOBODY, Follower, 0, map[], false;
    }

    /** GetState. */
    method GetState() returns (term: int, isLeader: bool)
      ensures term == Value().currentTerm && (isLeader <==> Value().state == Leader)
    {
      term := currentTerm;
      isLeader := state == Leader;
    }

    /** RequestVote: reply comes in fresh from the RPC layer. */
    method RequestVote(args: VoteArgs, now: int) returns (reply: VoteReply)
      modifies this
      ensures (Value(), reply) == OnRequestVote(old(Value()), args, now)
    {
      reply := FRESH_VOTE_REPLY;
      if currentTerm > args.term {
        return;
      } else if currentTerm < args.term {
        state := Follower;
        currentTerm := args.term;
        votedFor := NOBODY;
      }
      if votedFor != NOBODY && votedFor != args.candidateId {
        return;
      }
      votedFor := args.candidateId;
      lastHeartbeat := now;
      reply := VoteReply(currentTerm, true);
    }

    /** The election part of ticker; asked lists the peers a request is sent to. */
    method Tick(now: int, timeout: int) returns (args: VoteArgs, asked: seq<int>)
      modifies this
      ensures !ElectionDue(old(Value()), now, timeout) ==> Value() == old(Value()) && asked == []
      ensures ElectionDue(old(Value()), now, timeout) ==>
        Value() == StartElection(old(Value()), me, now) && args == ElectionArgs(Value(), me) && asked == Voters(me, n)
    {
      args, asked := VoteArgs(0, 0, 0, 0), [];
      if state != Leader && now - lastHeartbeat > timeout {
        state := Candidate;
        currentTerm := currentTerm + 1;
        votedFor := me;
        lastHeartbeat := now;
        args := VoteArgs(currentTerm, me, 0, 0);
        ballots := ballots[currentTerm := 1];
        for i := 0 to n
          invariant asked == Voters(me, i)
        {
          if i != me {
            asked := asked + [i];
          }
        }
      }
    }

    /** The reply goroutine of the election that sent args. */
    method VoteReplied(args: VoteArgs, reply: VoteReply)
      requires args.term in ballots
      modifies this
      ensures Value() == OnVoteReply(old(Value()), n, args, reply)
    {
      if currentTerm != args.term {
        return;
      }
      if currentTerm < reply.term {
        currentTerm := reply.term;
        state := Follower;
        votedFor := NOBODY;
        return;
      }
      if reply.voteGranted {
        ballots := ballots[args.term := ballots[args.term] + 1];
        if state == Candidate && ballots[args.term] > n / 2 {
          state := Leader;
        }
      }
    }

    /** AppendEntries; a panic halts the peer. */
    method AppendEntries(args: AppendArgs, now: int) returns (reply: AppendReply)
      modifies this
      ensures (Value(), reply) == OnAppendEntries(old(Value()), args, FRESH_APPEND_REPLY, now)
    {
      reply := FRESH_APPEND_REPLY;
      if !(reply.term < currentTerm) && !(0 <= args.prevLogIndex < |args.entries|) {
        halted := true;
        return;
      }
      if reply.term < currentTerm || args.entries[args.prevLogIndex].entryTerm != reply.term {
        reply := AppendReply(currentTerm, false);
        return;
      }
      currentTerm := args.term;
      state := Follower;
      votedFor := NOBODY;
      lastHeartbeat := now;
      reply := AppendReply(currentTerm, true);
    }

    /** The sending half of a broadcastHeartbeats goroutine. */
    method MakeHeartbeat() returns (args: Option<AppendArgs>)
      ensures args == Heartbeat(Value(), me)
    {
      if state != Leader {
        return None;
      }
      return Some(AppendArgs(currentTerm, me, 0, 0, [], 0));
    }

    /** The receiving half of a broadcastHeartbeats goroutine. */
    method AppendReplied(reply: AppendReply)
      modifies this
      ensures Value() == OnAppendReply(old(Value()), reply)
    {
      if reply.term > currentTerm {
        currentTerm := reply.term;
        state := Follower;
        votedFor := NOBODY;
      }
    }
  }
}

/** When elections start: src/raft1/raft.go's lastHeartbeat and the timeouts that ticker compares it with. */
module Timing {
  import opened Raft
  import opened Cluster
  import opened Election

  /** In the step from c to d peer p goes to a new term by its own clock. */
  predicate Stands(c: State, d: State, e: Event, p: int) {
    && e.Tick? && e.p == p && 0 <= p < |c.peers| == |d.peers|
    && d.peers[p].currentTerm > c.peers[p].currentTerm
  }

  /** In the step from c to d peer p grants a vote. */
  predicate Grants(c: State, d: State, e: Event, p: int) {
    && e.DeliverVote? && 0 <= e.k < |c.votes| == |d.votes| && d.votes[e.k].to == p
    && Granted(d.votes[e.k])
  }

  /** The last time before event i at which p stood or granted a vote; zero if there was none. */
  function Since(cs: seq<State>, es: seq<Event>, i: nat, p: int): int
    requires i <= |es| < |cs|
  {
    if i == 0 then 0
    else if Stands(cs[i - 1], cs[i], es[i - 1], p) then es[i - 1].now
    else if Grants(cs[i - 1], cs[i], es[i - 1], p) then es[i - 1].now
    else Since(cs, es, i - 1, p)
  }

  /** The timer moves exactly when the peer stands or grants; heartbeats, requests refused and replies leave it. */
  lemma TimerStep(c: State, e: Event, p: int)
    requires Inv(c) && Enabled(c, e) && 0 <= p < |c.peers|
    ensures var d := Next(c, e);
      && |d.peers| == |c.peers|
      && d.peers[p].lastHeartbeat
         == if Stands(c, d, e, p) || Grants(c, d, e, p) then e.now else c.peers[p].lastHeartbeat
  {
    if e.DeliverBeat? {
      HeartbeatsAreNeverAccepted(c, e.k);
    }
  }

  lemma {:induction false} TimerIsSince(n: nat, cs: seq<State>, es: seq<Event>, i: nat, p: int)
    requires IsRun(n, cs, es) && i <= |es| && 0 <= p < n
    ensures |cs[i].peers| == n && cs[i].peers[p].lastHeartbeat == Since(cs, es, i, p)
  {
    if i > 0 {
      TimerIsSince(n, cs, es, i - 1, p);
      RunInv(n, cs, es, i - 1);
      TimerStep(cs[i - 1], es[i - 1], p);
      assert cs[i - 1 + 1] == Next(cs[i - 1], es[i - 1]);
    }
  }

  lemma TickStands(c: State, p: int, now: int, timeout: int)
    requires Enabled(c, Tick(p, now, timeout))
    ensures Stands(c, Next(c, Tick(p, now, timeout)), Tick(p, now, timeout), p) <==>
      c.peers[p].state != Leader && now - c.peers[p].lastHeartbeat > timeout
  {
  }

  /** A tick starts an election exactly if the peer does not lead and did not stand or grant within the timeout. */
  lemma StandsWhenDue(n: nat, cs: seq<State>, es: seq<Event>, j: nat)
    requires IsRun(n, cs, es) && j < |es| && es[j].Tick?
    ensures var p := es[j].p;
      && 0 <= p < |cs[j].peers|
      && (Stands(cs[j], cs[j + 1], es[j], p) <==>
        cs[j].peers[p].state != Leader && es[j].now - Since(cs, es, j, p) > es[j].timeout)
  {
    var e := es[j];
    RunInv(n, cs, es, j);
    TimerIsSince(n, cs, es, j, e.p);
    TickStands(cs[j], e.p, e.now, e.timeout);
  }

  /** Standing is what Opens speaks of. */
  lemma OpensIsStanding(n: nat, cs: seq<State>, es: seq<Event>, j: nat, p: int, t: int)
    requires IsRun(n, cs, es) && j < |es|
    ensures Opens(cs, es, j, p, t) <==> Stands(cs[j], cs[j + 1], es[j], p) && cs[j + 1].peers[p].currentTerm == t
  {
    if es[j].Tick? {
      TickStands(cs[j], es[j].p, es[j].now, es[j].timeout);
    }
  }

  predicate Timed(e: Event) { e.Tick? || e.DeliverVote? }

  /** No clock reading falls behind an earlier one. */
  ghost predicate ClockRises(es: seq<Event>) {
    forall j, k :: 0 <= j < k < |es| && Timed(es[j]) && Timed(es[k]) ==> es[j].now <= es[k].now
  }

  lemma {:induction false} SinceIsLatest(cs: seq<State>, es: seq<Event>, j: nat, i: nat, p: int)
    requires j < i <= |es| < |cs| && ClockRises(es)
    requires Stands(cs[j], cs[j + 1], es[j], p) || Grants(cs[j], cs[j + 1], es[j], p)
    ensures Since(cs, es, i, p) >= es[j].now
  {
    if j < i - 1 {
      SinceIsLatest(cs, es, j, i - 1, p);
    }
  }

  /** After standing or granting a vote, a peer does not stand again before its timeout has passed. */
  lemma ElectionsAreSpaced(n: nat, cs: seq<State>, es: seq<Event>, j: nat, k: nat, p: int)
    requires IsRun(n, cs, es) && ClockRises(es) && j < k < |es|
    requires Stands(cs[j], cs[j + 1], es[j], p) || Grants(cs[j], cs[j + 1], es[j], p)
    requires Stands(cs[k], cs[k + 1], es[k], p)
    ensures es[k].now - es[j].now > es[k].timeout
  {
    StandsWhenDue(n, cs, es, k);
    SinceIsLatest(cs, es, j, k, p);
  }
}

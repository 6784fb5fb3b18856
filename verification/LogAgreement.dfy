/** What the log checks guarantee over whole runs in which they never report an error. */
module LogAgreement {
  import opened Applier

  /** All logs agree wherever two of them hold the same index. */
  ghost predicate Agree(srvs: seq<Srv>) {
    forall index :: Matching(srvs, index)
  }

  // ---- Without snapshots: applier ------------------------------------------------------

  /** A log misses nothing between its first command and any other. */
  ghost predicate Chained(x: Srv) {
    forall k :: k in x.logs && k > 1 ==> k - 1 in x.logs
  }

  /** Commands applied to servers in any order, none of them reported as an error. */
  ghost predicate IsPlainRun(ss: seq<seq<Srv>>, at: seq<int>, ms: seq<Msg>) {
    && |ss| == |ms| + 1 == |at| + 1
    && (forall i :: 0 <= i < |ss[0]| ==> ss[0][i].logs == map[])
    && forall n :: 0 <= n < |ms| ==>
         0 <= at[n] < |ss[n]| && ms[n].Command? && !Fails(ss[n], at[n], ms[n].index, ms[n].command)
         && ss[n + 1] == ss[n][at[n] := Log(ss[n][at[n]], ms[n].index, ms[n].command)]
  }

  lemma LogKeepsAgreement(srvs: seq<Srv>, i: int, index: int, v: Any)
    requires 0 <= i < |srvs| && Agree(srvs) && !Conflict(srvs, index, v)
    ensures Agree(srvs[i := Log(srvs[i], index, v)])
  {
    var next := srvs[i := Log(srvs[i], index, v)];
    forall k
      ensures Matching(next, k)
    {
      assert Matching(srvs, k);
    }
  }

  /** Without snapshots: as long as no error is reported, all logs agree and none has a gap. */
  lemma {:induction false} PlainRunsAgree(ss: seq<seq<Srv>>, at: seq<int>, ms: seq<Msg>, n: nat)
    requires IsPlainRun(ss, at, ms) && n <= |ms|
    ensures Agree(ss[n]) && forall i :: 0 <= i < |ss[n]| ==> Chained(ss[n][i])
  {
    if n > 0 {
      PlainRunsAgree(ss, at, ms, n - 1);
      LogKeepsAgreement(ss[n - 1], at[n - 1], ms[n - 1].index, ms[n - 1].command);
      assert ss[n - 1 + 1] == ss[n - 1][at[n - 1] := Log(ss[n - 1][at[n - 1]], ms[n - 1].index, ms[n - 1].command)];
    }
  }

  // ---- With snapshots: applierSnap --------------------------------------------------------

  /** Log entries 1 to lastApplied are all there and nothing lies beyond. */
  ghost predicate GapFree(x: Srv) {
    && 0 <= x.lastApplied
    && (forall j :: 1 <= j <= x.lastApplied ==> j in x.logs)
    && (forall j :: j in x.logs ==> 0 <= j <= x.lastApplied)
    && (0 in x.logs ==> x.logs[0] == Nil)
  }

  predicate WellFormed(p: Snap) {
    0 <= p.index && |p.xlog| == p.index + 1 && p.xlog[0] == Nil
  }

  /** x has everything in the snapshot. */
  ghost predicate Covers(x: Srv, p: Snap)
    requires WellFormed(p)
  {
    p.index <= x.lastApplied && forall j :: 1 <= j <= p.index ==> j in x.logs && x.logs[j] == p.xlog[j]
  }

  /** The checks report no error, and a snapshot handed to a server was produced by some server. */
  ghost predicate Passes(s: Sys, i: int, m: Msg) {
    0 <= i < |s.srvs| && !SnapFails(s.srvs, i, m) && (m.Snapshot? ==> m.snap in s.snaps)
  }

  /** The index is within snapshot p or the position of a server other than i. */
  predicate Within(s: Sys, i: int, p: Snap, index: int) {
    index <= p.index || exists b :: 0 <= b < |s.srvs| && b != i && index <= s.srvs[b].lastApplied
  }

  /** Once server i holds just what snapshot p holds, every produced snapshot is still within some server's log. */
  predicate StillReached(s: Sys, i: int, p: Snap) {
    forall k :: 0 <= k < |s.snaps| ==> Within(s, i, p, s.snaps[k].index)
  }

  ghost predicate Allowed(s: Sys, i: int, m: Msg) {
    Passes(s, i, m) && (m.Snapshot? ==> StillReached(s, i, m.snap))
  }

  ghost function Next(s: Sys, i: int, m: Msg): Sys
    requires 0 <= i < |s.srvs|
  {
    var x := SnapNext(s.srvs[i], m);
    Sys(s.srvs[i := x], s.snaps + if Snaps(m) then [TakeSnap(x)] else [])
  }

  ghost predicate Starting(s: Sys) {
    s.snaps == [] && forall i :: 0 <= i < |s.srvs| ==> s.srvs[i] == Srv(map[], 0)
  }

  /** Messages read by the servers in any order, none of them reported as an error. */
  ghost predicate Passing(ss: seq<Sys>, at: seq<int>, ms: seq<Msg>) {
    && |ss| == |ms| + 1 == |at| + 1
    && forall n :: 0 <= n < |ms| ==> Passes(ss[n], at[n], ms[n]) && ss[n + 1] == Next(ss[n], at[n], ms[n])
  }

  /** Such a sequence in which no ingested snapshot leaves another one beyond every server. */
  ghost predicate Continues(ss: seq<Sys>, at: seq<int>, ms: seq<Msg>) {
    Passing(ss, at, ms) && forall n :: 0 <= n < |ms| ==> Allowed(ss[n], at[n], ms[n])
  }

  ghost predicate SnapOk(s: Sys, p: Snap) {
    WellFormed(p) && exists a :: 0 <= a < |s.srvs| && Covers(s.srvs[a], p)
  }

  ghost predicate Inv(s: Sys) {
    && (forall i :: 0 <= i < |s.srvs| ==> GapFree(s.srvs[i]))
    && Agree(s.srvs)
    && forall k :: 0 <= k < |s.snaps| ==> SnapOk(s, s.snaps[k])
  }

  /** Log and snapshot hold the same wherever both reach. */
  ghost predicate LogAgrees(x: Srv, p: Snap)
    requires WellFormed(p)
  {
    forall j :: 0 <= j <= p.index && j in x.logs ==> x.logs[j] == p.xlog[j]
  }

  /** Two snapshots hold the same wherever both reach. */
  ghost predicate SnapsAgree(p: Snap, q: Snap)
    requires WellFormed(p) && WellFormed(q)
  {
    forall j :: 0 <= j <= p.index && j <= q.index ==> p.xlog[j] == q.xlog[j]
  }

  /** What the checks are for: logs without gaps, and no two entries for one index anywhere. */
  ghost predicate Sound(s: Sys) {
    && (forall i :: 0 <= i < |s.srvs| ==> GapFree(s.srvs[i]))
    && Agree(s.srvs)
    && (forall k :: 0 <= k < |s.snaps| ==> WellFormed(s.snaps[k]))
    && (forall i, k :: 0 <= i < |s.srvs| && 0 <= k < |s.snaps| ==> LogAgrees(s.srvs[i], s.snaps[k]))
    && (forall k, l :: 0 <= k < |s.snaps| && 0 <= l < |s.snaps| ==> SnapsAgree(s.snaps[k], s.snaps[l]))
  }

  /** A snapshot agrees with every log, because some log covers it. */
  lemma SnapMatchesLogs(s: Sys, p: Snap, b: int, j: int)
    requires Agree(s.srvs) && SnapOk(s, p)
    requires 0 <= b < |s.srvs| && 1 <= j <= p.index && j in s.srvs[b].logs
    ensures s.srvs[b].logs[j] == p.xlog[j]
  {
    var a :| 0 <= a < |s.srvs| && Covers(s.srvs[a], p);
    assert Matching(s.srvs, j);
  }

  /** A server that only gains still covers what it covered; the others are as they were. */
  lemma StillCovered(s: Sys, d: Sys, i: int, p: Snap)
    requires SnapOk(s, p) && 0 <= i < |s.srvs| == |d.srvs|
    requires forall b :: 0 <= b < |s.srvs| && b != i ==> d.srvs[b] == s.srvs[b]
    requires Covers(s.srvs[i], p) ==> Covers(d.srvs[i], p)
    ensures SnapOk(d, p)
  {
  }

  lemma CommandKeeps(s: Sys, i: int, m: Msg)
    requires Inv(s) && Allowed(s, i, m) && m.Command?
    ensures Inv(Next(s, i, m))
  {
    var d := Next(s, i, m);
    assert GapFree(s.srvs[i]);
    LogKeepsAgreement(s.srvs, i, m.index, m.command);
    var x := d.srvs[i];
    assert GapFree(x);
    var logged := s.srvs[i := Log(s.srvs[i], m.index, m.command)];
    assert forall b :: 0 <= b < |d.srvs| ==> d.srvs[b].logs == logged[b].logs;
    forall k
      ensures Matching(d.srvs, k)
    {
      assert Matching(logged, k);
    }
    forall k | 0 <= k < |d.snaps|
      ensures SnapOk(d, d.snaps[k])
    {
      if k < |s.snaps| {
        assert SnapOk(s, s.snaps[k]);
        StillCovered(s, d, i, s.snaps[k]);
      } else {
        assert Covers(d.srvs[i], d.snaps[k]);
      }
    }
  }

  lemma InvIsSound(s: Sys)
    requires Inv(s)
    ensures Sound(s)
  {
    forall i, k | 0 <= i < |s.srvs| && 0 <= k < |s.snaps|
      ensures LogAgrees(s.srvs[i], s.snaps[k])
    {
      SnapAgreesWithLog(s, k, i);
    }
    forall k, l | 0 <= k < |s.snaps| && 0 <= l < |s.snaps|
      ensures SnapsAgree(s.snaps[k], s.snaps[l])
    {
      SnapshotsAgree(s, k, l);
    }
  }

  lemma SnapAgreesWithLog(s: Sys, k: int, i: int)
    requires Inv(s) && 0 <= k < |s.snaps| && 0 <= i < |s.srvs|
    ensures LogAgrees(s.srvs[i], s.snaps[k])
  {
    var p := s.snaps[k];
    assert SnapOk(s, p) && GapFree(s.srvs[i]);
    forall j | 0 <= j <= p.index && j in s.srvs[i].logs
      ensures s.srvs[i].logs[j] == p.xlog[j]
    {
      if j > 0 {
        SnapMatchesLogs(s, p, i, j);
      }
    }
  }

  /** Two snapshots agree wherever both reach, because some log covers each of them. */
  lemma SnapshotsAgree(s: Sys, k: int, l: int)
    requires Inv(s) && 0 <= k < |s.snaps| && 0 <= l < |s.snaps|
    ensures WellFormed(s.snaps[k]) && WellFormed(s.snaps[l]) && SnapsAgree(s.snaps[k], s.snaps[l])
  {
    var p, q := s.snaps[k], s.snaps[l];
    assert SnapOk(s, p) && SnapOk(s, q);
    var a :| 0 <= a < |s.srvs| && Covers(s.srvs[a], p);
    SnapAgreesWithLog(s, l, a);
  }

  /** A server that has reached a snapshot's index has everything in the snapshot. */
  lemma ReachedIsCovered(s: Sys, b: int, k: int)
    requires Inv(s) && 0 <= b < |s.srvs| && 0 <= k < |s.snaps| && s.snaps[k].index <= s.srvs[b].lastApplied
    ensures WellFormed(s.snaps[k]) && Covers(s.srvs[b], s.snaps[k])
  {
    assert SnapOk(s, s.snaps[k]);
    SnapAgreesWithLog(s, k, b);
    assert GapFree(s.srvs[b]);
  }

  /** Once a produced snapshot is ingested, all logs still agree and none has a gap. */
  lemma IngestAgrees(s: Sys, i: int, p: Snap, d: seq<Srv>)
    requires Inv(s) && 0 <= i < |s.srvs| && p in s.snaps && d == s.srvs[i := Srv(Unpack(p.xlog), p.index)]
    ensures WellFormed(p) && Agree(d) && forall b :: 0 <= b < |d| ==> GapFree(d[b])
  {
    var n :| 0 <= n < |s.snaps| && s.snaps[n] == p;
    assert SnapOk(s, p);
    forall b | 0 <= b < |s.srvs|
      ensures LogAgrees(s.srvs[b], p)
    {
      SnapAgreesWithLog(s, n, b);
    }
    forall index
      ensures Matching(d, index)
    {
      assert Matching(s.srvs, index);
      assert forall b :: 0 <= b < |s.srvs| && index in s.srvs[b].logs && 0 <= index <= p.index ==>
        s.srvs[b].logs[index] == p.xlog[index];
    }
    forall b | 0 <= b < |d|
      ensures GapFree(d[b])
    {
      assert GapFree(s.srvs[b]);
    }
  }

  /** Ingesting a produced snapshot keeps the invariant if and only if every one stays within some server's reach. */
  lemma SnapshotKeeps(s: Sys, i: int, m: Msg)
    requires Inv(s) && Passes(s, i, m) && m.Snapshot?
    ensures Inv(Next(s, i, m)) <==> StillReached(s, i, m.snap)
  {
    var d, p := Next(s, i, m), m.snap;
    IngestAgrees(s, i, p, d.srvs);
    assert d.snaps == s.snaps;
    var n :| 0 <= n < |s.snaps| && s.snaps[n] == p;
    if StillReached(s, i, p) {
      forall k | 0 <= k < |s.snaps|
        ensures SnapOk(d, s.snaps[k])
      {
        SnapshotsAgree(s, k, n);
        if s.snaps[k].index <= p.index {
          assert Covers(d.srvs[i], s.snaps[k]);
        } else {
          var b :| 0 <= b < |s.srvs| && b != i && s.snaps[k].index <= s.srvs[b].lastApplied;
          ReachedIsCovered(s, b, k);
          assert Covers(d.srvs[b], s.snaps[k]);
        }
      }
    }
    if Inv(d) {
      forall k | 0 <= k < |s.snaps|
        ensures Within(s, i, p, s.snaps[k].index)
      {
        assert SnapOk(d, d.snaps[k]);
        var a :| 0 <= a < |d.srvs| && Covers(d.srvs[a], d.snaps[k]);
        assert a == i || d.srvs[a] == s.srvs[a];
      }
    }
  }

  lemma StepKeeps(s: Sys, i: int, m: Msg)
    requires Inv(s) && Allowed(s, i, m)
    ensures Inv(Next(s, i, m))
  {
    match m {
      case Command(_, _) => CommandKeeps(s, i, m);
      case Snapshot(_, _) => SnapshotKeeps(s, i, m);
      case NilSnapshot =>
      case Other => assert Next(s, i, m) == s;
    }
  }

  lemma {:induction false} ContinuesSoundly(ss: seq<Sys>, at: seq<int>, ms: seq<Msg>, n: nat)
    requires Continues(ss, at, ms) && Inv(ss[0]) && n <= |ms|
    ensures Inv(ss[n])
  {
    if n > 0 {
      ContinuesSoundly(ss, at, ms, n - 1);
      StepKeeps(ss[n - 1], at[n - 1], ms[n - 1]);
      assert ss[n - 1 + 1] == Next(ss[n - 1], at[n - 1], ms[n - 1]);
    }
  }

  /** In every such run from empty logs, all logs and all snapshots agree and every log is gap-free. */
  lemma SnapRunsAgree(ss: seq<Sys>, at: seq<int>, ms: seq<Msg>, n: nat)
    requires Continues(ss, at, ms) && Starting(ss[0]) && n <= |ms|
    ensures Sound(ss[n])
  {
    ContinuesSoundly(ss, at, ms, n);
    InvIsSound(ss[n]);
  }

  // ---- No false alarms --------------------------------------------------------------------

  /** The first n + 1 entries of a log that starts with the nil at index 0. */
  predicate IsLog(log: seq<Any>) { log != [] && log[0] == Nil }

  /** The server holds the entries 1 to lastApplied of the common log, and at most the nil before them. */
  ghost predicate Follows(x: Srv, log: seq<Any>)
    requires IsLog(log)
  {
    && 0 <= x.lastApplied < |log|
    && (forall j :: 1 <= j <= x.lastApplied ==> j in x.logs)
    && (forall j :: j in x.logs ==> 0 <= j <= x.lastApplied && x.logs[j] == log[j])
  }

  /** What Raft hands to a server when all servers agree on one log: its next entry, or a snapshot of any prefix. */
  predicate Delivers(x: Srv, m: Msg, log: seq<Any>) {
    match m
    case Command(v, index) => index == x.lastApplied + 1 && 0 <= index < |log| && v == log[index]
    case Snapshot(snap, index) =>
      0 <= snap.index < |log| && snap == Snap(snap.index, log[..snap.index + 1]) && (index == -1 || index == snap.index)
    case NilSnapshot => false
    case Other => true
  }

  /** Delivered what is agreed, a server reports no error and goes on following the log, of which it takes prefixes. */
  lemma AgreedDeliveryPasses(srvs: seq<Srv>, i: int, m: Msg, log: seq<Any>)
    requires IsLog(log) && 0 <= i < |srvs| && forall j :: 0 <= j < |srvs| ==> Follows(srvs[j], log)
    requires Delivers(srvs[i], m, log)
    ensures !SnapFails(srvs, i, m)
    ensures var x := SnapNext(srvs[i], m);
      && Follows(x, log) && TakeSnap(x) == Snap(x.lastApplied, log[..x.lastApplied + 1])
      && x.lastApplied == match m
                          case Command(_, index) => index
                          case Snapshot(snap, _) => snap.index
                          case NilSnapshot => srvs[i].lastApplied
                          case Other => srvs[i].lastApplied
  {
    assert Follows(srvs[i], log);
    var x := SnapNext(srvs[i], m);
    assert Follows(x, log);
    PrefixSnap(x, log);
  }

  lemma PrefixSnap(x: Srv, log: seq<Any>)
    requires IsLog(log) && Follows(x, log)
    ensures TakeSnap(x) == Snap(x.lastApplied, log[..x.lastApplied + 1])
  {
    var xlog := TakeSnap(x).xlog;
    forall j | 0 <= j <= x.lastApplied
      ensures xlog[j] == log[j]
    {
    }
    assert xlog == log[..x.lastApplied + 1];
  }

  /** Whatever the server has logged is the log's entry at that index. */
  ghost predicate HoldsOnly(x: Srv, log: seq<Any>) {
    forall k :: k in x.logs ==> 0 <= k < |log| && x.logs[k] == log[k]
  }

  /** applier reports no error either when servers log entries of one common log, each in order. */
  lemma AgreedCommandPasses(srvs: seq<Srv>, i: int, index: int, log: seq<Any>)
    requires 0 <= i < |srvs| && 1 <= index < |log| && (index == 1 || index - 1 in srvs[i].logs)
    requires forall j :: 0 <= j < |srvs| ==> HoldsOnly(srvs[j], log)
    ensures !Fails(srvs, i, index, log[index])
    ensures var x := Log(srvs[i], index, log[index]);
      HoldsOnly(x, log) && x.logs.Keys == srvs[i].logs.Keys + {index}
  {
    assert HoldsOnly(srvs[i], log);
  }

  ghost predicate AgreedRun(ss: seq<Sys>, at: seq<int>, ms: seq<Msg>, log: seq<Any>) {
    && |ss| == |ms| + 1 == |at| + 1 && IsLog(log) && Starting(ss[0])
    && forall n :: 0 <= n < |ms| ==>
         0 <= at[n] < |ss[n].srvs| && Delivers(ss[n].srvs[at[n]], ms[n], log) && ss[n + 1] == Next(ss[n], at[n], ms[n])
  }

  /** The snapshots so far are prefixes of the log that end at every tenth index counted from nine. */
  ghost predicate PrefixSnaps(snaps: seq<Snap>, log: seq<Any>) {
    forall k :: 0 <= k < |snaps| ==>
      && 0 <= snaps[k].index < |log| && snaps[k] == Snap(snaps[k].index, log[..snaps[k].index + 1])
      && snaps[k].index % 10 == 9
  }

  lemma AgreedStep(s: Sys, i: int, m: Msg, log: seq<Any>)
    requires IsLog(log) && 0 <= i < |s.srvs| && Delivers(s.srvs[i], m, log) && PrefixSnaps(s.snaps, log)
    requires forall j :: 0 <= j < |s.srvs| ==> Follows(s.srvs[j], log)
    ensures !SnapFails(s.srvs, i, m) && PrefixSnaps(Next(s, i, m).snaps, log)
    ensures forall j :: 0 <= j < |Next(s, i, m).srvs| ==> Follows(Next(s, i, m).srvs[j], log)
  {
    AgreedDeliveryPasses(s.srvs, i, m, log);
  }

  /** While Raft delivers one agreed log, no check ever reports an error and every server follows the log. */
  lemma {:induction false} NoFalseAlarms(ss: seq<Sys>, at: seq<int>, ms: seq<Msg>, log: seq<Any>, n: nat)
    requires AgreedRun(ss, at, ms, log) && n <= |ms|
    ensures forall i :: 0 <= i < |ss[n].srvs| ==> Follows(ss[n].srvs[i], log)
    ensures PrefixSnaps(ss[n].snaps, log)
    ensures n < |ms| ==> !SnapFails(ss[n].srvs, at[n], ms[n])
  {
    if n > 0 {
      NoFalseAlarms(ss, at, ms, log, n - 1);
      AgreedStep(ss[n - 1], at[n - 1], ms[n - 1], log);
      assert ss[n - 1 + 1] == Next(ss[n - 1], at[n - 1], ms[n - 1]);
    }
    if n < |ms| {
      AgreedStep(ss[n], at[n], ms[n], log);
    }
  }

  // ---- The condition is exact -----------------------------------------------------------

  /** The furthest of the first n servers. */
  lemma {:induction false} Furthest(srvs: seq<Srv>, n: nat) returns (f: int)
    requires 0 < n <= |srvs|
    ensures 0 <= f < n && forall b :: 0 <= b < n ==> srvs[b].lastApplied <= srvs[f].lastApplied
  {
    f := 0;
    if n > 1 {
      f := Furthest(srvs, n - 1);
      if srvs[n - 1].lastApplied > srvs[f].lastApplied {
        f := n - 1;
      }
    }
  }

  /** A snapshot that is beyond every server can be contradicted by the next command, which passes every check. */
  lemma UnreachedIsContradicted(d: Sys, k: int) returns (f: int, other: Msg)
    requires |d.srvs| > 0 && 0 <= k < |d.snaps| && WellFormed(d.snaps[k])
    requires forall b :: 0 <= b < |d.srvs| ==> GapFree(d.srvs[b]) && d.srvs[b].lastApplied < d.snaps[k].index
    ensures other.Command? && Passes(d, f, other) && 0 <= other.index < |d.snaps[k].xlog|
    ensures other.index in Next(d, f, other).srvs[f].logs && d.snaps[k] in Next(d, f, other).snaps
    ensures Next(d, f, other).srvs[f].logs[other.index] != d.snaps[k].xlog[other.index]
    ensures !Sound(Next(d, f, other))
  {
    f := Furthest(d.srvs, |d.srvs|);
    var index := d.srvs[f].lastApplied + 1;
    other := Command(if d.snaps[k].xlog[index] == Cmd(0) then Cmd(1) else Cmd(0), index);
    assert GapFree(d.srvs[f]);
    forall b | 0 <= b < |d.srvs|
      ensures index !in d.srvs[b].logs
    {
      assert GapFree(d.srvs[b]);
    }
    var e := Next(d, f, other);
    assert e.snaps[k] == d.snaps[k];
    assert !LogAgrees(e.srvs[f], e.snaps[k]);
  }

  /** However the servers go on, everything stays sound, as long as later ingests leave no snapshot unreached. */
  ghost predicate StaysSound(d: Sys) {
    forall ss: seq<Sys>, at: seq<int>, ms: seq<Msg> :: Continues(ss, at, ms) && ss[0] == d ==> Sound(ss[|ms|])
  }

  lemma InvStaysSound(d: Sys)
    requires Inv(d)
    ensures StaysSound(d)
  {
    forall ss: seq<Sys>, at: seq<int>, ms: seq<Msg> | Continues(ss, at, ms) && ss[0] == d
      ensures Sound(ss[|ms|])
    {
      ContinuesSoundly(ss, at, ms, |ms|);
      InvIsSound(ss[|ms|]);
    }
  }

  lemma UnreachedBreaks(d: Sys, k: int)
    requires |d.srvs| > 0 && 0 <= k < |d.snaps| && WellFormed(d.snaps[k])
    requires forall b :: 0 <= b < |d.srvs| ==> GapFree(d.srvs[b]) && d.srvs[b].lastApplied < d.snaps[k].index
    ensures !StaysSound(d)
  {
    var f, other := UnreachedIsContradicted(d, k);
    var ss, at, ms := [d, Next(d, f, other)], [f], [other];
    assert Continues(ss, at, ms) && ss[0] == d && !Sound(ss[|ms|]);
  }

  /**
    A produced snapshot may be ingested without harm if and only if every produced snapshot stays within
    some server's reach: however the servers go on, as long as later ingests keep to the same rule.
  */
  lemma SafeToIngest(s: Sys, i: int, m: Msg)
    requires Inv(s) && Passes(s, i, m) && m.Snapshot?
    ensures StaysSound(Next(s, i, m)) <==> StillReached(s, i, m.snap)
  {
    var d := Next(s, i, m);
    SnapshotKeeps(s, i, m);
    if StillReached(s, i, m.snap) {
      InvStaysSound(d);
    } else {
      var k :| 0 <= k < |s.snaps| && !Within(s, i, m.snap, s.snaps[k].index);
      IngestAgrees(s, i, m.snap, d.srvs);
      assert SnapOk(s, s.snaps[k]) && d.snaps == s.snaps;
      UnreachedBreaks(d, k);
    }
  }

  /** The order check against the previous index never decides: the one against lastApplied already has. */
  lemma PreviousIsPresent(s: Sys, i: int, v: Any, index: int)
    requires Inv(s) && 0 <= i < |s.srvs| && index == s.srvs[i].lastApplied + 1
    ensures SnapFails(s.srvs, i, Command(v, index)) <==> Conflict(s.srvs, index, v)
  {
  }

  /** A server that has applied the same command at every index up to n. */
  function Filled(n: nat): (x: Srv)
    ensures x.lastApplied == n && forall j :: j in x.logs <==> 1 <= j <= n
    ensures forall j :: j in x.logs ==> x.logs[j] == Cmd(0)
  {
    if n == 0 then Srv(map[], 0) else Srv(Filled(n - 1).logs[n := Cmd(0)], n)
  }

  lemma Extend(ss: seq<Sys>, at: seq<int>, ms: seq<Msg>, i: int, m: Msg)
    requires Passing(ss, at, ms) && Passes(ss[|ms|], i, m)
    ensures Passing(ss + [Next(ss[|ms|], i, m)], at + [i], ms + [m])
  {
  }

  /** The snapshots a server hands over while it applies n commands are all known. */
  ghost predicate Handed(snaps: seq<Snap>, n: nat) {
    forall k: nat :: 1 <= k <= n && (k + 1) % SNAPSHOT_INTERVAL == 0 ==> TakeSnap(Filled(k)) in snaps
  }

  lemma FillPasses(s: Sys, n: nat)
    requires n > 0 && s.srvs == [Filled(n - 1)]
    ensures Passes(s, 0, Command(Cmd(0), n)) && SnapNext(s.srvs[0], Command(Cmd(0), n)) == Filled(n)
  {
    assert s.srvs[0] == Filled(n - 1);
  }

  lemma HandedNext(snaps: seq<Snap>, n: nat, taken: seq<Snap>)
    requires n > 0 && taken == if (n + 1) % SNAPSHOT_INTERVAL == 0 then [TakeSnap(Filled(n))] else []
    requires Handed(snaps, n - 1)
    ensures Handed(snaps + taken, n)
  {
    forall k: nat | 1 <= k <= n && (k + 1) % SNAPSHOT_INTERVAL == 0
      ensures TakeSnap(Filled(k)) in snaps + taken
    {
      if k < n {
        assert TakeSnap(Filled(k)) in snaps;
      } else {
        assert taken[0] in taken;
      }
    }
  }

  /** A single server applies n commands. */
  lemma {:induction false} FillingRun(n: nat) returns (ss: seq<Sys>, at: seq<int>, ms: seq<Msg>)
    ensures Passing(ss, at, ms) && |ms| == n && Starting(ss[0]) && |ss[0].srvs| == 1
    ensures ss[n].srvs == [Filled(n)] && Handed(ss[n].snaps, n) && forall k :: 0 <= k < n ==> ms[k].Command?
  {
    if n == 0 {
      ss, at, ms := [Sys([Filled(0)], [])], [], [];
    } else {
      ss, at, ms := FillingRun(n - 1);
      var s, m := ss[n - 1], Command(Cmd(0), n);
      var d := Next(s, 0, m);
      FillPasses(s, n);
      HandedNext(s.snaps, n, d.snaps[|s.snaps|..]);
      Extend(ss, at, ms, 0, m);
      ss, at, ms := ss + [d], at + [0], ms + [m];
    }
  }

  /**
    Ingesting a produced snapshot that leaves another beyond reach does break agreement in runs from empty
    logs: a server that has handed over snapshots at a and b falls back to a, and a different command at
    a + 1 then contradicts the snapshot at b. No check reports anything.
  */
  lemma StaleSnapshotBreaksAgreement(a: nat, b: nat) returns (ss: seq<Sys>, at: seq<int>, ms: seq<Msg>, late: Snap)
    requires 0 < a < b && (a + 1) % SNAPSHOT_INTERVAL == (b + 1) % SNAPSHOT_INTERVAL == 0
    ensures Passing(ss, at, ms) && Starting(ss[0]) && |ss[0].srvs| == 1
    ensures |ms| == b + 2
    ensures forall k :: 0 <= k < |ms| ==> if k == b then ms[k].Snapshot? && ms[k].snap.index == a else ms[k].Command?
    ensures late in ss[b + 2].snaps && late.index == b && WellFormed(late)
    ensures |ss[b + 2].srvs| == 1 && a + 1 in ss[b + 2].srvs[0].logs
    ensures ss[b + 2].srvs[0].logs[a + 1] != late.xlog[a + 1]
  {
    ss, at, ms := FillingRun(b);
    late := TakeSnap(Filled(b));
    var stale, other := Snapshot(TakeSnap(Filled(a)), a), Command(Cmd(1), a + 1);
    var s := ss[b];
    var d := Next(s, 0, stale);
    Extend(ss, at, ms, 0, stale);
    Extend(ss + [d], at + [0], ms + [stale], 0, other);
    ss, at, ms := ss + [d] + [Next(d, 0, other)], at + [0] + [0], ms + [stale] + [other];
    assert late.xlog[a + 1] == Cmd(0);
  }
}

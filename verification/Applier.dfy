/**
  The readers of the apply channels and the log checks they make: src/raft1/server.go and
  src/raft1/test.go.
*/
module Applier {

  const SNAPSHOT_INTERVAL := 10

  /** A command, or the nil that stands for a missing one in a snapshot. */
  datatype Any = Nil | Cmd(v: int)

  datatype Snap = Snap(index: int, xlog: seq<Any>)

  datatype Msg = Command(command: Any, index: int) | Snapshot(snap: Snap, snapIndex: int) | NilSnapshot | Other

  /** The value of one server's applier state. */
  datatype Srv = Srv(logs: map<int, Any>, lastApplied: int)

  /** All servers, and every snapshot that some server has produced. */
  datatype Sys = Sys(srvs: seq<Srv>, snaps: seq<Snap>)

  /** Some server has logged a different command at this index. */
  predicate Conflict(srvs: seq<Srv>, index: int, v: Any) {
    exists j :: 0 <= j < |srvs| && index in srvs[j].logs && srvs[j].logs[index] != v
  }

  function Log(x: Srv, index: int, v: Any): Srv {
    x.(logs := x.logs[index := v])
  }

  /** When the checks of applier report an error. */
  predicate Fails(srvs: seq<Srv>, i: int, index: int, v: Any)
    requires 0 <= i < |srvs|
  {
    Conflict(srvs, index, v) || (index > 1 && index - 1 !in srvs[i].logs)
  }

  /** The log with the missing entries as nil, which applierSnap hands to Snapshot. */
  function TakeSnap(x: Srv): Snap {
    var n := if x.lastApplied < 0 then 0 else x.lastApplied + 1;
    Snap(x.lastApplied, seq(n, j requires 0 <= j < n => if j in x.logs then x.logs[j] else Nil))
  }

  function Unpack(xlog: seq<Any>): map<int, Any> {
    map j | 0 <= j < |xlog| :: xlog[j]
  }

  /** When applierSnap reports an error on a message. */
  predicate SnapFails(srvs: seq<Srv>, i: int, m: Msg)
    requires 0 <= i < |srvs|
  {
    match m
    case Command(v, index) => index != srvs[i].lastApplied + 1 || Fails(srvs, i, index, v)
    case Snapshot(snap, index) => index != -1 && index != snap.index
    case NilSnapshot => true
    case Other => false
  }

  /** What applierSnap does to its own server when it reports no error. */
  function SnapNext(x: Srv, m: Msg): Srv {
    match m
    case Command(v, index) => Log(x, index, v).(lastApplied := index)
    case Snapshot(snap, _) => Srv(Unpack(snap.xlog), snap.index)
    case NilSnapshot => x
    case Other => x
  }

  /** Every tenth command is followed by a snapshot. */
  predicate Snaps(m: Msg) {
    m.Command? && (m.index + 1) % SNAPSHOT_INTERVAL == 0
  }

  // ---- The objects --------------------------------------------------------------------

  class Rfsrv {
    var logs: map<int, Any>
    var lastApplied: int
    /** A recorded apply error. It is assigned only after log.Fatalf, which ends the program. */
    var applyErr: bool

    function Value(): Srv
      reads this
    {
      Srv(logs, lastApplied)
    }

    constructor ()
      ensures Value() == Srv(map[], 0) && !applyErr
    {
      logs, lastApplied, applyErr := map[], 0, false;
    }

    /** ingestSnap; false stands for an error. */
    method IngestSnap(snap: Snap, index: int) returns (ok: bool)
      modifies this`logs, this`lastApplied
      ensures ok <==> index == -1 || index == snap.index
      ensures Value() == if ok then Srv(Unpack(snap.xlog), snap.index) else old(Value())
      ensures ok ==> lastApplied == snap.index && forall j :: j in logs <==> 0 <= j < |snap.xlog|
      ensures ok ==> forall j :: 0 <= j < |snap.xlog| ==> logs[j] == snap.xlog[j]
    {
      if index != -1 && index != snap.index {
        return false;
      }
      logs := map[];
      for j := 0 to |snap.xlog|
        invariant logs == Unpack(snap.xlog[..j])
      {
        logs := logs[j := snap.xlog[j]];
      }
      assert snap.xlog[..|snap.xlog|] == snap.xlog;
      lastApplied := snap.index;
      return true;
    }

    /** The encoding loop of applierSnap. */
    method MakeSnap() returns (snap: Snap)
      ensures snap == TakeSnap(Value())
    {
      var xlog: seq<Any> := [];
      var j := 0;
      while j <= lastApplied
        invariant j == 0 || j <= lastApplied + 1
        invariant |xlog| == j && forall k :: 0 <= k < j ==> xlog[k] == if k in logs then logs[k] else Nil
      {
        xlog := xlog + [if j in logs then logs[j] else Nil];
        j := j + 1;
      }
      snap := Snap(lastApplied, xlog);
    }
  }

  class Tester {
    const srvs: seq<Rfsrv>
    var maxIndex: int

    ghost predicate Valid() {
      forall i, j :: 0 <= i < j < |srvs| ==> srvs[i] != srvs[j]
    }

    ghost function Values(): (r: seq<Srv>)
      reads set x | x in srvs
      ensures |r| == |srvs| && forall i :: 0 <= i < |srvs| ==> r[i] == srvs[i].Value()
    {
      seq(|srvs|, i requires 0 <= i < |srvs| reads set x | x in srvs => srvs[i].Value())
    }

    constructor (srvs: seq<Rfsrv>)
      ensures this.srvs == srvs && maxIndex == 0
    {
      this.srvs := srvs;
      maxIndex := 0;
    }

    /** checkLogs: it compares with every server first and then logs the command in any case. */
    method CheckLogs(i: int, v: Any, index: int) returns (clash: bool, prevok: bool)
      requires Valid() && 0 <= i < |srvs|
      modifies this, srvs[i]
      ensures srvs[i].applyErr == old(srvs[i].applyErr)
      ensures clash <==> Conflict(old(Values()), index, v)
      ensures prevok <==> index - 1 in old(srvs[i].logs)
      ensures Values() == old(Values())[i := Log(old(srvs[i].Value()), index, v)]
      ensures maxIndex == if index > old(maxIndex) then index else old(maxIndex)
    {
      clash := false;
      for j := 0 to |srvs|
        invariant clash <==> exists k :: 0 <= k < j && index in srvs[k].logs && srvs[k].logs[index] != v
      {
        if index in srvs[j].logs && srvs[j].logs[index] != v {
          clash := true;
        }
      }
      assert forall k :: 0 <= k < |srvs| ==> Values()[k].logs == srvs[k].logs;
      var me := srvs[i];
      prevok := index - 1 in me.logs;
      me.logs := me.logs[index := v];
      if index > maxIndex {
        maxIndex := index;
      }
      assert Values() == old(Values())[i := Log(old(srvs[i].Value()), index, v)];
    }

    /** One message read by applier; failed stands for the fatal apply error. */
    method Apply(i: int, m: Msg) returns (failed: bool)
      requires Valid() && 0 <= i < |srvs|
      modifies this, srvs[i]
      ensures srvs[i].applyErr == old(srvs[i].applyErr)
      ensures failed <==> m.Command? && Fails(old(Values()), i, m.index, m.command)
      ensures Values() == if m.Command?
                          then old(Values())[i := Log(old(srvs[i].Value()), m.index, m.command)]
                          else old(Values())
    {
      failed := false;
      if m.Command? {
        var clash, prevok := CheckLogs(i, m.command, m.index);
        failed := clash || (m.index > 1 && !prevok);
      }
    }

    /** One message read by applierSnap, which may hand a snapshot to Raft. */
    method ApplySnap(i: int, m: Msg) returns (failed: bool, taken: seq<Snap>)
      requires Valid() && 0 <= i < |srvs|
      modifies this, srvs[i]
      ensures srvs[i].applyErr == old(srvs[i].applyErr)
      ensures failed <==> SnapFails(old(Values()), i, m)
      ensures !failed ==> Values() == old(Values())[i := SnapNext(old(srvs[i].Value()), m)]
      ensures !failed ==> taken == if Snaps(m) then [TakeSnap(srvs[i].Value())] else []
    {
      failed, taken := false, [];
      match m {
        case Snapshot(snap, index) =>
          var ok := srvs[i].IngestSnap(snap, index);
          failed := !ok;
        case NilSnapshot =>
          failed := true;
        case Command(v, index) =>
          if index != srvs[i].lastApplied + 1 {
            failed := true;
          } else {
            var clash, prevok := CheckLogs(i, v, index);
            failed := clash || (index > 1 && !prevok);
          }
          srvs[i].lastApplied := index;
          if (index + 1) % SNAPSHOT_INTERVAL == 0 {
            var snap := srvs[i].MakeSnap();
            taken := [snap];
          }
        case Other =>
      }
    }

    /** nCommitted: how many servers hold this index and what they hold; ok is false if it ends the test. */
    method NCommitted(index: int) returns (count: nat, cmd: Any, ok: bool)
      requires Valid()
      ensures ok <==> Matching(Values(), index) && forall j :: 0 <= j < |srvs| ==> !srvs[j].applyErr
      ensures ok ==> count == |Holders(Values(), index, |srvs|)|
      ensures ok ==> forall j :: 0 <= j < |srvs| && index in Values()[j].logs ==> Values()[j].logs[index] == cmd
    {
      count, cmd := 0, Nil;
      ghost var s := Values();
      for j := 0 to |srvs|
        invariant count == |Holders(s, index, j)|
        invariant count > 0 ==> exists k :: 0 <= k < j && index in s[k].logs
        invariant forall k :: 0 <= k < j ==> !srvs[k].applyErr
        invariant forall k :: 0 <= k < j && index in s[k].logs ==> count > 0 && s[k].logs[index] == cmd
      {
        assert s[j].logs == srvs[j].logs;
        HoldersNext(s, index, j);
        if srvs[j].applyErr {
          return count, cmd, false;
        }
        if index in srvs[j].logs {
          if count > 0 && cmd != srvs[j].logs[index] {
            return count, cmd, false;
          }
          count, cmd := count + 1, srvs[j].logs[index];
        }
      }
      ok := true;
    }
  }

  /** Those of the first n servers that hold the index. */
  function Holders(srvs: seq<Srv>, index: int, n: nat): set<int>
    requires n <= |srvs|
  {
    set j | 0 <= j < n && index in srvs[j].logs
  }

  lemma HoldersNext(srvs: seq<Srv>, index: int, n: nat)
    requires n < |srvs|
    ensures |Holders(srvs, index, n + 1)| == |Holders(srvs, index, n)| + if index in srvs[n].logs then 1 else 0
  {
    assert Holders(srvs, index, n + 1) == Holders(srvs, index, n) + if index in srvs[n].logs then {n} else {};
  }

  ghost predicate Matching(srvs: seq<Srv>, index: int) {
    forall j, k :: 0 <= j < |srvs| && 0 <= k < |srvs| && index in srvs[j].logs && index in srvs[k].logs ==>
      srvs[j].logs[index] == srvs[k].logs[index]
  }
}

/** Persisted state across server generations: src/tester1/persister.go and src/tester1/srv.go. */
module Persister {

  /** The bytes of a slice; null is the nil slice. */
  ghost function Bytes(a: array?<int>): seq<int>
    reads a
  {
    if a == null then [] else a[..]
  }

  /** clone. */
  method Clone(orig: array?<int>) returns (x: array<int>)
    ensures fresh(x) && x[..] == Bytes(orig)
  {
    if orig == null {
      return new int[0];
    }
    x := new int[orig.Length](_ => 0);
    for i := 0 to orig.Length
      invariant x[..i] == orig[..i]
    {
      x[i] := orig[i];
    }
  }

  class Persister {
    var raftstate: array?<int>
    var snapshot: array?<int>

    /** What a reader of this persister sees. */
    ghost function Contents(): (seq<int>, seq<int>)
      reads this, raftstate, snapshot
    {
      (Bytes(raftstate), Bytes(snapshot))
    }

    /** MakePersister. */
    constructor ()
      ensures Contents() == ([], [])
    {
      raftstate, snapshot := null, null;
    }

    /** Copy: a new persister over the same two buffers. */
    method Copy() returns (np: Persister)
      ensures fresh(np) && np.raftstate == raftstate && np.snapshot == snapshot
      ensures np.Contents() == Contents()
    {
      np := new Persister();
      np.raftstate := raftstate;
      np.snapshot := snapshot;
    }

    /** ReadRaftState. */
    method ReadRaftState() returns (r: array<int>)
      ensures fresh(r) && r[..] == Contents().0
    {
      r := Clone(raftstate);
    }

    /** ReadSnapshot. */
    method ReadSnapshot() returns (r: array<int>)
      ensures fresh(r) && r[..] == Contents().1
    {
      r := Clone(snapshot);
    }

    /** Save: it replaces the buffers and never writes into one, so sharers are not disturbed. */
    method Save(raftstate: array?<int>, snapshot: array?<int>)
      modifies this
      ensures Contents() == old((Bytes(raftstate), Bytes(snapshot)))
      ensures this.raftstate != null && this.snapshot != null && fresh(this.raftstate) && fresh(this.snapshot)
    {
      var r := Clone(raftstate);
      var s := Clone(snapshot);
      this.raftstate, this.snapshot := r, s;
    }
  }

  /**
    One server slot of a group over its generations. instances[g] is the persister handed to
    generation g, which that generation may go on saving to for ever. durable is what the
    specification promises: the state last saved by the generation that was live at the time.
  */
  class Slot {
    var saved: Persister?
    var instances: seq<Persister>
    var live: bool
    ghost var durable: (seq<int>, seq<int>)

    ghost predicate Valid()
      reads this, saved, if saved == null then {} else {saved.raftstate, saved.snapshot}
    {
      && (forall g, h :: 0 <= g < h < |instances| ==> instances[g] != instances[h])
      && (if saved == null then durable == ([], []) && instances == [] && !live else saved.Contents() == durable)
      && (live ==> instances != [] && saved == instances[|instances| - 1])
      && (!live ==> forall g :: 0 <= g < |instances| ==> saved != instances[g])
    }

    ghost function Kept(): Promise
      reads this
    {
      Promise(|instances|, live, durable)
    }

    /** A slot that was never started. */
    constructor ()
      ensures Valid() && durable == ([], []) && instances == [] && saved == null
    {
      saved, instances, live, durable := null, [], false, ([], []);
    }

    /** startServer: the new generation gets a fresh persister that reads as the durable state. */
    method StartServer()
      requires Valid()
      modifies this
      ensures Valid() && durable == old(durable) && live
      ensures |instances| == |old(instances)| + 1 && instances[..|old(instances)|] == old(instances)
      ensures fresh(instances[|old(instances)|]) && instances[|old(instances)|].Contents() == durable
    {
      var p: Persister;
      if saved != null {
        p := saved.Copy();
      } else {
        p := new Persister();
      }
      saved := p;
      instances := instances + [p];
      live := true;
    }

    /** shutdownServer, after which a killed service saves its state once more to its own persister. */
    method ShutdownServer()
      requires Valid()
      modifies this, saved
      ensures Valid() && durable == old(durable) && instances == old(instances) && !live
      ensures saved != null ==> fresh(saved)
    {
      if saved != null {
        var prior, running := saved, live;
        saved := prior.Copy();
        live := false;
        if running {
          var raftlog := prior.ReadRaftState();
          var snap := prior.ReadSnapshot();
          prior.Save(raftlog, snap);
        }
      }
    }

    /** A generation saves: it counts only if that generation is the live one. */
    method InstanceSave(g: nat, raftstate: array?<int>, snapshot: array?<int>)
      requires Valid() && g < |instances|
      modifies this`durable, instances[g]
      ensures Valid()
      ensures durable == if live && g == |instances| - 1 then old((Bytes(raftstate), Bytes(snapshot))) else old(durable)
      ensures instances[g].Contents() == old((Bytes(raftstate), Bytes(snapshot)))
    {
      instances[g].Save(raftstate, snapshot);
      if live && g == |instances| - 1 {
        durable := instances[g].Contents();
      }
    }
  }

  // ---- Any number of generations -----------------------------------------------------

  /** What can happen to a slot; any generation, however old, may save at any time. */
  datatype Act = Start | Stop | SaveBy(g: nat, raftstate: seq<int>, snapshot: seq<int>)

  /** The promise: how many generations there have been, whether one is live, and what counts as saved. */
  datatype Promise = Promise(count: nat, live: bool, durable: (seq<int>, seq<int>))

  function Play(script: seq<Act>): Promise {
    if script == [] then Promise(0, false, ([], []))
    else After(Play(script[..|script| - 1]), script[|script| - 1])
  }

  /** Act j saves, and the generation that saves is the one that is live. */
  predicate SavesLive(script: seq<Act>, j: int) {
    && 0 <= j < |script| && script[j].SaveBy?
    && Play(script[..j]).live && script[j].g + 1 == Play(script[..j]).count
  }

  predicate LastStart(script: seq<Act>, j: int) {
    0 <= j < |script| && script[j] == Start && forall k :: j < k < |script| ==> script[k] != Stop
  }

  /** A generation is counted per start, and the newest is live unless a stop has followed. */
  lemma {:induction false} PlayCounts(script: seq<Act>)
    ensures Play(script).count == multiset(script)[Start]
    ensures Play(script).live <==> exists j :: LastStart(script, j)
    decreases |script|
  {
    if script != [] {
      var init, act := script[..|script| - 1], script[|script| - 1];
      PlayCounts(init);
      assert script == init + [act];
      if j :| LastStart(init, j) {
        assert act != Stop ==> LastStart(script, j);
      }
      if j :| LastStart(script, j) {
        assert j < |init| ==> LastStart(init, j);
      }
      if act == Start {
        assert LastStart(script, |init|);
      }
    }
  }

  /** What counts as saved is what the last save of a then live generation wrote, or nothing before the first. */
  lemma {:induction false} DurableIsLastLiveSave(script: seq<Act>, j: int)
    requires forall k :: j < k < |script| ==> !SavesLive(script, k)
    requires j == -1 || SavesLive(script, j)
    ensures Play(script).durable == if j == -1 then ([], []) else (script[j].raftstate, script[j].snapshot)
    decreases |script|
  {
    if script != [] {
      var n := |script| - 1;
      var init := script[..n];
      forall k | 0 <= k < n
        ensures SavesLive(script, k) <==> SavesLive(init, k)
      {
        assert script[..k] == init[..k];
      }
      assert SavesLive(script, n) <==> script[n].SaveBy? && Play(init).live && script[n].g + 1 == Play(init).count;
      if j != n {
        DurableIsLastLiveSave(init, j);
      }
    }
  }

  method FromBytes(s: seq<int>) returns (a: array<int>)
    ensures fresh(a) && a[..] == s
  {
    a := new int[|s|](i requires 0 <= i < |s| => s[i]);
  }

  function After(p: Promise, act: Act): Promise {
    match act
    case Start => Promise(p.count + 1, true, p.durable)
    case Stop => p.(live := false)
    case SaveBy(g, r, s) => if p.live && g + 1 == p.count then p.(durable := (r, s)) else p
  }

  /** One act performed on the slot does what is promised. */
  method Perform(slot: Slot, act: Act)
    requires slot.Valid()
    modifies slot, slot.saved, slot.instances
    ensures slot.Valid() && slot.Kept() == After(old(slot.Kept()), act)
    ensures slot.saved != null && slot.saved != old(slot.saved) ==> fresh(slot.saved)
    ensures forall g :: 0 <= g < |slot.instances| ==>
      slot.instances[g] in old(slot.instances) || fresh(slot.instances[g])
  {
    match act {
      case Start => slot.StartServer();
      case Stop => slot.ShutdownServer();
      case SaveBy(g, r, s) =>
        if g < |slot.instances| {
          var raftstate := FromBytes(r);
          var snapshot := FromBytes(s);
          slot.InstanceSave(g, raftstate, snapshot);
        }
    }
  }

  /** Every script leaves the slot, and with it its live generation's persister, as promised. */
  method RunScript(script: seq<Act>) returns (slot: Slot)
    ensures slot.Valid() && slot.Kept() == Play(script)
  {
    slot := new Slot();
    for n := 0 to |script|
      invariant slot.Valid() && fresh(slot) && slot.Kept() == Play(script[..n])
      invariant slot.saved != null ==> fresh(slot.saved)
      invariant forall g :: 0 <= g < |slot.instances| ==> fresh(slot.instances[g])
    {
      assert script[..n + 1][..n] == script[..n];
      Perform(slot, script[n]);
    }
    assert script[..|script|] == script;
  }

  lemma {:induction false} PlayUnmoved(a: seq<Act>, acts: seq<Act>, p: Promise)
    requires Play(a) == p
    requires forall n :: 0 <= n < |acts| ==> After(p, acts[n]) == p
    ensures Play(a + acts) == p
    decreases |acts|
  {
    if acts == [] {
      assert a + acts == a;
    } else {
      PlayUnmoved(a, acts[..|acts| - 1], p);
      assert (a + acts)[..|a + acts| - 1] == a + acts[..|acts| - 1];
    }
  }

  lemma PlayNext(a: seq<Act>, act: Act)
    ensures Play(a + [act]) == After(Play(a), act)
  {
    assert (a + [act])[..|a|] == a;
  }

  /** A script in which any generation goes on saving after a shutdown and earlier ones even after the restart. */
  function Restart(script: seq<Act>, stale: seq<Act>, late: seq<Act>): seq<Act> {
    script + [Stop] + stale + [Start] + late
  }

  lemma RestartKeeps(script: seq<Act>, stale: seq<Act>, late: seq<Act>)
    requires forall n :: 0 <= n < |stale| ==> stale[n].SaveBy?
    requires forall n :: 0 <= n < |late| ==> late[n].SaveBy? && late[n].g < Play(script).count
    ensures Play(Restart(script, stale, late)) == Promise(Play(script).count + 1, true, Play(script).durable)
  {
    PlayNext(script, Stop);
    PlayUnmoved(script + [Stop], stale, Play(script + [Stop]));
    PlayNext(script + [Stop] + stale, Start);
    PlayUnmoved(script + [Stop] + stale + [Start], late, Play(script + [Stop] + stale + [Start]));
  }

  /**
    After a shutdown the new generation's persister reads what was last saved before it, whatever old
    generations save after the shutdown and after the restart.
  */
  method StaleSavesChangeNothing(script: seq<Act>, stale: seq<Act>, late: seq<Act>) returns (slot: Slot)
    requires forall n :: 0 <= n < |stale| ==> stale[n].SaveBy?
    requires forall n :: 0 <= n < |late| ==> late[n].SaveBy? && late[n].g < Play(script).count
    ensures slot.Valid() && slot.live && |slot.instances| == Play(script).count + 1
    ensures slot.instances[Play(script).count].Contents() == Play(script).durable
  {
    slot := RunScript(Restart(script, stale, late));
    RestartKeeps(script, stale, late);
  }
}

/**
  Many OneClientPut clients on one key of a server that behaves as KvModel.Step says, in every
  interleaving: src/kvtest1/kvtest.go.
*/
module PutClients {
  import opened ClientResults
  import opened KvModel

  /** The JSON value stored under the key; Empty is the empty string of a key never put. */
  datatype Cell = Empty | EntryV(id: int, v: int)

  /**
    Where a client is: at the top of OneClientPut's loop, in OnePut about to put, in OnePut
    with the put's answer and about to get, returned, or stopped by a fatal error.
  */
  datatype Phase = Top | Trying | Answered(err: Err) | Returned | Failed

  datatype Client = Client(phase: Phase, ver: int, nok: nat, nmaybe: nat)

  /** applied counts the puts the server has carried out. */
  datatype World = World(server: KvState<Cell>, applied: nat, clients: seq<Client>)

  datatype Event = Spawn | Begin(c: int) | Return(c: int) | Put(c: int, err: Err) | Get(c: int, cell: Cell)

  const START := World(KvState(Empty, 0), 0, [])

  function PutInput(me: int, ver: int): KvInput<Cell> {
    KvInput(PUT, "k", EntryV(me, ver), ver)
  }

  /** How the server may answer a put, and its state afterwards. */
  function ServePut(w: World, me: int, ver: int, err: Err): (bool, KvState<Cell>)
    requires w.server.KvState?
  {
    Step(w.server, PutInput(me, ver), KvOutput(Empty, 0, err))
  }

  /** May the server answer a get with this cell? The version it adds is the current one. */
  predicate ServesGet(w: World, cell: Cell)
    requires w.server.KvState?
  {
    Step(w.server, KvInput(GET, "k", Empty, 0), KvOutput(cell, w.server.version, OK)) == (true, w.server)
  }

  predicate At(w: World, c: int, phase: Phase) {
    0 <= c < |w.clients| && w.clients[c].phase == phase
  }

  predicate Enabled(w: World, e: Event) {
    w.server.KvState? &&
    match e
    case Spawn => true
    case Begin(c) => At(w, c, Top)
    case Return(c) => At(w, c, Top)
    case Put(c, err) => At(w, c, Trying) && ServePut(w, c, w.clients[c].ver, err).0
    case Get(c, cell) => 0 <= c < |w.clients| && w.clients[c].phase.Answered? && ServesGet(w, cell)
  }

  /** The rest of OnePut's loop body once the get has returned the cell e at version ver0. */
  function AfterGet(me: int, x: Client, e: Cell, ver0: int): Client
    requires x.phase.Answered?
  {
    var err := x.phase.err;
    if !(err == OK || err == ErrVersion || err == ErrMaybe) then x.(phase := Failed)
    else if e.Empty? then x.(phase := Failed)
    else if err == OK && ver0 == (x.ver + 1) % VERSIONS && e.id != me && e.v != x.ver then x.(phase := Failed)
    else if err == OK then x.(phase := Top, ver := ver0, nok := x.nok + 1)
    else if err == ErrMaybe then x.(phase := Top, ver := ver0, nmaybe := x.nmaybe + 1)
    else x.(phase := Trying, ver := ver0)
  }

  function Next(w: World, e: Event): World
    requires Enabled(w, e)
  {
    match e
    case Spawn => w.(clients := w.clients + [Client(Top, 0, 0, 0)])
    case Begin(c) => w.(clients := w.clients[c := w.clients[c].(phase := Trying)])
    case Return(c) => w.(clients := w.clients[c := w.clients[c].(phase := Returned)])
    case Put(c, err) =>
      World(ServePut(w, c, w.clients[c].ver, err).1,
            if w.server.version == w.clients[c].ver then w.applied + 1 else w.applied,
            w.clients[c := w.clients[c].(phase := Answered(err))])
    case Get(c, cell) => w.(clients := w.clients[c := AfterGet(c, w.clients[c], cell, w.server.version)])
  }

  /** Every interleaving, with clients starting at any time. */
  ghost predicate IsRun(ws: seq<World>, es: seq<Event>) {
    && |ws| == |es| + 1 && ws[0] == START
    && forall i :: 0 <= i < |es| ==> Enabled(ws[i], es[i]) && ws[i + 1] == Next(ws[i], es[i])
  }

  // ---- The invariant --------------------------------------------------------------

  /** Puts answered OK, counting one whose client has not yet noted it. */
  function Oks(x: Client): nat { x.nok + if x.phase == Answered(OK) then 1 else 0 }

  function Maybes(x: Client): nat { x.nmaybe + if x.phase == Answered(ErrMaybe) then 1 else 0 }

  function SumOks(s: seq<Client>): nat {
    if s == [] then 0 else SumOks(s[..|s| - 1]) + Oks(s[|s| - 1])
  }

  function SumMaybes(s: seq<Client>): nat {
    if s == [] then 0 else SumMaybes(s[..|s| - 1]) + Maybes(s[|s| - 1])
  }

  lemma {:induction false} SumsUpdate(s: seq<Client>, i: nat, x: Client)
    requires i < |s|
    ensures SumOks(s[i := x]) == SumOks(s) - Oks(s[i]) + Oks(x)
    ensures SumMaybes(s[i := x]) == SumMaybes(s) - Maybes(s[i]) + Maybes(x)
    decreases |s|
  {
    var n := |s| - 1;
    if i < n {
      SumsUpdate(s[..n], i, x);
      assert s[i := x][..n] == s[..n][i := x];
    } else {
      assert s[i := x][..n] == s[..n];
    }
  }

  predicate IsPutAnswer(err: Err) { err == OK || err == ErrVersion || err == ErrMaybe }

  ghost predicate ClientOk(x: Client, applied: nat) {
    && 0 <= x.ver < VERSIONS && x.phase != Failed
    && (applied == 0 ==> x.ver == 0 && x.nok == x.nmaybe == 0 && !x.phase.Answered?)
    && (x.phase.Answered? ==> IsPutAnswer(x.phase.err))
  }

  /** The version counts the applied puts, and the cell at a version was put at the version before it. */
  ghost predicate Inv(w: World) {
    && w.server.KvState? && w.server.version == w.applied % VERSIONS
    && (w.server.value.Empty? <==> w.applied == 0)
    && (w.applied > 0 ==> 0 <= w.server.value.v < VERSIONS && w.server.version == (w.server.value.v + 1) % VERSIONS)
    && SumOks(w.clients) <= w.applied <= SumOks(w.clients) + SumMaybes(w.clients)
    && forall c :: 0 <= c < |w.clients| ==> ClientOk(w.clients[c], w.applied)
  }

  /** The check for a wrong value never fires: the cell at a version was put at the version before it. */
  lemma NoWrongValue(w: World, c: int, cell: Cell)
    requires Inv(w) && Enabled(w, Get(c, cell))
    ensures AfterGet(c, w.clients[c], cell, w.server.version).phase != Failed
  {
  }

  lemma NextVersion(applied: nat)
    ensures (applied % VERSIONS + 1) % VERSIONS == (applied + 1) % VERSIONS
  {
  }

  /** What Step does to the server when it accepts an answer to a put. */
  lemma ServerAfterPut(w: World, c: int, err: Err)
    requires Inv(w) && Enabled(w, Put(c, err))
    ensures var d := Next(w, Put(c, err));
      && IsPutAnswer(err) && d.server.KvState? && d.applied > 0
      && d.server.version == d.applied % VERSIONS
      && d.server.value.EntryV? && 0 <= d.server.value.v < VERSIONS
      && d.server.version == (d.server.value.v + 1) % VERSIONS
      && w.applied + (if err == OK then 1 else 0) <= d.applied <= w.applied + (if err == ErrVersion then 0 else 1)
  {
    assert ClientOk(w.clients[c], w.applied);
    NextVersion(w.applied);
  }

  lemma PutKeeps(w: World, c: int, err: Err)
    requires Inv(w) && Enabled(w, Put(c, err))
    ensures Inv(Next(w, Put(c, err)))
  {
    var d := Next(w, Put(c, err));
    ServerAfterPut(w, c, err);
    SumsUpdate(w.clients, c, d.clients[c]);
    forall k | 0 <= k < |d.clients|
      ensures ClientOk(d.clients[k], d.applied)
    {
      assert ClientOk(w.clients[k], w.applied);
    }
  }

  lemma GetKeeps(w: World, c: int, cell: Cell)
    requires Inv(w) && Enabled(w, Get(c, cell))
    ensures Inv(Next(w, Get(c, cell)))
  {
    var d := Next(w, Get(c, cell));
    NoWrongValue(w, c, cell);
    GetKeepsClient(w.clients[c], c, cell, w.server.version, w.applied);
    SumsUpdate(w.clients, c, d.clients[c]);
    forall k | 0 <= k < |d.clients|
      ensures ClientOk(d.clients[k], d.applied)
    {
      assert ClientOk(w.clients[k], w.applied);
    }
  }

  /** The get moves what the answer counts for into the client's counts. */
  lemma GetKeepsClient(x: Client, me: int, cell: Cell, ver0: int, applied: nat)
    requires ClientOk(x, applied) && x.phase.Answered? && 0 <= ver0 < VERSIONS
    requires AfterGet(me, x, cell, ver0).phase != Failed
    ensures var y := AfterGet(me, x, cell, ver0); ClientOk(y, applied) && Oks(y) == Oks(x) && Maybes(y) == Maybes(x)
  {
  }

  lemma SpawnKeeps(w: World)
    requires Inv(w)
    ensures Inv(Next(w, Spawn))
  {
    assert Next(w, Spawn).clients[..|w.clients|] == w.clients;
  }

  /** A client that only moves to another place in its loop. */
  lemma MoveKeeps(w: World, c: nat, phase: Phase)
    requires Inv(w) && c < |w.clients| && w.clients[c].phase == Top && (phase == Trying || phase == Returned)
    ensures Inv(w.(clients := w.clients[c := w.clients[c].(phase := phase)]))
  {
    SumsUpdate(w.clients, c, w.clients[c].(phase := phase));
  }

  lemma StepKeeps(w: World, e: Event)
    requires Inv(w) && Enabled(w, e)
    ensures Inv(Next(w, e))
  {
    match e {
      case Spawn => SpawnKeeps(w);
      case Begin(c) => MoveKeeps(w, c, Trying);
      case Return(c) => MoveKeeps(w, c, Returned);
      case Put(c, err) => PutKeeps(w, c, err);
      case Get(c, cell) => GetKeeps(w, c, cell);
    }
  }

  lemma {:induction false} RunInv(ws: seq<World>, es: seq<Event>, i: nat)
    requires IsRun(ws, es) && i <= |es|
    ensures Inv(ws[i])
  {
    if i > 0 {
      RunInv(ws, es, i - 1);
      StepKeeps(ws[i - 1], es[i - 1]);
      assert ws[i - 1 + 1] == Next(ws[i - 1], es[i - 1]);
    }
  }

  /** No client of any run ever meets a fatal error. */
  lemma NoClientFails(ws: seq<World>, es: seq<Event>, i: nat, c: int)
    requires IsRun(ws, es) && i <= |es| && 0 <= c < |ws[i].clients|
    ensures ws[i].clients[c].phase != Failed
  {
    RunInv(ws, es, i);
    assert ClientOk(ws[i].clients[c], ws[i].applied);
  }

  /** The server carries out a put if and only if it names the server's version, and only the answer may be lost. */
  lemma PutAnswers(w: World, c: int, err: Err)
    requires w.server.KvState? && At(w, c, Trying)
    ensures var ver := w.clients[c].ver; var matches := w.server.version == ver;
      && (Enabled(w, Put(c, err)) <==> err == ErrMaybe || err == if matches then OK else ErrVersion)
      && (Enabled(w, Put(c, err)) ==> var d := Next(w, Put(c, err));
            && d.server == (if matches then KvState(EntryV(c, ver), (ver + 1) % VERSIONS) else w.server)
            && d.applied == w.applied + (if matches then 1 else 0)
            && d.clients == w.clients[c := w.clients[c].(phase := Answered(err))])
  {
  }

  /** After its get a client holds the server's version, and goes on or puts again as the answer tells it. */
  lemma GetAnswers(w: World, c: int, cell: Cell)
    requires Inv(w) && 0 <= c < |w.clients| && w.clients[c].phase.Answered?
    ensures Enabled(w, Get(c, cell)) <==> cell == w.server.value
    ensures Enabled(w, Get(c, cell)) ==> var d := Next(w, Get(c, cell));
      && d.server == w.server && d.clients[c].ver == w.server.version
      && (d.clients[c].phase == Top <==> w.clients[c].phase.err == OK || w.clients[c].phase.err == ErrMaybe)
      && (d.clients[c].phase == Trying <==> w.clients[c].phase.err == ErrVersion)
  {
    assert ClientOk(w.clients[c], w.applied);
    if Enabled(w, Get(c, cell)) {
      NoWrongValue(w, c, cell);
    }
  }

  /** Client c's puts in es that were answered err. */
  function Answers(es: seq<Event>, c: int, err: Err): nat { multiset(es)[Put(c, err)] }

  lemma AnswersNext(es: seq<Event>, i: nat, c: int, err: Err)
    requires i < |es|
    ensures Answers(es[..i + 1], c, err) == Answers(es[..i], c, err) + if es[i] == Put(c, err) then 1 else 0
  {
    assert es[..i + 1] == es[..i] + [es[i]];
  }

  /** The puts of client c answered OK, or else those answered ErrMaybe, as it counts them. */
  function Counted(w: World, c: int, err: Err): nat {
    if !(0 <= c < |w.clients|) then 0 else if err == OK then Oks(w.clients[c]) else Maybes(w.clients[c])
  }

  lemma StepCounts(w: World, e: Event, c: int, err: Err)
    requires Inv(w) && Enabled(w, e) && (err == OK || err == ErrMaybe)
    ensures Counted(Next(w, e), c, err) == Counted(w, c, err) + if e == Put(c, err) then 1 else 0
  {
    if e.Get? && e.c == c {
      NoWrongValue(w, c, e.cell);
      GetKeepsClient(w.clients[c], c, e.cell, w.server.version, w.applied);
    }
  }

  lemma RunStepCounts(ws: seq<World>, es: seq<Event>, i: nat, c: int, err: Err)
    requires IsRun(ws, es) && i < |es| && (err == OK || err == ErrMaybe)
    ensures Counted(ws[i + 1], c, err) == Counted(ws[i], c, err) + if es[i] == Put(c, err) then 1 else 0
  {
    RunInv(ws, es, i);
    StepCounts(ws[i], es[i], c, err);
  }

  /** Over every run a client counts exactly its puts that were answered OK and those answered ErrMaybe. */
  lemma {:induction false} CountsAreAnswers(ws: seq<World>, es: seq<Event>, i: nat, c: int, err: Err)
    requires IsRun(ws, es) && i <= |es| && (err == OK || err == ErrMaybe)
    ensures Counted(ws[i], c, err) == Answers(es[..i], c, err)
  {
    if i > 0 {
      CountsAreAnswers(ws, es, i - 1, c, err);
      AnswersNext(es, i - 1, c, err);
      RunStepCounts(ws, es, i - 1, c, err);
    }
  }

  // ---- The client's own loops ---------------------------------------------------------

  /** What the server says in one round of OnePut: the answer to the put, then what the get returns. */
  datatype Exchange = Exchange(err: Err, cell: Cell, ver0: int)

  function Round(me: int, x: Client, e: Exchange): Client {
    AfterGet(me, x.(phase := Answered(e.err)), e.cell, e.ver0)
  }

  /** The client's steps over a list of rounds, beginning a new OnePut whenever it is at the top. */
  function Rounds(me: int, x: Client, script: seq<Exchange>): Client {
    if script == [] then x
    else
      var y := Rounds(me, x, script[..|script| - 1]);
      if y.phase == Top || y.phase == Trying then Round(me, y.(phase := Trying), script[|script| - 1]) else y
  }

  /** The client when OnePut has gone as far as it can. */
  function Ended(phase: Phase, ver: int, ok: bool, nok: nat, nmaybe: nat): Client {
    Client(phase, ver, if phase == Top && ok then nok + 1 else nok, if phase == Top && !ok then nmaybe + 1 else nmaybe)
  }

  /** The version the client holds in round k of a call that starts in round n0 with ver0: what it read last. */
  function Holds(script: seq<Exchange>, ver0: int, n0: nat, k: nat): int
    requires n0 <= k <= |script|
  {
    if k == n0 then ver0 else script[k - 1].ver0
  }

  /** The round is fatal: a wrong answer, a key without value, or the client's next version with a foreign entry. */
  predicate Bad(me: int, ver: int, e: Exchange) {
    || (e.err != OK && e.err != ErrVersion && e.err != ErrMaybe)
    || e.cell.Empty?
    || (e.err == OK && e.ver0 == (ver + 1) % VERSIONS && e.cell.id != me && e.cell.v != ver)
  }

  /** The first rounds from n0 to n are answered ErrVersion, and none is bad. */
  ghost predicate Retries(me: int, ver0: int, script: seq<Exchange>, n0: nat, n: int) {
    && n <= |script|
    && forall k :: n0 <= k < n ==> script[k].err == ErrVersion && !Bad(me, Holds(script, ver0, n0, k), script[k])
  }

  /** Where OnePut is after round n, and with which version. */
  ghost predicate OnePutStops(me: int, ver0: int, script: seq<Exchange>, n0: nat,
                              ver: int, ok: bool, phase: Phase, n: nat)
  {
    && n0 <= n <= |script| && (n0 < |script| ==> n0 < n) && Retries(me, ver0, script, n0, n - 1)
    && (phase == Failed <==> n0 < n && Bad(me, Holds(script, ver0, n0, n - 1), script[n - 1]))
    && (phase == Top <==> n0 < n && phase != Failed && script[n - 1].err != ErrVersion)
    && (phase == Top || phase == Failed || (phase == Trying && n == |script|))
    && (phase == Top ==> (ok <==> script[n - 1].err == OK))
    && (phase != Failed ==> ver == Holds(script, ver0, n0, n))
  }

  /** Every put of the rounds n0 to n names the version read last and carries it. */
  ghost predicate PutsCells(me: int, ver0: int, script: seq<Exchange>, n0: nat, n: nat, puts: seq<(Cell, int)>) {
    && n0 <= n <= |script| && |puts| == n - n0
    && forall j :: 0 <= j < |puts| ==>
      puts[j] == (EntryV(me, Holds(script, ver0, n0, n0 + j)), Holds(script, ver0, n0, n0 + j))
  }

  /**
    OnePut against a server that answers as scripted from round n0 on. It goes on while the answer is
    ErrVersion and stops with the version the last get returned and whether the put was OK.
  */
  method OnePut(me: int, ver0: int, script: seq<Exchange>, n0: nat)
    returns (ver: int, ok: bool, phase: Phase, n: nat, puts: seq<(Cell, int)>)
    requires n0 <= |script|
    ensures OnePutStops(me, ver0, script, n0, ver, ok, phase, n)
    ensures PutsCells(me, ver0, script, n0, n, puts)
  {
    ver, ok, phase, n, puts := ver0, false, Trying, n0, [];
    while n < |script|
      invariant n0 <= n <= |script| && phase == Trying && ver == Holds(script, ver0, n0, n)
      invariant Retries(me, ver0, script, n0, n) && PutsCells(me, ver0, script, n0, n, puts)
    {
      var err, e, got := script[n].err, script[n].cell, script[n].ver0;
      puts := puts + [(EntryV(me, ver), ver)];
      n := n + 1;
      if !(err == OK || err == ErrVersion || err == ErrMaybe) {
        phase := Failed;
        return;
      }
      if e.Empty? {
        phase := Failed;
        return;
      }
      if err == OK && got == (ver + 1) % VERSIONS {
        if e.id != me && e.v != ver {
          phase := Failed;
          return;
        }
      }
      ver := got;
      if err == OK || err == ErrMaybe {
        phase, ok := Top, err == OK;
        return;
      }
    }
  }

  /** One round of a client that is trying. */
  lemma RoundMeans(me: int, x: Client, e: Exchange)
    ensures var y := Round(me, x, e);
      && (y.phase == Failed <==> Bad(me, x.ver, e))
      && (y.phase != Failed ==>
            && y.ver == e.ver0 && (y.phase == if e.err == ErrVersion then Trying else Top)
            && y.nok == x.nok + (if e.err == OK then 1 else 0)
            && y.nmaybe == x.nmaybe + (if e.err == ErrMaybe then 1 else 0))
      && (y.phase == Failed ==> y == x.(phase := Failed))
  {
  }

  lemma {:induction false} RetriesAreRounds(me: int, ver0: int, script: seq<Exchange>, n0: nat, n: nat,
                                            nok: nat, nmaybe: nat)
    requires n0 <= n && Retries(me, ver0, script, n0, n)
    ensures Rounds(me, Client(Trying, ver0, nok, nmaybe), script[n0..n])
         == Client(Trying, Holds(script, ver0, n0, n), nok, nmaybe)
  {
    if n0 < n {
      RetriesAreRounds(me, ver0, script, n0, n - 1, nok, nmaybe);
      assert script[n0..n][..n - 1 - n0] == script[n0..n - 1];
      RoundMeans(me, Client(Trying, Holds(script, ver0, n0, n - 1), nok, nmaybe), script[n - 1]);
    }
  }

  /** A call of OnePut is the client's steps over its rounds. */
  lemma OnePutIsRounds(me: int, ver0: int, script: seq<Exchange>, n0: nat,
                       ver: int, ok: bool, phase: Phase, n: nat, nok: nat, nmaybe: nat)
    requires OnePutStops(me, ver0, script, n0, ver, ok, phase, n)
    ensures var x := Rounds(me, Client(Trying, ver0, nok, nmaybe), script[n0..n]);
      && x.phase == phase && (phase != Failed ==> x == Ended(phase, ver, ok, nok, nmaybe))
      && x.nok == Ended(phase, ver, ok, nok, nmaybe).nok && x.nmaybe == Ended(phase, ver, ok, nok, nmaybe).nmaybe
  {
    if n0 < n {
      RetriesAreRounds(me, ver0, script, n0, n - 1, nok, nmaybe);
      assert script[n0..n][..n - 1 - n0] == script[n0..n - 1];
      RoundMeans(me, Client(Trying, Holds(script, ver0, n0, n - 1), nok, nmaybe), script[n - 1]);
    }
  }

  /** How often err was the answer in the first n rounds. */
  function Times(script: seq<Exchange>, n: nat, err: Err): nat
    requires n <= |script|
  {
    if n == 0 then 0 else Times(script, n - 1, err) + if script[n - 1].err == err then 1 else 0
  }

  lemma {:induction false} TimesPrefix(script: seq<Exchange>, m: nat, n: nat, err: Err)
    requires n <= m <= |script|
    ensures Times(script[..m], n, err) == Times(script, n, err)
  {
    if n > 0 {
      TimesPrefix(script, m, n - 1, err);
    }
  }

  /** Some round of the script is bad for the client. */
  ghost predicate AnyBad(me: int, script: seq<Exchange>) {
    exists k :: 0 <= k < |script| && Bad(me, Holds(script, 0, 0, k), script[k])
  }

  lemma AnyBadLast(me: int, script: seq<Exchange>)
    requires script != []
    ensures var n := |script| - 1;
      AnyBad(me, script) <==> AnyBad(me, script[..n]) || Bad(me, Holds(script, 0, 0, n), script[n])
  {
    var n := |script| - 1;
    forall k | 0 <= k < n
      ensures Holds(script, 0, 0, k) == Holds(script[..n], 0, 0, k) && script[k] == script[..n][k]
    {
    }
    if AnyBad(me, script[..n]) {
      var k :| 0 <= k < n && Bad(me, Holds(script[..n], 0, 0, k), script[..n][k]);
      assert Bad(me, Holds(script, 0, 0, k), script[k]);
    }
  }

  /**
    What a client's rounds come to: it fails if and only if some round is bad, and otherwise it has
    counted exactly the OK and the maybe answers and holds the version it read last.
  */
  ghost predicate Sums(me: int, script: seq<Exchange>, x: Client) {
    && (x.phase == Failed <==> AnyBad(me, script))
    && (x.phase != Failed ==>
          && x.nok == Times(script, |script|, OK) && x.nmaybe == Times(script, |script|, ErrMaybe)
          && x.ver == Holds(script, 0, 0, |script|)
          && x.phase == if script == [] || script[|script| - 1].err != ErrVersion then Top else Trying)
  }

  lemma SumsNext(me: int, script: seq<Exchange>, x: Client, y: Client)
    requires script != [] && Sums(me, script[..|script| - 1], x)
    requires y == if x.phase == Failed then x else Round(me, x.(phase := Trying), script[|script| - 1])
    ensures Sums(me, script, y)
  {
    var n := |script| - 1;
    AnyBadLast(me, script);
    RoundMeans(me, x.(phase := Trying), script[n]);
    TimesPrefix(script, n, n, OK);
    TimesPrefix(script, n, n, ErrMaybe);
    assert Holds(script, 0, 0, n) == Holds(script[..n], 0, 0, n);
  }

  lemma {:induction false} RoundsCount(me: int, script: seq<Exchange>)
    ensures Sums(me, script, Rounds(me, Client(Top, 0, 0, 0), script))
    decreases |script|
  {
    if script != [] {
      var start, init := Client(Top, 0, 0, 0), script[..|script| - 1];
      RoundsCount(me, init);
      SumsNext(me, script, Rounds(me, start, init), Rounds(me, start, script));
    }
  }

  /** OneClientPut on one key, told to stop once the script is used up. */
  method OneClientPut(me: int, script: seq<Exchange>) returns (nok: nat, nmaybe: nat, ver: int, phase: Phase)
    ensures phase == Failed <==> AnyBad(me, script)
    ensures phase != Failed ==> nok == Times(script, |script|, OK) && nmaybe == Times(script, |script|, ErrMaybe)
    ensures phase != Failed ==> ver == Holds(script, 0, 0, |script|)
    ensures var x := Rounds(me, Client(Top, 0, 0, 0), script);
      x.phase == phase && x.nok == nok && x.nmaybe == nmaybe && (phase != Failed ==> x.ver == ver)
  {
    nok, nmaybe, ver, phase := 0, 0, 0, Top;
    var n := 0;
    ghost var x := Client(Top, 0, 0, 0);
    while n < |script| && phase == Top
      invariant 0 <= n <= |script| && (n == |script| || phase == Top || phase == Failed)
      decreases |script| - n
      invariant x == Rounds(me, Client(Top, 0, 0, 0), script[..n])
      invariant x.phase == phase && x.nok == nok && x.nmaybe == nmaybe && (phase != Failed ==> x.ver == ver)
    {
      var ver1, ok, phase1, n1, _ := OnePut(me, ver, script, n);
      RoundsSplit(me, Client(Top, 0, 0, 0), script[..n], script[n..n1]);
      assert script[..n] + script[n..n1] == script[..n1];
      BeginIsSilent(me, x, script[n..n1]);
      OnePutIsRounds(me, ver, script, n, ver1, ok, phase1, n1, nok, nmaybe);
      x := Rounds(me, Client(Top, 0, 0, 0), script[..n1]);
      ver, phase := ver1, phase1;
      if phase == Top {
        if ok {
          nok := nok + 1;
        } else {
          nmaybe := nmaybe + 1;
        }
      }
      n := n1;
    }
    RoundsSplit(me, Client(Top, 0, 0, 0), script[..n], script[n..]);
    assert script[..n] + script[n..] == script;
    if phase == Failed {
      FailedStays(me, x, script[n..]);
    }
    RoundsCount(me, script);
  }

  lemma {:induction false} RoundsSplit(me: int, x: Client, a: seq<Exchange>, b: seq<Exchange>)
    ensures Rounds(me, x, a + b) == Rounds(me, Rounds(me, x, a), b)
    decreases |b|
  {
    if b == [] {
      assert a + b == a;
    } else {
      assert (a + b)[..|a + b| - 1] == a + b[..|b| - 1];
      RoundsSplit(me, x, a, b[..|b| - 1]);
    }
  }

  lemma {:induction false} BeginIsSilent(me: int, x: Client, script: seq<Exchange>)
    requires x.phase == Top && script != []
    ensures Rounds(me, x, script) == Rounds(me, x.(phase := Trying), script)
    decreases |script|
  {
    if |script| > 1 {
      BeginIsSilent(me, x, script[..|script| - 1]);
    }
  }

  lemma {:induction false} FailedStays(me: int, x: Client, script: seq<Exchange>)
    requires x.phase == Failed
    ensures Rounds(me, x, script) == x
    decreases |script|
  {
    if script != [] {
      FailedStays(me, x, script[..|script| - 1]);
    }
  }

  // ---- CheckPutConcurrent -------------------------------------------------------------

  /** CheckPutConcurrent; the totals are compared as versions, that is modulo VERSIONS. */
  method CheckPutConcurrent(ver0: int, rs: seq<ClntRes>, reliable: bool) returns (ok: bool)
    ensures reliable ==> (ok <==> ver0 == TotalOk(rs) % VERSIONS)
    ensures !reliable ==> (ok <==> ver0 <= Total(rs) % VERSIONS)
  {
    var nok, nmaybe := 0, 0;
    for i := 0 to |rs|
      invariant nok == TotalOk(rs[..i]) && nmaybe == TotalMaybe(rs[..i])
    {
      assert rs[..i + 1][..i] == rs[..i];
      nok := nok + rs[i].nok;
      nmaybe := nmaybe + rs[i].nmaybe;
    }
    assert rs[..|rs|] == rs;
    if reliable {
      if ver0 != nok % VERSIONS {
        return false;
      }
    } else if ver0 > (nok + nmaybe) % VERSIONS {
      return false;
    }
    return true;
  }

  /** rs is what the clients returned. */
  ghost predicate Results(s: seq<Client>, rs: seq<ClntRes>) {
    |rs| == |s| && forall c :: 0 <= c < |s| ==> s[c].phase == Returned && rs[c] == ClntRes(s[c].nok, s[c].nmaybe)
  }

  lemma {:induction false} ResultsTotal(s: seq<Client>, rs: seq<ClntRes>)
    requires Results(s, rs)
    ensures TotalOk(rs) == SumOks(s) && TotalMaybe(rs) == SumMaybes(s)
    decreases |s|
  {
    if s != [] {
      ResultsTotal(s[..|s| - 1], rs[..|rs| - 1]);
    }
  }

  lemma {:induction false} NothingApplied(s: seq<Client>)
    requires forall c :: 0 <= c < |s| ==> Oks(s[c]) == Maybes(s[c]) == 0
    ensures SumOks(s) == SumMaybes(s) == 0
    decreases |s|
  {
    if s != [] {
      NothingApplied(s[..|s| - 1]);
    }
  }

  /** w comes up in some run. */
  ghost predicate Reaches(w: World) {
    exists ws: seq<World>, es: seq<Event> :: IsRun(ws, es) && ws[|es|] == w
  }

  lemma ReachNext(w: World, e: Event)
    requires Reaches(w) && Enabled(w, e)
    ensures Reaches(Next(w, e))
  {
    var ws: seq<World>, es: seq<Event> :| IsRun(ws, es) && ws[|es|] == w;
    var ws', es' := ws + [Next(w, e)], es + [e];
    assert IsRun(ws', es') && ws'[|es'|] == Next(w, e);
  }

  lemma ReachInv(w: World)
    requires Reaches(w)
    ensures Inv(w)
  {
    var ws: seq<World>, es: seq<Event> :| IsRun(ws, es) && ws[|es|] == w;
    RunInv(ws, es, |es|);
  }

  /** The get with which CheckPutConcurrent starts finds a value unless no client completed a put. */
  lemma CheckReadsAValue(w: World, rs: seq<ClntRes>)
    requires Reaches(w) && Results(w.clients, rs)
    ensures w.server.KvState?
    ensures w.server.value.Empty? <==> Total(rs) == 0
  {
    ReachInv(w);
    ResultsTotal(w.clients, rs);
    if w.applied == 0 {
      forall c | 0 <= c < |w.clients|
        ensures Oks(w.clients[c]) == Maybes(w.clients[c]) == 0
      {
        assert ClientOk(w.clients[c], w.applied);
      }
      NothingApplied(w.clients);
    }
  }

  /**
    Once all clients have returned, the server's version is the number of OK puts if no put was
    answered ErrMaybe, and never more than the OK and maybe puts together.
  */
  lemma PutsAddUp(w: World, rs: seq<ClntRes>)
    requires Reaches(w) && Results(w.clients, rs)
    ensures w.server.KvState?
    ensures TotalMaybe(rs) == 0 ==> w.server.version == TotalOk(rs) % VERSIONS
    ensures w.server.version <= Total(rs)
    ensures Total(rs) < VERSIONS ==> TotalOk(rs) <= w.server.version
  {
    ReachInv(w);
    ResultsTotal(w.clients, rs);
    VersionBound(w.applied);
  }

  lemma VersionBound(n: nat)
    ensures n % VERSIONS <= n && (n < VERSIONS ==> n % VERSIONS == n)
  {
  }

  // ---- When the check for unreliable servers can be trusted --------------------------------

  /** The check for unreliable servers passes whatever the clients did, as long as their counts add up to total. */
  ghost predicate AlwaysPasses(total: nat) {
    forall w: World, rs: seq<ClntRes> :: Reaches(w) && Results(w.clients, rs) && Total(rs) == total ==>
      w.server.KvState? && w.server.version <= total % VERSIONS
  }

  /** A client that has completed n puts, all answered err. */
  function Done(phase: Phase, ver: int, n: nat, err: Err): Client {
    Client(phase, ver, if err == OK then n else 0, if err == OK then 0 else n)
  }

  /** The only client has put n times, always carried out and answered err. */
  ghost function Alone(n: nat, err: Err): World {
    World(KvState(if n == 0 then Empty else EntryV(0, (n - 1) % VERSIONS), n % VERSIONS), n,
          [Done(Top, n % VERSIONS, n, err)])
  }

  lemma {:induction false} AloneReached(n: nat, err: Err)
    requires err == OK || err == ErrMaybe
    ensures Reaches(Alone(n, err))
  {
    if n == 0 {
      var es: seq<Event> := [];
      assert IsRun([START], es) && [START][|es|] == START;
      ReachNext(START, Spawn);
      assert Next(START, Spawn) == Alone(0, err);
    } else {
      AloneReached(n - 1, err);
      AnsweredReached(n, err);
      AloneNext(n, err);
    }
  }

  /** The client's n-th put has been answered. */
  ghost function AloneAnswered(n: nat, err: Err): World
    requires n > 0
  {
    World(KvState(EntryV(0, (n - 1) % VERSIONS), n % VERSIONS), n,
          [Done(Answered(err), (n - 1) % VERSIONS, n - 1, err)])
  }

  lemma AnsweredReached(n: nat, err: Err)
    requires n > 0 && (err == OK || err == ErrMaybe) && Reaches(Alone(n - 1, err))
    ensures Reaches(AloneAnswered(n, err))
  {
    var w, ver := Alone(n - 1, err), (n - 1) % VERSIONS;
    NextVersion(n - 1);
    ReachNext(w, Begin(0));
    var w1 := w.(clients := [Done(Trying, ver, n - 1, err)]);
    assert Next(w, Begin(0)) == w1;
    ReachNext(w1, Put(0, err));
    assert Next(w1, Put(0, err)) == AloneAnswered(n, err);
  }

  lemma AloneNext(n: nat, err: Err)
    requires n > 0 && (err == OK || err == ErrMaybe) && Reaches(AloneAnswered(n, err))
    ensures Reaches(Alone(n, err))
  {
    var w, cell := AloneAnswered(n, err), EntryV(0, (n - 1) % VERSIONS);
    NextVersion(n - 1);
    ReachNext(w, Get(0, cell));
    assert Next(w, Get(0, cell)) == Alone(n, err);
  }

  /** Puts answered ErrMaybe may all have been carried out. */
  lemma MaybesMayApply(n: nat) returns (w: World, rs: seq<ClntRes>)
    ensures Reaches(w) && Results(w.clients, rs) && TotalOk(rs) == 0 && TotalMaybe(rs) == n
    ensures w.server.KvState? && w.server.version == n % VERSIONS
  {
    AloneReached(n, ErrMaybe);
    w := Alone(n, ErrMaybe);
    ReachNext(w, Return(0));
    w := Next(w, Return(0));
    rs := [ClntRes(0, n)];
    TotalNext([], ClntRes(0, n));
    assert [] + [ClntRes(0, n)] == rs;
  }

  /** A new client is about to put at version 0. */
  function Newcomer(w: World): World {
    w.(clients := w.clients + [Client(Trying, 0, 0, 0)])
  }

  lemma NewcomerReached(w: World)
    requires Reaches(w) && w.server.KvState?
    ensures Reaches(Newcomer(w))
  {
    ReachNext(w, Spawn);
    var d := Next(w, Spawn);
    ReachNext(d, Begin(|w.clients|));
    assert Next(d, Begin(|w.clients|)) == Newcomer(w);
  }

  /** A client that has put once, at a stale version, got ErrMaybe and returned. */
  function Idle(ver: int): Client { Client(Returned, ver, 0, 1) }

  /** k clients come, put at version 0 to no effect, and return. */
  lemma {:induction false} WithIdleReached(w: World, k: nat) returns (d: World)
    requires Reaches(w) && w.server.KvState? && w.server.version != 0 && w.server.value.EntryV?
    ensures Reaches(d) && d == w.(clients := w.clients + seq(k, _ => Idle(w.server.version)))
  {
    if k == 0 {
      d := w;
      assert d.clients == w.clients + seq(k, _ => Idle(w.server.version));
    } else {
      d := WithIdleReached(w, k - 1);
      assert w.clients + seq(k, _ => Idle(w.server.version)) == d.clients + [Idle(w.server.version)];
      d := IdleComes(d);
    }
  }

  lemma IdleComes(w: World) returns (d: World)
    requires Reaches(w) && w.server.KvState? && w.server.version != 0 && w.server.value.EntryV?
    ensures Reaches(d) && d == w.(clients := w.clients + [Idle(w.server.version)])
  {
    var c := |w.clients|;
    NewcomerReached(w);
    d := Newcomer(w);
    StepTo(d, Put(c, ErrMaybe), c, Client(Answered(ErrMaybe), 0, 0, 0));
    d := d.(clients := d.clients[c := Client(Answered(ErrMaybe), 0, 0, 0)]);
    StepTo(d, Get(c, d.server.value), c, Client(Top, w.server.version, 0, 1));
    d := d.(clients := d.clients[c := Client(Top, w.server.version, 0, 1)]);
    StepTo(d, Return(c), c, Idle(w.server.version));
    d := d.(clients := d.clients[c := Idle(w.server.version)]);
    assert d.clients == w.clients + [Idle(w.server.version)];
  }

  /** A reachable step that only changes client c. */
  lemma StepTo(w: World, e: Event, c: nat, x: Client)
    requires Reaches(w) && Enabled(w, e) && c < |w.clients|
    requires Next(w, e) == w.(clients := w.clients[c := x])
    ensures Reaches(w.(clients := w.clients[c := x]))
  {
    ReachNext(w, e);
  }

  lemma {:induction false} IdleTotal(rs: seq<ClntRes>, k: nat)
    ensures Total(rs + seq(k, _ => ClntRes(0, 1))) == Total(rs) + k
  {
    if k == 0 {
      assert rs + seq(k, _ => ClntRes(0, 1)) == rs;
    } else {
      IdleTotal(rs, k - 1);
      TotalNext(rs + seq(k - 1, _ => ClntRes(0, 1)), ClntRes(0, 1));
      assert rs + seq(k, _ => ClntRes(0, 1)) == rs + seq(k - 1, _ => ClntRes(0, 1)) + [ClntRes(0, 1)];
    }
  }

  /** With n successful puts of one client and k idle clients the version is n modulo VERSIONS, the total n + k. */
  lemma StaleTotals(n: nat, k: nat) returns (w: World, rs: seq<ClntRes>)
    requires n % VERSIONS != 0
    ensures Reaches(w) && Results(w.clients, rs) && Total(rs) == n + k
    ensures w.server.KvState? && w.server.version == n % VERSIONS
  {
    AloneReached(n, OK);
    w := WithIdleReached(Alone(n, OK), k);
    ReachNext(w, Return(0));
    w := Next(w, Return(0));
    rs := [ClntRes(n, 0)] + seq(k, _ => ClntRes(0, 1));
    TotalNext([], ClntRes(n, 0));
    assert [] + [ClntRes(n, 0)] == [ClntRes(n, 0)];
    IdleTotal([ClntRes(n, 0)], k);
  }

  /**
    The totals are compared as versions, which wrap around. The check for unreliable servers therefore
    passes in every run with a given total if and only if that total fits a version or is the last of a lap.
  */
  lemma UnreliableCheckIsSafe(total: nat)
    ensures AlwaysPasses(total) <==> total < VERSIONS || total % VERSIONS == VERSIONS - 1
  {
    if total < VERSIONS || total % VERSIONS == VERSIONS - 1 {
      forall w: World, rs: seq<ClntRes> | Reaches(w) && Results(w.clients, rs) && Total(rs) == total
        ensures w.server.KvState? && w.server.version <= total % VERSIONS
      {
        ReachInv(w);
        PutsAddUp(w, rs);
      }
    } else {
      var n := total - total % VERSIONS - 1;
      LastOfLap(total);
      var w, rs := StaleTotals(n, total - n);
      assert Total(rs) == total && w.server.version > total % VERSIONS;
    }
  }

  lemma LastOfLap(total: nat)
    requires total >= VERSIONS
    ensures var n := total - total % VERSIONS - 1; n >= 0 && n % VERSIONS == VERSIONS - 1
  {
    var n := total - total % VERSIONS - 1;
    assert n == (total / VERSIONS - 1) * VERSIONS + (VERSIONS - 1);
  }

  // ---- Each version has one writer, for one lap of the versions --------------------------

  /** A client told OK has put at its own version, and until another put is applied its cell is the server's. */
  ghost predicate Wrote(w: World, c: nat)
    requires c < |w.clients|
  {
    var x := w.clients[c];
    x.phase == Answered(OK) ==>
      x.ver < w.applied && (w.applied == x.ver + 1 ==> w.server == KvState(EntryV(c, x.ver), w.applied % VERSIONS))
  }

  ghost predicate AllWrote(w: World) {
    forall c :: 0 <= c < |w.clients| ==> Wrote(w, c)
  }

  lemma WroteNext(w: World, e: Event, c: nat)
    requires Inv(w) && AllWrote(w) && Enabled(w, e)
    requires Next(w, e).applied <= VERSIONS && c < |Next(w, e).clients|
    ensures Wrote(Next(w, e), c)
  {
    assert c < |w.clients| ==> Wrote(w, c);
  }

  lemma {:induction false} AllWroteHolds(ws: seq<World>, es: seq<Event>, i: nat)
    requires IsRun(ws, es) && i <= |es| && ws[i].applied <= VERSIONS
    ensures AllWrote(ws[i])
  {
    if i > 0 {
      var w, e := ws[i - 1], es[i - 1];
      assert ws[i - 1 + 1] == Next(w, e);
      AllWroteHolds(ws, es, i - 1);
      RunInv(ws, es, i - 1);
      forall c | 0 <= c < |ws[i].clients|
        ensures Wrote(ws[i], c)
      {
        WroteNext(w, e, c);
      }
    }
  }

  /** If OnePut takes what it reads for its own put, in the branch that makes the check, then it is. */
  ghost predicate ReadsOwn(w: World, c: int, cell: Cell)
    requires Enabled(w, Get(c, cell))
  {
    var x := w.clients[c];
    x.phase == Answered(OK) && w.server.version == (x.ver + 1) % VERSIONS ==> cell == EntryV(c, x.ver)
  }

  ghost predicate AlwaysReadsOwn(applied: nat) {
    forall w: World, c: int, cell: Cell :: Reaches(w) && w.applied == applied && Enabled(w, Get(c, cell)) ==>
      ReadsOwn(w, c, cell)
  }

  lemma FirstLapReadsOwn(w: World, c: int, cell: Cell)
    requires Reaches(w) && w.applied <= VERSIONS && Enabled(w, Get(c, cell))
    ensures ReadsOwn(w, c, cell)
  {
    var ws: seq<World>, es: seq<Event> :| IsRun(ws, es) && ws[|es|] == w;
    AllWroteHolds(ws, es, |es|);
    ReachInv(w);
    assert Wrote(w, c) && ClientOk(w.clients[c], w.applied);
  }

  /** Client 0 was told OK for the m-th put and has yet to get; client 1 has put n times since and is about to put. */
  ghost predicate Rivals(w: World, m: nat, n: nat) {
    && w.applied == m + n && w.server.KvState? && w.server.version == (m + n) % VERSIONS && |w.clients| == 2
    && w.clients[0].phase == Answered(OK) && w.clients[0].ver == (m - 1) % VERSIONS
    && w.clients[1].phase == Trying && w.clients[1].ver == (m + n) % VERSIONS
    && (n > 0 ==> w.server.value == EntryV(1, (m + n - 1) % VERSIONS))
    && !w.server.value.Empty?
  }

  lemma RivalComes(m: nat) returns (w: World)
    requires m > 0
    ensures Reaches(w) && Rivals(w, m, 0)
  {
    AloneReached(m - 1, OK);
    AnsweredReached(m, OK);
    w := AloneAnswered(m, OK);
    NewcomerReached(w);
    w := Newcomer(w);
    if w.server.version != 0 {
      w := RivalCatchesUp(w);
    }
  }

  /** A stale put gives client 1 the current version. */
  lemma RivalCatchesUp(w: World) returns (d: World)
    requires Reaches(w) && w.server.KvState? && w.server.version != 0 && !w.server.value.Empty?
    requires |w.clients| == 2 && w.clients[1] == Client(Trying, 0, 0, 0)
    ensures Reaches(d) && d == w.(clients := w.clients[1 := Client(Trying, w.server.version, 0, 0)])
  {
    ReachNext(w, Put(1, ErrVersion));
    d := Next(w, Put(1, ErrVersion));
    ReachNext(d, Get(1, w.server.value));
    d := Next(d, Get(1, w.server.value));
    assert d.clients == w.clients[1 := Client(Trying, w.server.version, 0, 0)];
  }

  lemma RivalPuts(w: World, m: nat, n: nat) returns (d: World)
    requires m > 0 && Reaches(w) && Rivals(w, m, n)
    ensures Reaches(d) && Rivals(d, m, n + 1)
  {
    NextVersion(m + n);
    ReachNext(w, Put(1, OK));
    d := Next(w, Put(1, OK));
    var cell := d.server.value;
    ReachNext(d, Get(1, cell));
    d := Next(d, Get(1, cell));
    ReachNext(d, Begin(1));
    d := Next(d, Begin(1));
  }

  lemma {:induction false} RivalPutsOn(m: nat, n: nat) returns (w: World)
    requires m > 0
    ensures Reaches(w) && Rivals(w, m, n)
  {
    if n == 0 {
      w := RivalComes(m);
    } else {
      w := RivalPutsOn(m, n - 1);
      w := RivalPuts(w, m, n - 1);
    }
  }

  /**
    A client told OK that gets the next version back gets its own cell with it, in every run with a given
    number of applied puts, if and only if the versions have not come round again.
  */
  lemma OwnCellIsRead(applied: nat)
    ensures AlwaysReadsOwn(applied) <==> applied <= VERSIONS
  {
    if applied <= VERSIONS {
      forall w: World, c: int, cell: Cell | Reaches(w) && w.applied == applied && Enabled(w, Get(c, cell))
        ensures ReadsOwn(w, c, cell)
      {
        FirstLapReadsOwn(w, c, cell);
      }
    } else {
      var m := applied - VERSIONS;
      var w := RivalPutsOn(m, VERSIONS);
      NextVersion(m - 1);
      assert Enabled(w, Get(0, w.server.value)) && !ReadsOwn(w, 0, w.server.value);
    }
  }
}

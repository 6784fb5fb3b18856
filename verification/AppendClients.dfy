/**
  Many OneClientAppend clients on one key of a server that behaves as KvModel.Step says, in
  every interleaving, and the check CheckAppends makes of the outcome: src/kvtest1/kvtest.go.
*/
module AppendClients {
  import opened ClientResults
  import opened Counting
  import opened KvModel

  datatype EntryN = EntryN(id: int, n: int)

  /** Go's int has 64 bits: what an integer becomes in it. */
  const INT_LIMIT := 0x8000_0000_0000_0000

  function Int64(x: int): int { (x + INT_LIMIT) % VERSIONS - INT_LIMIT }

  /** At the top of the client's loop, in its retry loop, holding what it read, or returned. */
  datatype Phase = Top | Retrying | Holding(es: seq<EntryN>, ver: int) | Returned

  /** i is the number of the client's next entry. */
  datatype Client = Client(phase: Phase, i: nat, nok: nat, nmay: nat)

  datatype World = World(server: KvState<seq<EntryN>>, clients: seq<Client>)

  datatype Event = Begin(c: int) | Return(c: int) | Get(c: int, es: seq<EntryN>) | Put(c: int, err: Err)

  /** The key holds the empty list at version 1. */
  ghost function Start(nclnt: nat): World {
    World(KvState([], 1), seq(nclnt, _ => Client(Top, 0, 0, 0)))
  }

  /** How the server may answer the append of entry (me, i) to what the client holds. */
  function ServePut(w: World, me: int, x: Client, err: Err): (bool, KvState<seq<EntryN>>)
    requires w.server.KvState? && x.phase.Holding?
  {
    Step(w.server, KvInput(PUT, "k", x.phase.es + [EntryN(me, x.i)], x.phase.ver), KvOutput([], 0, err))
  }

  /** May the server answer a get with this list? The version it adds is the current one. */
  predicate ServesGet(w: World, es: seq<EntryN>)
    requires w.server.KvState?
  {
    Step(w.server, KvInput(GET, "k", [], 0), KvOutput(es, w.server.version, OK)) == (true, w.server)
  }

  predicate Enabled(w: World, e: Event) {
    w.server.KvState? && 0 <= e.c < |w.clients| &&
    var x := w.clients[e.c];
    match e
    case Begin(_) => x.phase.Top?
    case Return(_) => x.phase.Top?
    case Get(_, es) => x.phase.Retrying? && ServesGet(w, es)
    case Put(c, err) => x.phase.Holding? && ServePut(w, c, x, err).0
  }

  function AfterPut(x: Client, err: Err): Client {
    if err == OK then Client(Top, x.i + 1, x.nok + 1, x.nmay)
    else if err == ErrMaybe then Client(Top, x.i + 1, x.nok, x.nmay + 1)
    else x.(phase := Retrying)
  }

  function Next(w: World, e: Event): World
    requires Enabled(w, e)
  {
    var x := w.clients[e.c];
    match e
    case Begin(c) => w.(clients := w.clients[c := x.(phase := Retrying)])
    case Return(c) => w.(clients := w.clients[c := x.(phase := Returned)])
    case Get(c, es) => w.(clients := w.clients[c := x.(phase := Holding(es, w.server.version))])
    case Put(c, err) => World(ServePut(w, c, x, err).1, w.clients[c := AfterPut(x, err)])
  }

  ghost predicate IsRun(nclnt: nat, ws: seq<World>, es: seq<Event>) {
    && |ws| == |es| + 1 && ws[0] == Start(nclnt)
    && forall i :: 0 <= i < |es| ==> Enabled(ws[i], es[i]) && ws[i + 1] == Next(ws[i], es[i])
  }

  // ---- Entries of one client ------------------------------------------------------

  /** The numbers of client c's entries, in list order. */
  function Mine(es: seq<EntryN>, c: int): seq<int> {
    if es == [] then []
    else
      var last := es[|es| - 1];
      Mine(es[..|es| - 1], c) + if last.id == c then [last.n] else []
  }

  lemma MineAppend(es: seq<EntryN>, e: EntryN, c: int)
    ensures Mine(es + [e], c) == Mine(es, c) + if e.id == c then [e.n] else []
  {
  }

  /** Numbers from zero up, each larger than the one before. */
  predicate Climbs(s: seq<int>) {
    && (forall i :: 0 <= i < |s| ==> 0 <= s[i])
    && (forall i, j :: 0 <= i < j < |s| ==> s[i] < s[j])
  }

  /** The number the client's next entry should have at least. */
  function Expected(s: seq<int>): int {
    if s == [] then 0 else s[|s| - 1] + 1
  }

  lemma ClimbsNext(s: seq<int>, n: int)
    requires Climbs(s)
    ensures Climbs(s + [n]) <==> Expected(s) <= n
    ensures Expected(s + [n]) == n + 1
  {
    var t := s + [n];
    if Climbs(t) && s != [] {
      assert t[|s| - 1] < t[|s|];
    }
    if Climbs(t) {
      assert 0 <= t[|s|];
    }
  }

  lemma ClimbsPrefix(s: seq<int>, t: seq<int>)
    requires s <= t && Climbs(t)
    ensures Climbs(s)
  {
  }

  // ---- The invariant --------------------------------------------------------------------

  ghost predicate ClientOk(w: World, c: int)
    requires w.server.KvState? && 0 <= c < |w.clients|
  {
    var x, s := w.clients[c], Mine(w.server.value, c);
    && x.nok + x.nmay == x.i
    && Climbs(s) && Expected(s) <= x.i && x.nok <= |s|
    && (x.phase.Holding? ==> x.phase.es <= w.server.value && x.phase.ver == |x.phase.es| + 1)
  }

  /** The appends that were answered OK or ErrMaybe. */
  function Attempts(s: seq<Client>): nat {
    if s == [] then 0 else Attempts(s[..|s| - 1]) + s[|s| - 1].i
  }

  lemma {:induction false} AttemptsUpdate(s: seq<Client>, c: nat, x: Client)
    requires c < |s|
    ensures Attempts(s[c := x]) == Attempts(s) - s[c].i + x.i
    decreases |s|
  {
    var n := |s| - 1;
    if c < n {
      AttemptsUpdate(s[..n], c, x);
      assert s[c := x][..n] == s[..n][c := x];
    } else {
      assert s[c := x][..n] == s[..n];
    }
  }

  /** An append that an answer ends is one more attempt; no other step changes their number. */
  lemma AttemptsNext(w: World, e: Event)
    requires Enabled(w, e)
    ensures Attempts(Next(w, e).clients)
         == Attempts(w.clients) + if e.Put? && (e.err == OK || e.err == ErrMaybe) then 1 else 0
  {
    AttemptsUpdate(w.clients, e.c, Next(w, e).clients[e.c]);
  }

  ghost predicate Inv(w: World) {
    && w.server.KvState? && w.server.version == |w.server.value| + 1
    && |w.server.value| <= Attempts(w.clients)
    && (forall k :: 0 <= k < |w.server.value| ==> 0 <= w.server.value[k].id < |w.clients|)
    && forall c :: 0 <= c < |w.clients| ==> ClientOk(w, c)
  }

  /** The list grows by one entry of client c, which moves on to its next number. */
  lemma EntryKeepsClient(w: World, d: World, c: int, k: int)
    requires w.server.KvState? && d.server.KvState? && 0 <= c < |w.clients| == |d.clients| && 0 <= k < |d.clients|
    requires ClientOk(w, c) && ClientOk(w, k) && w.clients[c].phase.Holding?
    requires d.server.value == w.server.value + [EntryN(c, w.clients[c].i)]
    requires if k == c
             then d.clients[k] == AfterPut(w.clients[k], OK) || d.clients[k] == AfterPut(w.clients[k], ErrMaybe)
             else d.clients[k] == w.clients[k]
    ensures ClientOk(d, k)
  {
    MineAppend(w.server.value, EntryN(c, w.clients[c].i), k);
    ClimbsNext(Mine(w.server.value, k), w.clients[c].i);
  }

  lemma EntryKeeps(w: World, c: int, err: Err)
    requires Inv(w) && Enabled(w, Put(c, err)) && Attempts(Next(w, Put(c, err)).clients) + 1 < VERSIONS
    requires w.server.version == w.clients[c].phase.ver
    ensures Inv(Next(w, Put(c, err)))
    ensures Next(w, Put(c, err)).server.value == w.server.value + [EntryN(c, w.clients[c].i)]
  {
    var d := Next(w, Put(c, err));
    AttemptsNext(w, Put(c, err));
    assert ClientOk(w, c);
    assert w.clients[c].phase.es == w.server.value;
    forall k | 0 <= k < |d.clients|
      ensures ClientOk(d, k)
    {
      assert ClientOk(w, k);
      EntryKeepsClient(w, d, c, k);
    }
  }

  /** A step that leaves the list alone and one client in good order. */
  lemma QuietStepKeeps(w: World, d: World, c: int)
    requires Inv(w) && 0 <= c < |w.clients| && d.server == w.server && Attempts(w.clients) <= Attempts(d.clients)
    requires |d.clients| == |w.clients| && d.clients == w.clients[c := d.clients[c]] && ClientOk(d, c)
    ensures Inv(d)
  {
    forall k | 0 <= k < |d.clients|
      ensures ClientOk(d, k)
    {
      assert ClientOk(w, k);
    }
  }

  /** While attempts are too few for the version to wrap around, an append is accepted only onto the current list. */
  lemma StepKeeps(w: World, e: Event)
    requires Inv(w) && Enabled(w, e) && Attempts(Next(w, e).clients) + 1 < VERSIONS
    ensures Inv(Next(w, e))
    ensures w.server.value <= Next(w, e).server.value && |Next(w, e).clients| == |w.clients|
  {
    assert ClientOk(w, e.c);
    AttemptsNext(w, e);
    if e.Put? && w.server.version == w.clients[e.c].phase.ver {
      EntryKeeps(w, e.c, e.err);
    } else {
      QuietStepKeeps(w, Next(w, e), e.c);
    }
  }

  lemma StartInv(nclnt: nat)
    ensures Inv(Start(nclnt))
  {
  }

  lemma {:induction false} RunInv(nclnt: nat, ws: seq<World>, es: seq<Event>, i: nat)
    requires IsRun(nclnt, ws, es) && i <= |es| && Attempts(ws[i].clients) + 1 < VERSIONS
    ensures Inv(ws[i]) && |ws[i].clients| == nclnt
  {
    if i == 0 {
      StartInv(nclnt);
    } else {
      assert ws[i - 1 + 1] == Next(ws[i - 1], es[i - 1]);
      AttemptsNext(ws[i - 1], es[i - 1]);
      RunInv(nclnt, ws, es, i - 1);
      StepKeeps(ws[i - 1], es[i - 1]);
    }
  }

  /**
    The server carries out an append if and only if it names the server's version, and only the answer may be
    lost. The client tries again exactly after ErrVersion.
  */
  lemma PutAnswers(w: World, c: int, err: Err)
    requires w.server.KvState? && 0 <= c < |w.clients| && w.clients[c].phase.Holding?
    ensures Enabled(w, Put(c, err)) ==>
      var y := Next(w, Put(c, err)).clients[c]; y.phase == if err == ErrVersion then Retrying else Top
    ensures var x := w.clients[c]; var matches := w.server.version == x.phase.ver;
      && (Enabled(w, Put(c, err)) <==> err == ErrMaybe || err == if matches then OK else ErrVersion)
      && var appended := KvState(x.phase.es + [EntryN(c, x.i)], (x.phase.ver + 1) % VERSIONS);
      (Enabled(w, Put(c, err)) ==> Next(w, Put(c, err)).server == if matches then appended else w.server)
  {
  }

  /** A get hands the client the server's list and version. */
  lemma GetAnswers(w: World, c: int, es: seq<EntryN>)
    requires w.server.KvState? && 0 <= c < |w.clients| && w.clients[c].phase.Retrying?
    ensures Enabled(w, Get(c, es)) <==> es == w.server.value
    ensures Enabled(w, Get(c, es)) ==>
      Next(w, Get(c, es)) == w.(clients := w.clients[c := w.clients[c].(phase := Holding(es, w.server.version))])
  {
  }

  /** Client c's puts in es that were answered err. */
  function Answers(es: seq<Event>, c: int, err: Err): nat { multiset(es)[Put(c, err)] }

  lemma AnswersNext(es: seq<Event>, i: nat, c: int, err: Err)
    requires i < |es|
    ensures Answers(es[..i + 1], c, err) == Answers(es[..i], c, err) + if es[i] == Put(c, err) then 1 else 0
  {
    assert es[..i + 1] == es[..i] + [es[i]];
  }

  lemma StepCounts(w: World, e: Event, c: int)
    requires Enabled(w, e) && 0 <= c < |w.clients|
    ensures |Next(w, e).clients| == |w.clients|
    ensures var x, y := w.clients[c], Next(w, e).clients[c];
      && y.nok == x.nok + (if e == Put(c, OK) then 1 else 0)
      && y.nmay == x.nmay + (if e == Put(c, ErrMaybe) then 1 else 0)
  {
  }

  /** The puts of client c answered OK, or else those answered ErrMaybe, as it counts them. */
  function Counted(w: World, c: int, err: Err): nat {
    if !(0 <= c < |w.clients|) then 0 else if err == OK then w.clients[c].nok else w.clients[c].nmay
  }

  lemma RunStepCounts(nclnt: nat, ws: seq<World>, es: seq<Event>, i: nat, c: int, err: Err)
    requires IsRun(nclnt, ws, es) && i < |es| && (err == OK || err == ErrMaybe)
    ensures |ws[i + 1].clients| == |ws[i].clients|
    ensures 0 <= c < |ws[i].clients| ==>
      Counted(ws[i + 1], c, err) == Counted(ws[i], c, err) + if es[i] == Put(c, err) then 1 else 0
  {
    if 0 <= c < |ws[i].clients| {
      StepCounts(ws[i], es[i], c);
    }
  }

  /** Over every run a client counts exactly its puts that were answered OK and those answered ErrMaybe. */
  lemma {:induction false} CountsAreAnswers(nclnt: nat, ws: seq<World>, es: seq<Event>, i: nat, c: int, err: Err)
    requires IsRun(nclnt, ws, es) && i <= |es| && 0 <= c < nclnt && (err == OK || err == ErrMaybe)
    ensures |ws[i].clients| == nclnt && Counted(ws[i], c, err) == Answers(es[..i], c, err)
  {
    if i > 0 {
      CountsAreAnswers(nclnt, ws, es, i - 1, c, err);
      AnswersNext(es, i - 1, c, err);
      RunStepCounts(nclnt, ws, es, i - 1, c, err);
    }
  }

  // ---- The client's own loop --------------------------------------------------------------

  /** One round of the retry loop: what the get returns, then the answer to the put. */
  datatype Exchange = Exchange(es: seq<EntryN>, ver: int, err: Err)

  /** The client's steps over a list of rounds, going from the top straight into its next append. */
  function Rounds(x: Client, script: seq<Exchange>): Client {
    if script == [] then x
    else
      var last := script[|script| - 1];
      AfterPut(Rounds(x, script[..|script| - 1]).(phase := Holding(last.es, last.ver)), last.err)
  }

  /** How often err was the answer in the first n rounds. */
  function Times(script: seq<Exchange>, n: nat, err: Err): nat
    requires n <= |script|
  {
    if n == 0 then 0 else Times(script, n - 1, err) + if script[n - 1].err == err then 1 else 0
  }

  /** What round k puts: the list its get returned and an entry numbered by the appends that were over by then. */
  function RoundPuts(me: int, script: seq<Exchange>, k: nat): (seq<EntryN>, int)
    requires k < |script|
  {
    (script[k].es + [EntryN(me, Times(script, k, OK) + Times(script, k, ErrMaybe))], script[k].ver)
  }

  /** A client's rounds count exactly the OK and the maybe answers. */
  lemma {:induction false} RoundsCount(script: seq<Exchange>, n: nat)
    requires n <= |script|
    ensures var x := Rounds(Client(Top, 0, 0, 0), script[..n]);
      x.nok == Times(script, n, OK) && x.nmay == Times(script, n, ErrMaybe) && x.i == x.nok + x.nmay
  {
    if n > 0 {
      RoundsCount(script, n - 1);
      assert script[..n][..n - 1] == script[..n - 1];
    }
  }

  /**
    OneClientAppend against a server that answers as scripted, told to stop once the script is used up.
    It counts the rounds answered OK and those answered ErrMaybe.
  */
  method OneClientAppend(me: int, script: seq<Exchange>)
    returns (nok: nat, nmay: nat, puts: seq<(seq<EntryN>, int)>)
    ensures nok == Times(script, |script|, OK) && nmay == Times(script, |script|, ErrMaybe)
    ensures |puts| == |script| && forall k :: 0 <= k < |script| ==> puts[k] == RoundPuts(me, script, k)
    ensures nok == Rounds(Client(Top, 0, 0, 0), script).nok && nmay == Rounds(Client(Top, 0, 0, 0), script).nmay
  {
    nok, nmay, puts := 0, 0, [];
    var i, n := 0, 0;
    while n < |script|
      invariant 0 <= n <= |script| && i == nok + nmay
      invariant nok == Times(script, n, OK) && nmay == Times(script, n, ErrMaybe)
      invariant |puts| == n && forall k :: 0 <= k < n ==> puts[k] == RoundPuts(me, script, k)
    {
      while n < |script|
        invariant 0 <= n <= |script| && i == nok + nmay
        invariant nok == Times(script, n, OK) && nmay == Times(script, n, ErrMaybe)
        invariant |puts| == n && forall k :: 0 <= k < n ==> puts[k] == RoundPuts(me, script, k)
      {
        var es := script[n].es + [EntryN(me, i)];
        var err := script[n].err;
        puts := puts + [(es, script[n].ver)];
        n := n + 1;
        if err == OK {
          nok := nok + 1;
          i := i + 1;
          break;
        } else if err == ErrMaybe {
          nmay := nmay + 1;
          i := i + 1;
          break;
        }
      }
    }
    RoundsCount(script, |script|);
    assert script[..|script|] == script;
  }

  // ---- CheckAppends ------------------------------------------------------------------------

  /** What CheckAppends demands of the entries of client c. */
  ghost predicate Plausible(es: seq<EntryN>, c: int, rs: seq<ClntRes>) {
    && 0 <= c < |rs|
    && Expected(Mine(es, c)) - |Mine(es, c)| <= rs[c].nmaybe
    && Expected(Mine(es, c)) <= rs[c].nok + rs[c].nmaybe
  }

  ghost predicate Known(es: seq<EntryN>, nclnt: nat, c: int) {
    0 <= c < nclnt || exists k :: 0 <= k < |es| && es[k].id == c
  }

  ghost predicate Acceptable(es: seq<EntryN>, nclnt: nat, rs: seq<ClntRes>, ver: int) {
    && (forall c :: Climbs(Mine(es, c)))
    && Int64(|es| + 1) == Int64(ver)
    && forall c :: Known(es, nclnt, c) ==> Plausible(es, c, rs)
  }

  function Get0(m: map<int, int>, c: int): int {
    if c in m then m[c] else 0
  }

  /** What the maps say about client c after the entries es. */
  ghost predicate TracksOne(es: seq<EntryN>, c: int, expected: int, skipped: int) {
    Climbs(Mine(es, c)) && expected == Expected(Mine(es, c)) && skipped == Expected(Mine(es, c)) - |Mine(es, c)|
  }

  /** The two maps after the entries es. */
  ghost predicate Tracks(es: seq<EntryN>, nclnt: nat, expected: map<int, int>, skipped: map<int, int>) {
    && (forall c :: c in expected <==> Known(es, nclnt, c))
    && (forall c :: TracksOne(es, c, Get0(expected, c), Get0(skipped, c)))
  }

  lemma TracksOneNext(es: seq<EntryN>, e: EntryN, c: int, expected: int, skipped: int)
    requires TracksOne(es, c, expected, skipped) && (c == e.id ==> expected <= e.n)
    ensures TracksOne(es + [e], c, if c == e.id then e.n + 1 else expected,
                      if c == e.id then skipped + e.n - expected else skipped)
  {
    MineAppend(es, e, c);
    if c == e.id {
      ClimbsNext(Mine(es, c), e.n);
    }
  }

  lemma TracksNext(es: seq<EntryN>, e: EntryN, nclnt: nat, expected: map<int, int>, skipped: map<int, int>,
                   expected': map<int, int>, skipped': map<int, int>)
    requires Tracks(es, nclnt, expected, skipped) && Get0(expected, e.id) <= e.n
    requires expected' == expected[e.id := e.n + 1]
    requires forall c :: Get0(skipped', c) == Get0(skipped, c) + if c == e.id then e.n - Get0(expected, c) else 0
    ensures Tracks(es + [e], nclnt, expected', skipped')
  {
    forall c
      ensures TracksOne(es + [e], c, Get0(expected', c), Get0(skipped', c))
    {
      TracksOneNext(es, e, c, Get0(expected, c), Get0(skipped, c));
    }
    forall c
      ensures c in expected' <==> Known(es + [e], nclnt, c)
    {
      KnownNext(es, e, nclnt, c);
    }
  }

  lemma KnownNext(es: seq<EntryN>, e: EntryN, nclnt: nat, c: int)
    ensures Known(es + [e], nclnt, c) <==> Known(es, nclnt, c) || c == e.id
  {
    if c == e.id {
      assert (es + [e])[|es|].id == c;
    } else if k :| 0 <= k < |es| && es[k].id == c {
      assert (es + [e])[k].id == c;
    }
  }

  lemma {:induction false} MinePrefix(a: seq<EntryN>, es: seq<EntryN>, c: int)
    requires a <= es
    ensures Mine(a, c) <= Mine(es, c)
    decreases |es|
  {
    if |a| < |es| {
      MinePrefix(a, es[..|es| - 1], c);
    } else {
      assert a == es;
    }
  }

  /** An entry older than expected spoils the whole list. */
  lemma OldEntrySpoils(a: seq<EntryN>, e: EntryN, es: seq<EntryN>)
    requires a + [e] <= es && Climbs(Mine(a, e.id)) && e.n < Expected(Mine(a, e.id))
    ensures !Climbs(Mine(es, e.id))
  {
    MineAppend(a, e, e.id);
    ClimbsNext(Mine(a, e.id), e.n);
    MinePrefix(a + [e], es, e.id);
    if Climbs(Mine(es, e.id)) {
      ClimbsPrefix(Mine(a + [e], e.id), Mine(es, e.id));
    }
  }

  /** The maps before the first entry. */
  method Blank(nclnt: nat) returns (expected: map<int, int>, skipped: map<int, int>)
    ensures Tracks([], nclnt, expected, skipped)
  {
    expected, skipped := map[], map[];
    for i := 0 to nclnt
      invariant forall c :: c in expected <==> 0 <= c < i
      invariant forall c :: Get0(expected, c) == Get0(skipped, c) == 0
    {
      var expected', skipped' := expected[i := 0], skipped[i := 0];
      assert forall c :: Get0(expected', c) == if c == i then 0 else Get0(expected, c);
      assert forall c :: Get0(skipped', c) == if c == i then 0 else Get0(skipped, c);
      expected, skipped := expected', skipped';
    }
  }

  /** One entry that is not old: the client's next number is expected next, and what it jumped over was skipped. */
  method NoteEntry(e: EntryN, expected0: map<int, int>, skipped0: map<int, int>)
    returns (expected: map<int, int>, skipped: map<int, int>)
    requires Get0(expected0, e.id) <= e.n
    ensures expected == expected0[e.id := e.n + 1]
    ensures forall c :: Get0(skipped, c) == Get0(skipped0, c) + if c == e.id then e.n - Get0(expected0, c) else 0
  {
    expected, skipped := expected0, skipped0;
    if Get0(expected, e.id) == e.n {
      expected := expected[e.id := Get0(expected, e.id) + 1];
    } else {
      var s := e.n - Get0(expected, e.id);
      expected := expected[e.id := e.n + 1];
      skipped := skipped[e.id := Get0(skipped, e.id) + s];
    }
  }

  /** The scan of CheckAppends over the entries; ok is false when it met an entry older than expected. */
  method Scan(es: seq<EntryN>, nclnt: nat) returns (ok: bool, expected: map<int, int>, skipped: map<int, int>)
    ensures ok ==> Tracks(es, nclnt, expected, skipped)
    ensures !ok ==> exists c :: !Climbs(Mine(es, c))
  {
    expected, skipped := Blank(nclnt);
    for k := 0 to |es|
      invariant Tracks(es[..k], nclnt, expected, skipped)
    {
      var e := es[k];
      assert es[..k] + [e] == es[..k + 1];
      assert TracksOne(es[..k], e.id, Get0(expected, e.id), Get0(skipped, e.id));
      if Get0(expected, e.id) > e.n {
        OldEntrySpoils(es[..k], e, es);
        return false, expected, skipped;
      }
      var expected', skipped' := NoteEntry(e, expected, skipped);
      TracksNext(es[..k], e, nclnt, expected, skipped, expected', skipped');
      expected, skipped := expected', skipped';
    }
    assert es[..|es|] == es;
    ok := true;
  }

  /** Entries of one client count up from zero, in list order, each larger than the one before. */
  ghost predicate InOrder(es: seq<EntryN>) {
    && (forall k :: 0 <= k < |es| ==> es[k].n >= 0)
    && (forall j, k :: 0 <= j < k < |es| && es[j].id == es[k].id ==> es[j].n < es[k].n)
  }

  /** The numbers below that are missing from client c's entries. */
  function Missing(es: seq<EntryN>, c: int, below: int): set<int> {
    set n | 0 <= n < below && EntryN(c, n) !in es
  }

  /** What Mine holds, entry by entry. */
  lemma {:induction false} MineHolds(es: seq<EntryN>, c: int, n: int)
    ensures n in Mine(es, c) <==> EntryN(c, n) in es
  {
    if es != [] {
      var init, last := es[..|es| - 1], es[|es| - 1];
      MineHolds(init, c, n);
      assert es == init + [last];
    }
  }

  lemma OrderedPrefix(init: seq<EntryN>, last: EntryN)
    requires InOrder(init + [last])
    ensures InOrder(init)
    ensures last.n >= 0 && forall k :: 0 <= k < |init| && init[k].id == last.id ==> init[k].n < last.n
  {
    var es := init + [last];
    assert es[|init|] == last && forall k :: 0 <= k < |init| ==> init[k] == es[k];
  }

  lemma {:induction false} OrderedClimbs(es: seq<EntryN>, c: int)
    requires InOrder(es)
    ensures Climbs(Mine(es, c))
    decreases |es|
  {
    if es != [] {
      var init, last := es[..|es| - 1], es[|es| - 1];
      assert es == init + [last];
      OrderedPrefix(init, last);
      OrderedClimbs(init, c);
      MineAppend(init, last, c);
      if last.id == c {
        ExpectedIsNext(init, c);
        ClimbsNext(Mine(init, c), last.n);
      }
    }
  }

  /** Whatever comes last in a climbing list is beyond the rest. */
  lemma ClimbsToLast(s: seq<int>, n: int, x: int)
    requires Climbs(s + [n])
    ensures n >= 0 && (x in s ==> x < n)
  {
    var t := s + [n];
    assert t[|s|] == n;
    if x in s {
      var i :| 0 <= i < |s| && s[i] == x;
      assert t[i] == x;
    }
  }

  lemma {:induction false} ClimbingIsOrdered(es: seq<EntryN>)
    requires forall c :: Climbs(Mine(es, c))
    ensures InOrder(es)
    decreases |es|
  {
    if es != [] {
      var init, last := es[..|es| - 1], es[|es| - 1];
      assert es == init + [last];
      forall c
        ensures Climbs(Mine(init, c))
      {
        MineAppend(init, last, c);
        ClimbsPrefix(Mine(init, c), Mine(es, c));
      }
      ClimbingIsOrdered(init);
      MineAppend(init, last, last.id);
      forall k | 0 <= k < |init|
        ensures es[k] == init[k] && last.n >= 0 && (init[k].id == last.id ==> init[k].n < last.n)
      {
        MineHolds(init, last.id, init[k].n);
        assert init[k] in init;
        ClimbsToLast(Mine(init, last.id), last.n, init[k].n);
      }
      ClimbsToLast(Mine(init, last.id), last.n, 0);
    }
  }

  /** The numbers skipped are those below the next one expected that no entry has. */
  lemma {:induction false} SkippedAreMissing(es: seq<EntryN>, c: int)
    requires Climbs(Mine(es, c))
    ensures |Missing(es, c, Expected(Mine(es, c)))| == Expected(Mine(es, c)) - |Mine(es, c)|
  {
    var s := Mine(es, c);
    var below := Expected(s);
    forall i, j | 0 <= i < j < |s|
      ensures s[i] != s[j]
    {
      assert s[i] < s[j];
    }
    MembersSize(s);
    forall n | n in Members(s)
      ensures 0 <= n < below
    {
      var i :| 0 <= i < |s| && s[i] == n;
      assert i < |s| - 1 ==> s[i] < s[|s| - 1];
    }
    forall n
      ensures n in Missing(es, c, below) <==> 0 <= n < below && n !in Members(s)
    {
      MineHolds(es, c, n);
    }
    if s == [] {
      assert Missing(es, c, below) == {};
    } else {
      assert below >= 0;
      assert Missing(es, c, below) + Members(s) == Below(below);
      assert Missing(es, c, below) !! Members(s);
    }
  }

  /**
    What CheckAppends looks for, entry by entry: numbers that count up per client, a length that fits the
    version, no more numbers left out than puts answered maybe, and none beyond the OK and maybe answers.
  */
  ghost predicate Sound(es: seq<EntryN>, c: int, rs: seq<ClntRes>, next: int) {
    && 0 <= c < |rs|
    && |Missing(es, c, next)| <= rs[c].nmaybe
    && next <= rs[c].nok + rs[c].nmaybe
  }

  /** The number after the last one of client c; zero if it has none. */
  ghost predicate IsNext(es: seq<EntryN>, c: int, next: int) {
    && (forall k :: 0 <= k < |es| && es[k].id == c ==> es[k].n < next)
    && (next == 0 || EntryN(c, next - 1) in es)
    && (next == 0 ==> forall k :: 0 <= k < |es| ==> es[k].id != c)
  }

  lemma ExpectedIsNext(es: seq<EntryN>, c: int)
    requires Climbs(Mine(es, c))
    ensures IsNext(es, c, Expected(Mine(es, c)))
  {
    var s := Mine(es, c);
    forall k | 0 <= k < |es| && es[k].id == c
      ensures s != [] && es[k].n < Expected(s)
    {
      assert es[k] == EntryN(c, es[k].n);
      MineHolds(es, c, es[k].n);
      var i :| 0 <= i < |s| && s[i] == es[k].n;
      assert i < |s| - 1 ==> s[i] < s[|s| - 1];
    }
    if s != [] {
      MineHolds(es, c, s[|s| - 1]);
      var k :| 0 <= k < |es| && es[k] == EntryN(c, s[|s| - 1]);
    }
  }

  lemma NextIsUnique(es: seq<EntryN>, c: int, a: int, b: int)
    requires InOrder(es) && IsNext(es, c, a) && IsNext(es, c, b)
    ensures a <= b
  {
    if a != 0 {
      var k :| 0 <= k < |es| && es[k] == EntryN(c, a - 1);
    }
  }

  lemma CheckMeans(es: seq<EntryN>, nclnt: nat, rs: seq<ClntRes>, ver: int)
    ensures Acceptable(es, nclnt, rs, ver) <==>
      && InOrder(es) && Int64(|es| + 1) == Int64(ver)
      && forall c, next :: Known(es, nclnt, c) && IsNext(es, c, next) ==> Sound(es, c, rs, next)
  {
    if InOrder(es) {
      forall c
        ensures Climbs(Mine(es, c))
        ensures Plausible(es, c, rs) ==> forall next :: IsNext(es, c, next) ==> Sound(es, c, rs, next)
        ensures IsNext(es, c, Expected(Mine(es, c)))
        ensures Sound(es, c, rs, Expected(Mine(es, c))) ==> Plausible(es, c, rs)
      {
        OrderedClimbs(es, c);
        ExpectedIsNext(es, c);
        SkippedAreMissing(es, c);
        forall next | IsNext(es, c, next)
          ensures next == Expected(Mine(es, c))
        {
          NextIsUnique(es, c, next, Expected(Mine(es, c)));
          NextIsUnique(es, c, Expected(Mine(es, c)), next);
        }
      }
    } else if forall c :: Climbs(Mine(es, c)) {
      ClimbingIsOrdered(es);
    }
  }

  /** Length and version are compared as ints; for lists that a program can hold that is the plain comparison. */
  lemma LengthIsCompared(es: seq<EntryN>, ver: int)
    requires |es| < INT_LIMIT && 0 <= ver < VERSIONS
    ensures Int64(|es| + 1) == Int64(ver) <==> |es| + 1 == ver
  {
  }

  /** CheckAppends, with its fatal errors and its out-of-range panic as the answer false. */
  method CheckAppends(es: seq<EntryN>, nclnt: nat, rs: seq<ClntRes>, ver: int) returns (ok: bool)
    ensures ok <==> Acceptable(es, nclnt, rs, ver)
  {
    var inOrder, expected, skipped := Scan(es, nclnt);
    if !inOrder || Int64(|es| + 1) != Int64(ver) {
      return false;
    }
    assert forall c :: TracksOne(es, c, Get0(expected, c), Get0(skipped, c)) ==> Climbs(Mine(es, c));
    var rest := expected.Keys;
    while rest != {}
      invariant rest <= expected.Keys
      invariant forall c :: c in expected.Keys - rest ==> Plausible(es, c, rs)
    {
      ghost var some := Pick(rest);
      var c :| c in rest;
      assert Known(es, nclnt, c) && Get0(expected, c) == expected[c];
      assert TracksOne(es, c, Get0(expected, c), Get0(skipped, c));
      if !(0 <= c < |rs|) || Get0(skipped, c) > rs[c].nmaybe || expected[c] > rs[c].nok + rs[c].nmaybe {
        return false;
      }
      rest := rest - {c};
    }
    return true;
  }

  ghost predicate Results(s: seq<Client>, rs: seq<ClntRes>) {
    |rs| == |s| && forall c :: 0 <= c < |s| ==> s[c].phase == Returned && rs[c] == ClntRes(s[c].nok, s[c].nmay)
  }

  lemma {:induction false} ResultsTotal(s: seq<Client>, rs: seq<ClntRes>)
    requires Results(s, rs) && forall c :: 0 <= c < |s| ==> s[c].i == s[c].nok + s[c].nmay
    ensures Total(rs) == Attempts(s)
    decreases |s|
  {
    if s != [] {
      ResultsTotal(s[..|s| - 1], rs[..|rs| - 1]);
    }
  }

  /** Every attempt is counted as OK or as maybe. */
  lemma {:induction false} AttemptsAreNoted(nclnt: nat, ws: seq<World>, es: seq<Event>, i: nat)
    requires IsRun(nclnt, ws, es) && i <= |es|
    ensures forall c :: 0 <= c < |ws[i].clients| ==> ws[i].clients[c].i == ws[i].clients[c].nok + ws[i].clients[c].nmay
  {
    if i > 0 {
      AttemptsAreNoted(nclnt, ws, es, i - 1);
      assert ws[i - 1 + 1] == Next(ws[i - 1], es[i - 1]);
    }
  }

  /**
    Once all clients have returned, CheckAppends accepts the list they built, as long as the OK and maybe
    answers are few enough to be counted in an int.
  */
  lemma AppendsAreAccepted(nclnt: nat, ws: seq<World>, es: seq<Event>, i: nat, rs: seq<ClntRes>)
    requires IsRun(nclnt, ws, es) && i <= |es| && Results(ws[i].clients, rs) && Total(rs) < INT_LIMIT
    ensures ws[i].server.KvState? && ws[i].server.version == |ws[i].server.value| + 1
    ensures Acceptable(ws[i].server.value, nclnt, rs, ws[i].server.version)
  {
    AttemptsAreNoted(nclnt, ws, es, i);
    ResultsTotal(ws[i].clients, rs);
    RunInv(nclnt, ws, es, i);
    var w := ws[i];
    forall c
      ensures Climbs(Mine(w.server.value, c))
      ensures Known(w.server.value, nclnt, c) ==> Plausible(w.server.value, c, rs)
    {
      if 0 <= c < nclnt {
        assert ClientOk(w, c);
      } else {
        NoForeignEntries(w.server.value, nclnt, c);
      }
    }
  }

  lemma {:induction false} NoForeignEntries(es: seq<EntryN>, nclnt: nat, c: int)
    requires (forall k :: 0 <= k < |es| ==> 0 <= es[k].id < nclnt) && !(0 <= c < nclnt)
    ensures Mine(es, c) == [] && !Known(es, nclnt, c)
    decreases |es|
  {
    if es != [] {
      NoForeignEntries(es[..|es| - 1], nclnt, c);
    }
  }
}

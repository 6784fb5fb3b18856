/**
  The answers that the comments in src/kvsrv1/server.go and src/kvsrv1/client.go ask of a server
  and its clerk, for one key, and how KvModel.Step judges them.
*/
module KvServer {
  import opened KvModel
  import opened Locality

  datatype Entry = Absent | Held(value: string, version: int)

  /** Get and Put of the server. */
  function Answer(e: Entry, inp: KvInput<string>): KvOutput<string> {
    if inp.op == GET then
      if e.Absent? then KvOutput("", 0, ErrNoKey) else KvOutput(e.value, e.version, OK)
    else
      KvOutput("", 0, if Accepts(e, inp) then OK else if e.Absent? then ErrNoKey else ErrVersion)
  }

  /** A put is carried out if it names the version held, or 0 for a key that is not there. */
  predicate Accepts(e: Entry, inp: KvInput<string>) {
    inp.op == PUT && inp.version == if e.Absent? then 0 else e.version
  }

  function After(e: Entry, inp: KvInput<string>): Entry {
    if !Accepts(e, inp) then e
    else if e.Absent? then Held(inp.value, 1)
    else Held(inp.value, (e.version + 1) % VERSIONS)
  }

  /** The clerk passes the answer on, or says ErrMaybe if a reply to a put was lost. */
  predicate Reports(op: Operation, a: KvOutput<string>) {
    op.output == a || (op.input.op == PUT && op.output == a.(err := ErrMaybe))
  }

  predicate IsRequest(inp: KvInput<string>) { inp.op == GET || inp.op == PUT }

  /** The operations l, carried out one after the other from e on. */
  predicate Served(l: seq<Operation>, e: Entry) {
    l == []
    || (IsRequest(l[0].input) && Reports(l[0], Answer(e, l[0].input)) && Served(l[1..], After(e, l[0].input)))
  }

  /** The model's state for an entry: a key that is not there is empty at version 0. */
  function State(e: Entry): KvState<string> {
    if e.Absent? then INIT else KvState(e.value, e.version)
  }

  /** A put was answered that the key is not there. */
  predicate MissingKey(op: Operation) { op.input.op == PUT && op.output.err == ErrNoKey }

  /** Step accepts every served list, lost replies included, unless a put was answered ErrNoKey. */
  lemma {:induction false} ServedIsLegal(l: seq<Operation>, e: Entry)
    requires Served(l, e)
    ensures Legal(l, State(e)) <==> forall i :: 0 <= i < |l| ==> !MissingKey(l[i])
  {
    if l != [] {
      ServedIsLegal(l[1..], After(e, l[0].input));
      assert forall i :: 0 < i < |l| ==> l[i] == l[1..][i - 1];
    }
  }

  /** op shows what Step looks at in the served operation s: a get's value, a put's error. */
  predicate Shows(op: Operation, s: Operation) {
    && op.input == s.input
    && (op.input.op == GET ==> op.output.value == s.output.value)
    && (op.input.op == PUT ==> op.output.err == if s.output.err == ErrNoKey then ErrVersion else s.output.err)
  }

  predicate AllShow(l: seq<Operation>, m: seq<Operation>) {
    |l| == |m| && forall i :: 0 <= i < |l| ==> Shows(l[i], m[i])
  }

  /** The served operation behind one that Step accepts. */
  function Behind(op: Operation, e: Entry): Operation {
    var a := Answer(e, op.input);
    op.(output := if op.input.op == PUT && op.output.err == ErrMaybe then a.(err := ErrMaybe) else a)
  }

  lemma {:induction false} LegalHasServed(l: seq<Operation>, e: Entry) returns (m: seq<Operation>)
    requires Legal(l, State(e))
    ensures Served(m, e) && AllShow(l, m)
  {
    if l == [] {
      m := [];
    } else {
      var rest := LegalHasServed(l[1..], After(e, l[0].input));
      m := [Behind(l[0], e)] + rest;
      assert m[1..] == rest;
      assert forall i :: 0 < i < |l| ==> l[i] == l[1..][i - 1];
    }
  }

  lemma {:induction false} ShownIsLegal(l: seq<Operation>, m: seq<Operation>, e: Entry)
    requires Served(m, e) && AllShow(l, m)
    ensures Legal(l, State(e))
  {
    if l != [] {
      assert Shows(l[0], m[0]);
      ShownIsLegal(l[1..], m[1..], After(e, l[0].input));
    }
  }

  /**
    Step accepts exactly the lists that some served list shows: it neither refuses a correct server,
    lost replies included, nor passes an answer that no correct server gives. The one difference is
    that it wants ErrVersion for a put to a key that is not there.
  */
  lemma LegalMeansServed(l: seq<Operation>, e: Entry)
    ensures Legal(l, State(e)) <==> exists m :: Served(m, e) && AllShow(l, m)
  {
    if Legal(l, State(e)) {
      var m := LegalHasServed(l, e);
    }
    if m :| Served(m, e) && AllShow(l, m) {
      ShownIsLegal(l, m, e);
    }
  }
}

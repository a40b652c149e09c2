/**
 * When the echo reaches the client it belongs to. More than one client is enough for the wrong echo:
 * a session reads whatever comes next on the public FIFO, here the other client's connection request.
 * And one early read is enough for none.
 */
module EchoManyClients {
  import opened Bytes
  import opened Lists
  import opened EchoProtocol
  import opened EchoSafety
  import opened EchoAnswers
  import opened EchoSingleClient
  import opened EchoSteps
  import opened EchoStranded
  import opened EchoTraffic

  // ---- The wrong echo ----

  /** Client c has come from Start to where it awaits its status. */
  lemma Asks(cfg: Config, start: State, steps: seq<Step>, s: State, c: nat) returns (longer: seq<Step>, t: State)
    requires cfg.Valid() && Run(cfg, start, steps) == Some(s) && Patient(steps)
    requires c < |s.clients| == |cfg.names| && s.Alive() && |s.public| < cfg.capacity
    requires s.clients[c] == Client(Start, [], [], [])
    ensures Run(cfg, start, longer) == Some(t) && Patient(longer)
    ensures t == With(s, c, Client(AwaitStatus, [], [], [])).(met := true, public := s.public + [NewFrame(cfg, c)])
  {
    hide Run, FrameOf, NewFrame;
    NewFrameIs(cfg, c);
    longer, t := Extend(cfg, start, steps, s, ClientStep(c));
    longer, t := Extend(cfg, start, longer, t, ClientStep(c));
    longer, t := Extend(cfg, start, longer, t, ClientStep(c));
    longer, t := Extend(cfg, start, longer, t, ClientStep(c));
  }

  /** The server takes the only request there is, that of client 0. */
  lemma TakesRequest(cfg: Config, start: State, steps: seq<Step>, s: State) returns (longer: seq<Step>, t: State)
    requires cfg.Valid() && |cfg.names| >= 1 && Run(cfg, start, steps) == Some(s) && Patient(steps)
    requires s.server.Opening? && s.met && s.public == [NewFrame(cfg, 0)]
    ensures Run(cfg, start, longer) == Some(t) && Patient(longer)
    ensures t == s.(server := Connecting(cfg.names[0]), public := [], taken := s.taken + [NewFrame(cfg, 0)])
  {
    hide Run, FrameOf, NewFrame, KindOf, DataOf, SuccessFrame;
    FrameKinds(cfg, 0);
    longer, t := Extend(cfg, start, steps, s, ServerStep(true));
    longer, t := Extend(cfg, start, longer, t, ServerStep(true));
  }

  /** It greets client 0, which reads the greeting. */
  lemma Greets(cfg: Config, start: State, steps: seq<Step>, s: State) returns (longer: seq<Step>, t: State)
    requires cfg.Valid() && |cfg.names| >= 1 && Run(cfg, start, steps) == Some(s) && Patient(steps)
    requires s.server == Connecting(cfg.names[0]) && |s.clients| == |cfg.names|
    requires s.clients[0] == Client(AwaitStatus, [], [], [])
    ensures Run(cfg, start, longer) == Some(t) && Patient(longer)
    ensures t.server.Session? && t.server.fd !in s.table && t.table == s.table[t.server.fd := Private(0)]
    ensures t.connections == s.connections + [t.server.fd] && t.public == s.public
    ensures t.clients == s.clients[0 := Client(Connected, [], [SuccessFrame()], [])]
  {
    hide Run, FrameOf, NewFrame, KindOf, DataOf, SuccessFrame;
    FrameKinds(cfg, 0);
    assert IndexOf(cfg.names, cfg.names[0]) == 0;
    longer, t := Extend(cfg, start, steps, s, ServerStep(true));
    longer, t := Extend(cfg, start, longer, t, ServerStep(true));
    longer, t := Extend(cfg, start, longer, t, ClientStep(0));
    assert t.clients[0].got == [SuccessFrame()] && t.clients[0].inbox == [];
    assert t.clients == s.clients[0 := t.clients[0]];
  }

  /** The session takes the request of client 1 for the message of client 0, and echoes it. */
  lemma EchoesSecond(cfg: Config, start: State, steps: seq<Step>, s: State) returns (longer: seq<Step>, t: State)
    requires cfg.Valid() && |cfg.names| >= 2 && Run(cfg, start, steps) == Some(s) && Patient(steps)
    requires s.server.Session? && s.server.fd in s.table && s.table[s.server.fd] == Private(0)
    requires s.public == [NewFrame(cfg, 1)] && |s.clients| == |cfg.names|
    requires s.clients[0] == Client(Connected, [], [SuccessFrame()], [])
    ensures Run(cfg, start, longer) == Some(t) && Patient(longer)
    ensures t.server.Accepting? && t.public == [] && t.table == s.table && t.connections == s.connections
    ensures t.clients == s.clients[0 := Client(Connected, [NewFrame(cfg, 1)], [SuccessFrame()], [])]
  {
    hide Run, FrameOf, NewFrame, KindOf, DataOf, SuccessFrame;
    FrameKinds(cfg, 1);
    longer, t := Extend(cfg, start, steps, s, ServerStep(true));
    longer, t := Extend(cfg, start, longer, t, ServerStep(true));
    assert t.clients[0].inbox == [NewFrame(cfg, 1)];
    assert t.clients == s.clients[0 := t.clients[0]];
  }

  /** Client 0 writes its message and reads the answer that is there already. */
  lemma ReadsAnswer(cfg: Config, start: State, steps: seq<Step>, s: State) returns (longer: seq<Step>, t: State)
    requires cfg.Valid() && |cfg.names| >= 2 && Run(cfg, start, steps) == Some(s) && Patient(steps)
    requires s.server.Accepting? && s.public == [] && |s.clients| == |cfg.names|
    requires s.clients[0] == Client(Connected, [NewFrame(cfg, 1)], [SuccessFrame()], [])
    ensures Run(cfg, start, longer) == Some(t) && Patient(longer)
    ensures t.server.Accepting? && t.public == [MessageFrame(cfg, 0)]
    ensures t.table == s.table && t.connections == s.connections
    ensures t.clients == s.clients[0 := Client(Answered, [], [SuccessFrame(), NewFrame(cfg, 1)], cfg.names[1])]
  {
    hide Run, FrameOf, NewFrame, MessageFrame, KindOf, DataOf, SuccessFrame;
    FrameKinds(cfg, 1);
    NewFrameIs(cfg, 0);
    longer, t := Extend(cfg, start, steps, s, ClientStep(0));
    longer, t := Extend(cfg, start, longer, t, ClientStep(0));
    assert t.clients[0].got == [SuccessFrame(), NewFrame(cfg, 1)] && t.clients[0].inbox == [];
    assert t.clients == s.clients[0 := t.clients[0]];
  }

  /**
   * With two or more clients there is a run, all of whose reads wait for data, in which client 0 gets
   * the request of client 1 for an answer. That request is used up: client 1 is never served, however
   * the run goes on. And the message of client 0, which no session has read, makes the server go into
   * a session on descriptor 0 next, whatever that is.
   */
  lemma WrongEcho(cfg: Config, table: map<nat, Target>) returns (steps: seq<Step>)
    requires cfg.Valid() && |cfg.names| >= 2
    ensures Patient(steps)
    ensures var r := Run(cfg, Initial(cfg, table), steps);
            && r.Some? && |r.value.clients| == |cfg.names|
            && r.value.clients[0] == Client(Answered, [], [SuccessFrame(), NewFrame(cfg, 1)], cfg.names[1])
            && r.value.clients[1] == Client(AwaitStatus, [], [], [])
            && (NoPrivate(table) ==> Stranded(cfg, r.value, 1))
            && forall writeOk ::
                 var t := Next(cfg, r.value, ServerStep(writeOk));
                 t.Some? && t.value.server == Session(0)
    ensures forall more :: NoPrivate(table) && Run(cfg, Initial(cfg, table), steps + more).Some? ==>
              Stranded(cfg, Run(cfg, Initial(cfg, table), steps + more).value, 1)
  {
    hide Run, FrameOf, NewFrame, MessageFrame, SuccessFrame, Stranded;
    var start := Initial(cfg, table);
    var s := start;
    steps := EmptyRun(cfg, start);
    steps, s := Asks(cfg, start, steps, s, 0);
    steps, s := TakesRequest(cfg, start, steps, s);
    steps, s := Asks(cfg, start, steps, s, 1);
    steps, s := Greets(cfg, start, steps, s);
    steps, s := EchoesSecond(cfg, start, steps, s);
    steps, s := ReadsAnswer(cfg, start, steps, s);
    assert s.connections[0] == 0;
    forall writeOk: bool
      ensures var t := Next(cfg, s, ServerStep(writeOk)); t.Some? && t.value.server == Session(0)
    {
      FrameKinds(cfg, 0);
      AcceptStep(cfg, s, writeOk);
    }
    if NoPrivate(table) {
      var reached := ReachableInv(cfg, table, steps);
      RequestUsedUp(cfg, s);
      forall more | Run(cfg, start, steps + more).Some?
        ensures Stranded(cfg, Run(cfg, start, steps + more).value, 1)
      {
        StrandedForGood(cfg, start, steps, more, 1);
      }
    }
  }

  lemma RequestUsedUp(cfg: Config, s: State)
    requires Inv(cfg, s) && |cfg.names| >= 2 && s.server.Accepting? && s.public == [MessageFrame(cfg, 0)]
    requires s.clients[1] == Client(AwaitStatus, [], [], []) && !HasWriter(s.table, 1)
    ensures Stranded(cfg, s, 1)
  {
    hide NewFrame, MessageFrame, Inv;
    NamesAndMessages(cfg, s);
    NewFrameUnique(cfg, 1);
    assert MessageFrame(cfg, 0) != NewFrame(cfg, 1);
  }

  lemma NamesAndMessages(cfg: Config, s: State)
    requires Inv(cfg, s)
    ensures cfg.Valid() && |s.clients| == |cfg.names|
  {
  }

  // ---- No echo ----

  /**
   * For every configuration with a client there is a run in which client 0 looks for its echo too
   * early, takes the empty read for it, and ends with an empty answer.
   */
  lemma EarlyReadLosesEcho(cfg: Config, table: map<nat, Target>) returns (steps: seq<Step>)
    requires cfg.Valid() && |cfg.names| >= 1
    ensures var r := Run(cfg, Initial(cfg, table), steps);
            && r.Some? && |r.value.clients| == |cfg.names|
            && r.value.clients[0] == Client(Answered, [], [SuccessFrame()], [])
            && r.value.server.Session? && r.value.server.fd in r.value.table
            && r.value.table[r.value.server.fd] == Private(0)
            && r.value.public == [MessageFrame(cfg, 0)]
  {
    hide Run, FrameOf, NewFrame, MessageFrame, SuccessFrame, KindOf, DataOf;
    NewFrameIs(cfg, 0);
    var start := Initial(cfg, table);
    var s := start;
    steps := EmptyRun(cfg, start);
    steps, s := Asks(cfg, start, steps, s, 0);
    steps, s := TakesRequest(cfg, start, steps, s);
    steps, s := Greets(cfg, start, steps, s);
    steps, s := Extend(cfg, start, steps, s, ClientStep(0));
    ZerosDecode();
    assert s.table[s.server.fd] == Private(0);
    steps, s := Extend(cfg, start, steps, s, EagerRead(0));
  }

  /**
   * That client goes on to its end while the server still has its message to echo. The echo then finds
   * no reader, and the server dies of it, for every configuration with a client.
   */
  lemma LateEchoCrashesServer(cfg: Config, table: map<nat, Target>) returns (steps: seq<Step>)
    requires cfg.Valid() && |cfg.names| >= 1
    ensures var r := Run(cfg, Initial(cfg, table), steps);
            && r.Some? && |r.value.clients| == |cfg.names|
            && r.value.clients[0].phase.Done? && r.value.clients[0].inbox == [] && r.value.server.Crashed?
  {
    hide Run, FrameOf, NewFrame, MessageFrame, SuccessFrame, CloseFrame, KindOf, DataOf;
    var start := Initial(cfg, table);
    steps := EarlyReadLosesEcho(cfg, table);
    var s := Run(cfg, start, steps).value;
    FrameKinds(cfg, 0);
    steps, s := Extend(cfg, start, steps, s, ServerStep(true));
    steps, s := Extend(cfg, start, steps, s, ClientStep(0));
    steps, s := Extend(cfg, start, steps, s, ClientStep(0));
    steps, s := Extend(cfg, start, steps, s, ClientStep(0));
    steps, s := Extend(cfg, start, steps, s, ServerStep(true));
  }

  // ---- The exact conditions ----

  /** If client c has an answer, the frame it got for it is its own message. */
  ghost predicate EchoIsOwn(cfg: Config, s: State, c: nat)
    requires cfg.Valid() && c < |cfg.names|
  {
    c < |s.clients| && HasAnswer(s.clients[c].phase) ==>
      |s.clients[c].got| >= 2 && s.clients[c].got[1] == MessageFrame(cfg, c)
  }

  /** Every client's echo is its own, in all runs: those whose reads wait for data, and if `early` the others too. */
  ghost predicate AlwaysOwnEcho(cfg: Config, table: map<nat, Target>, early: bool)
    requires cfg.Valid()
  {
    forall steps, c: nat ::
      (early || Patient(steps)) && Run(cfg, Initial(cfg, table), steps).Some? && c < |cfg.names| ==>
        EchoIsOwn(cfg, Run(cfg, Initial(cfg, table), steps).value, c)
  }

  /**
   * Under the documented `ReadFrom` the echo always reaches the client it belongs to if and only if
   * there is at most one client.
   */
  lemma OwnEchoIffAlone(cfg: Config, table: map<nat, Target>)
    requires cfg.Valid()
    ensures AlwaysOwnEcho(cfg, table, false) <==> |cfg.names| <= 1
  {
    hide Run, NewFrame, MessageFrame, SuccessFrame;
    if |cfg.names| == 1 {
      forall steps | Patient(steps) && Run(cfg, Initial(cfg, table), steps).Some?
        ensures EchoIsOwn(cfg, Run(cfg, Initial(cfg, table), steps).value, 0)
      {
        InitialSolo(cfg, table);
        RunKeepsSolo(cfg, Initial(cfg, table), steps);
      }
    } else if |cfg.names| >= 2 {
      var steps := WrongEcho(cfg, table);
      NewFrameUnique(cfg, 1);
      assert !EchoIsOwn(cfg, Run(cfg, Initial(cfg, table), steps).value, 0);
    }
  }

  /** With the code's own `ReadFrom` no client at all can count on its echo. */
  lemma OwnEchoIffNobody(cfg: Config, table: map<nat, Target>)
    requires cfg.Valid()
    ensures AlwaysOwnEcho(cfg, table, true) <==> |cfg.names| == 0
  {
    hide Run, NewFrame, MessageFrame, SuccessFrame;
    if |cfg.names| >= 1 {
      var steps := EarlyReadLosesEcho(cfg, table);
      assert !EchoIsOwn(cfg, Run(cfg, Initial(cfg, table), steps).value, 0);
    }
  }

  /**
   * Run by run, with the code's own `ReadFrom`: a single client that has an answer has its own message
   * back if and only if none of its reads found the FIFO empty.
   */
  lemma OwnEchoIffWaited(cfg: Config, table: map<nat, Target>, steps: seq<Step>)
    requires cfg.Valid() && |cfg.names| == 1 && NoPrivate(table)
    requires Run(cfg, Initial(cfg, table), steps).Some?
    ensures var s := Run(cfg, Initial(cfg, table), steps).value;
            && |s.clients| == 1
            && (HasAnswer(s.clients[0].phase) ==> (EchoIsOwn(cfg, s, 0) <==> EagerRead(0) !in steps))
  {
    hide Run, MessageFrame, SuccessFrame;
    AnswerIffWaited(cfg, table, steps, 0);
    if EagerRead(0) !in steps {
      OnlyOwnReads(cfg, Initial(cfg, table), steps);
      InitialSolo(cfg, table);
      RunKeepsSolo(cfg, Initial(cfg, table), steps);
    }
  }

  /** Early reads of a run are made by its clients. */
  lemma {:induction false} OnlyOwnReads(cfg: Config, start: State, steps: seq<Step>)
    requires Run(cfg, start, steps).Some? && |start.clients| == 1
    ensures EagerRead(0) !in steps ==> Patient(steps)
  {
    hide NextClient, NextEager, NextServer;
    if steps != [] {
      var before, last := steps[..|steps| - 1], steps[|steps| - 1];
      OnlyOwnReads(cfg, start, before);
      var s := Run(cfg, start, before).value;
      SameClients(cfg, start, before);
      StepKeepsClients(cfg, s, last);
      assert last in steps && forall step <- before :: step in steps;
      assert forall step <- steps :: step in before || step == last;
    }
  }
}

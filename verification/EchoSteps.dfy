/**
 * What the system calls of the protocol do, told by how many of its own a client has made: 1 `mkfifo`,
 * 2 `open` to read, 3 `open` to write, 4 write the request, 5 read the status, 6 write the message,
 * 7 read the echo, 8 write the close frame, 9 `unlink`, 10 close both descriptors.
 */
module EchoSteps {
  import opened Bytes
  import opened EchoProtocol
  import opened EchoSafety
  import opened EchoAnswers
  import opened EchoTraffic

  /** How many steps of the run are client c's own. */
  function OwnSteps(steps: seq<Step>, c: nat): nat {
    if steps == [] then 0
    else
      var last := steps[|steps| - 1];
      OwnSteps(steps[..|steps| - 1], c) + if last == ClientStep(c) || last == EagerRead(c) then 1 else 0
  }

  /** Where a client is after n steps; one that is killed made its last step at an `open` or a write. */
  ghost predicate AtStep(p: ClientPhase, n: nat) {
    match p
    case Start => n == 0
    case FifoMade => n == 1
    case ReadEndOpen => n == 2
    case Linked => n == 3
    case AwaitStatus => n == 4
    case Connected => n == 5
    case AwaitEcho => n == 6
    case Answered => n == 7
    case Closing => n == 8
    case Unlinked => n == 9
    case Done => n == 10
    case Failed => n == 5
    case Killed => n == 3 || n == 4 || n == 6 || n == 8
  }

  lemma ClientAdvances(cfg: Config, s: State, c: nat, n: nat)
    requires c < |s.clients| && c < |cfg.names| && c < |cfg.messages| && NextClient(cfg, s, c).Some?
    requires AtStep(s.clients[c].phase, n)
    ensures |NextClient(cfg, s, c).value.clients| == |s.clients|
    ensures AtStep(NextClient(cfg, s, c).value.clients[c].phase, n + 1)
  {
    hide FrameOf, KindOf, DataOf, CloseFrame;
  }

  lemma EagerAdvances(s: State, c: nat, d: nat, n: nat)
    requires c < |s.clients| && d < |s.clients| && NextEager(s, d).Some? && AtStep(s.clients[c].phase, n)
    ensures |NextEager(s, d).value.clients| == |s.clients|
    ensures AtStep(NextEager(s, d).value.clients[c].phase, if c == d then n + 1 else n)
  {
    hide KindOf, DataOf;
  }

  /** A client's phase tells how many steps it has made. */
  lemma {:induction false} StepsAreCounted(cfg: Config, table: map<nat, Target>, steps: seq<Step>, c: nat)
    requires c < |cfg.names| && Run(cfg, Initial(cfg, table), steps).Some?
    ensures var s := Run(cfg, Initial(cfg, table), steps).value;
            |s.clients| == |cfg.names| && AtStep(s.clients[c].phase, OwnSteps(steps, c))
  {
    hide NextClient, NextEager, NextServer, AtStep;
    if steps == [] {
      assert AtStep(Start, 0) by { NothingDone(); }
    } else {
      var before, last := steps[..|steps| - 1], steps[|steps| - 1];
      StepsAreCounted(cfg, table, before, c);
      var s, n := Run(cfg, Initial(cfg, table), before).value, OwnSteps(before, c);
      match last {
        case ClientStep(d) =>
          if c == d {
            ClientAdvances(cfg, s, c, n);
          } else {
            ClientMovesAlone(cfg, s, d);
          }
        case EagerRead(d) => EagerAdvances(s, c, d, n);
        case ServerStep(writeOk) => ServerLeavesClients(cfg, s, writeOk);
      }
    }
  }

  lemma NothingDone()
    ensures AtStep(Start, 0)
  {
  }

  /** Client c has left at its fifth step, having taken an empty read for its status. */
  ghost predicate HasLeft(steps: seq<Step>, c: nat) {
    OwnSteps(steps, c) == 5 && EagerRead(c) in steps
  }

  /**
   * The server's write to the private FIFO of c is delivered exactly if c has opened it and not closed
   * it yet, and there is room; otherwise the write kills the server and changes nothing else.
   */
  lemma DeliveredIff(cfg: Config, table: map<nat, Target>, steps: seq<Step>, c: nat, writeOk: bool)
    requires cfg.Valid() && NoPrivate(table) && c < |cfg.names|
    requires Run(cfg, Initial(cfg, table), steps).Some?
    requires var s := Run(cfg, Initial(cfg, table), steps).value;
             (s.server.Greeting? || s.server.Echoing?) && s.server.fd in s.table && s.table[s.server.fd] == Private(c)
    ensures var s, n := Run(cfg, Initial(cfg, table), steps).value, OwnSteps(steps, c);
            var t := Next(cfg, s, ServerStep(writeOk));
            var frame := if s.server.Greeting? then SuccessFrame() else s.server.frame;
            && |s.clients| == |cfg.names|
            && t.Some? && |t.value.clients| == |s.clients|
            && if 2 <= n <= 9 && !HasLeft(steps, c) && |s.clients[c].inbox| < cfg.capacity
               then
                 && t.value.clients[c].inbox == s.clients[c].inbox + [frame]
                 && t.value.server == if s.server.Greeting? then Session(s.server.fd) else Accepting
               else t.value == s.(server := Crashed)
  {
    hide Run, FrameOf, SuccessFrame, DataOf, GoodHistory, Inv, OwnSteps;
    var s := ClientAfter(cfg, table, steps, c);
    StepsAreCounted(cfg, table, steps, c);
  }

  /**
   * A write to a descriptor that is no private FIFO: what the server inherited may take it, its own read
   * end of the public FIFO and a number that is not open do not, and then the server dies.
   */
  lemma WriteElsewhere(cfg: Config, s: State, writeOk: bool)
    requires s.server.Greeting? || s.server.Echoing?
    requires s.server.fd in s.table ==> !s.table[s.server.fd].Private?
    ensures var fd := s.server.fd;
            Next(cfg, s, ServerStep(writeOk))
            == Some(s.(server := if fd !in s.table || s.table[fd].Public? || !writeOk then Crashed
                                 else if s.server.Greeting? then Session(fd) else Accepting))
  {
    hide SuccessFrame;
  }

  /** Client c has opened the public FIFO: that is its third step. */
  ghost predicate HasOpened(cfg: Config, steps: seq<Step>, c: nat) {
    c < |cfg.names| && OwnSteps(steps, c) >= 3
  }

  /** The server's first `open` waits until some client has opened the public FIFO. */
  lemma OpensIff(cfg: Config, table: map<nat, Target>, steps: seq<Step>, writeOk: bool)
    requires Run(cfg, Initial(cfg, table), steps).Some?
    requires Run(cfg, Initial(cfg, table), steps).value.server.Opening?
    ensures Next(cfg, Run(cfg, Initial(cfg, table), steps).value, ServerStep(writeOk)).Some?
            <==> exists c :: HasOpened(cfg, steps, c)
  {
    hide Run;
    MetIff(cfg, table, steps);
  }

  lemma LastStepCounts(steps: seq<Step>, c: nat)
    requires steps != [] && !steps[|steps| - 1].ServerStep?
    ensures OwnSteps(steps, c) == OwnSteps(steps[..|steps| - 1], c) + if c == steps[|steps| - 1].c then 1 else 0
  {
  }

  lemma NoStepsYet(c: nat)
    ensures OwnSteps([], c) == 0
  {
  }

  lemma {:induction false} MetIff(cfg: Config, table: map<nat, Target>, steps: seq<Step>)
    requires Run(cfg, Initial(cfg, table), steps).Some?
    requires Run(cfg, Initial(cfg, table), steps).value.server.Opening?
    ensures Run(cfg, Initial(cfg, table), steps).value.met <==> exists c :: HasOpened(cfg, steps, c)
  {
    hide NextClient, NextEager, NextServer;
    if steps == [] {
      forall c: nat
        ensures !HasOpened(cfg, [], c)
      {
        NoStepsYet(c);
      }
    } else {
      var before, last := steps[..|steps| - 1], steps[|steps| - 1];
      var s, t := Run(cfg, Initial(cfg, table), before).value, Run(cfg, Initial(cfg, table), steps).value;
      NeverOpensAgain(cfg, s, last);
      MetIff(cfg, table, before);
      SameClients(cfg, Initial(cfg, table), before);
      StepsAreCounted(cfg, table, before, last.c);
      var n := OwnSteps(before, last.c);
      OpenedLater(cfg, steps);
      assert n >= 3 ==> HasOpened(cfg, before, last.c);
    }
  }

  lemma OpenedLater(cfg: Config, steps: seq<Step>)
    requires steps != [] && !steps[|steps| - 1].ServerStep? && steps[|steps| - 1].c < |cfg.names|
    ensures var before, c := steps[..|steps| - 1], steps[|steps| - 1].c;
            (exists d :: HasOpened(cfg, steps, d))
            <==> (exists d :: HasOpened(cfg, before, d)) || OwnSteps(before, c) >= 2
  {
    var before, c := steps[..|steps| - 1], steps[|steps| - 1].c;
    forall d: nat
      ensures HasOpened(cfg, steps, d) <==> HasOpened(cfg, before, d) || (d == c && OwnSteps(before, c) >= 2)
    {
      LastStepCounts(steps, d);
    }
    assert OwnSteps(before, c) >= 2 ==> HasOpened(cfg, steps, c);
  }

  /** A step after which the server is still opening: a client's, and its third one lets the server go on. */
  lemma NeverOpensAgain(cfg: Config, s: State, step: Step)
    requires Next(cfg, s, step).Some? && Next(cfg, s, step).value.server.Opening?
    ensures s.server.Opening? && !step.ServerStep? && step.c < |s.clients|
    ensures step.ClientStep? ==> step.c < |cfg.names|
    ensures forall n :: AtStep(s.clients[step.c].phase, n) ==>
              (Next(cfg, s, step).value.met <==> s.met || n == 2) && (step.EagerRead? ==> n >= 3)
  {
    hide FrameOf, KindOf, DataOf, CloseFrame, SuccessFrame, Admit;
  }

  /**
   * When client c can make its next step, and what that does: an `open` or a write to the public FIFO
   * kills it when the server has ended, a write waits for room, a read for a frame.
   */
  lemma ClientMovesIff(cfg: Config, table: map<nat, Target>, steps: seq<Step>, c: nat)
    requires cfg.Valid() && NoPrivate(table) && c < |cfg.names|
    requires Run(cfg, Initial(cfg, table), steps).Some?
    ensures var s, n := Run(cfg, Initial(cfg, table), steps).value, OwnSteps(steps, c);
            var t, writes := Next(cfg, s, ClientStep(c)), n == 3 || n == 5 || n == 7;
            && |s.clients| == |cfg.names|
            && (t.Some? <==>
                  && !s.clients[c].phase.Killed? && !HasLeft(steps, c) && n != 10
                  && (n == 2 ==> !s.server.Crashed?)
                  && (writes && s.Alive() ==> |s.public| < cfg.capacity)
                  && (n == 4 || n == 6 ==> s.clients[c].inbox != []))
            && (t.Some? ==>
                  && |t.value.clients| == |s.clients|
                  && (t.value.clients[c].phase.Killed? <==> !s.Alive() && (n == 2 || writes))
                  && t.value.public == s.public + (if !writes || !s.Alive() then []
                                                   else if n == 3 then [FrameOf(1, cfg.names[c])]
                                                   else if n == 5 then [FrameOf(0, cfg.messages[c])]
                                                   else [FrameOf(3, [])])
                  && t.value.clients[c].inbox == s.clients[c].inbox[if n == 4 || n == 6 then 1 else 0..])
  {
    hide Run, FrameOf, SuccessFrame, DataOf, KindOf, GoodHistory, Inv, OwnSteps;
    var s := ClientAfter(cfg, table, steps, c);
    StepsAreCounted(cfg, table, steps, c);
    HasClients(cfg, s);
  }

  /**
   * When client c can find its FIFO empty too early: while it awaits its status or its echo, and the
   * server runs and holds a descriptor for that FIFO. At the status it leaves, at the echo it takes
   * the empty text for its answer.
   */
  lemma EarlyReadIff(cfg: Config, table: map<nat, Target>, steps: seq<Step>, c: nat)
    requires cfg.Valid() && NoPrivate(table) && c < |cfg.names|
    requires Run(cfg, Initial(cfg, table), steps).Some?
    ensures var s, n := Run(cfg, Initial(cfg, table), steps).value, OwnSteps(steps, c);
            var t := Next(cfg, s, EagerRead(c));
            && |s.clients| == |cfg.names|
            && (t.Some? <==>
                  && (n == 4 || n == 6) && s.clients[c].inbox == []
                  && s.Alive() && exists fd <- s.table :: s.table[fd] == Private(c))
            && (t.Some? ==>
                  && |t.value.clients| == |s.clients|
                  && if n == 4 then t.value.clients[c].phase.Failed?
                     else t.value.clients[c].phase.Answered? && t.value.clients[c].response == [])
  {
    hide Run, FrameOf, SuccessFrame, KindOf, DataOf, GoodHistory, Inv, OwnSteps;
    var s := ClientAfter(cfg, table, steps, c);
    StepsAreCounted(cfg, table, steps, c);
    ZerosDecode();
  }

  /**
   * `Accept` in the protocol: a request is met by an `open` of the FIFO it names, a message goes to a
   * session on descriptor 0 if the table holds a 0, and anything else ends the server.
   */
  lemma AcceptStep(cfg: Config, s: State, writeOk: bool)
    requires s.server.Accepting?
    ensures Next(cfg, s, ServerStep(writeOk)).Some? <==> s.public != []
    ensures s.public != [] ==>
              var f := s.public[0];
              Next(cfg, s, ServerStep(writeOk)).value
              == s.(public := s.public[1..], taken := s.taken + [f],
                    server := if KindOf(f) == Some(1) then Connecting(DataOf(f))
                              else if KindOf(f) == Some(0) && 0 in s.connections then Session(0)
                              else Leaving)
  {
    hide KindOf, DataOf;
  }
}

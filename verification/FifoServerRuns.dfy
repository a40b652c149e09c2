/**
 * Every run of the interleaving protocol is a run of the sequential server: there is a stream of
 * inputs, delivering just the frames the protocol's server has read, on which the server's code
 * keeps the same session table and the same descriptors.
 */
module FifoServerRuns {
  import opened Bytes
  import opened Posix
  import opened PackageCodec
  import opened EchoProtocol
  import opened EchoTraffic
  import opened FifoServer

  // ---- Inputs that have been read in part ----

  function FrameRead(attempts: seq<Attempt>): seq<Frame> {
    match Stopping(attempts)
    case Some(Delivered(f)) => [f]
    case _ => []
  }

  /** The frames that the inputs deliver, in the order in which the server reads them. */
  function Frames(inputs: seq<Input>): seq<Frame> {
    if inputs == [] then []
    else
      var last := inputs[|inputs| - 1];
      Frames(inputs[..|inputs| - 1]) + FrameRead(last.request) + FrameRead(last.message)
  }

  lemma FramesAppend(inputs: seq<Input>, last: Input)
    ensures Frames(inputs + [last]) == Frames(inputs) + FrameRead(last.request) + FrameRead(last.message)
  {
    assert (inputs + [last])[..|inputs|] == inputs;
  }

  /** The turn in which `Accept` has read f: how far it gets, and what the session reads. */
  function TurnOn(f: Frame, openOk: bool, greetOk: bool, message: seq<Attempt>, echoOk: bool): Input {
    Input([Delivered(f)], openOk, greetOk, message, echoOk)
  }

  lemma OneAttempt(f: Frame, prior: Frame)
    ensures Stopping([Delivered(f)]) == Some(Delivered(f)) && Seen([Delivered(f)], prior) == f
    ensures FrameRead([Delivered(f)]) == [f] && FrameRead([]) == [] && Stopping([]).None?
  {
  }

  // ---- The simulation ----

  /** The server's writes as its books note them. */
  function Noted(sends: seq<Sent>): (r: seq<(nat, Frame)>)
    ensures |r| == |sends|
    ensures forall k :: 0 <= k < |r| ==> r[k] == (sends[k].fd, sends[k].frame)
  {
    seq(|sends|, k requires 0 <= k < |sends| => (sends[k].fd, sends[k].frame))
  }

  /** The session table, the open descriptors and the writes of the two models of the server. */
  ghost predicate Matches(b: Book, s: State, sends: seq<Sent>) {
    b.connections == s.connections && b.fds.table.Keys == s.table.Keys && b.sent == Noted(sends)
  }

  /** Where the server stands in the turn on which it has read f first, when its books were c before. */
  ghost predicate InTurn(server: ServerPhase, c: Book, f: Frame, turn: Input) {
    match server
    case Connecting(name) => turn == TurnOn(f, false, false, [], false) && Admit(f, c.connections) == Newcomer(name)
    case Greeting(fd) =>
      turn == TurnOn(f, true, false, [], false) && Admit(f, c.connections).Newcomer? && fd == c.fds.Allocate().1
    case Session(fd) => turn == TurnOn(f, true, true, [], false) && Accepted(c, turn).1 == Returned(fd)
    case Echoing(fd, g) =>
      && turn == TurnOn(f, true, true, [Delivered(g)], false) && Accepted(c, turn).1 == Returned(fd)
      && KindOf(g) != Some(CONNECTION_CLOSE)
    case Crashed => TurnEnd(c, turn) == Threw
    case Leaving => TurnEnd(c, turn) == Returned(-1)
    case Gone => TurnEnd(c, turn) == Returned(-1)
    case _ => true
  }

  predicate BetweenTurns(server: ServerPhase) {
    server.Opening? || server.Accepting?
  }

  /** The turns `done` are over and `turn` is the one under way; f is the frame it has begun with. */
  ghost predicate Simulates(b: Book, done: seq<Input>, turn: Option<Input>, f: Frame, s: State, sends: seq<Sent>) {
    && AllGoOn(b, done)
    && (BetweenTurns(s.server) <==> turn.None?)
    && match turn
       case None => Matches(Served(b, done), s, sends) && Frames(done) == s.taken
       case Some(t) =>
         var c := Served(b, done);
         InTurn(s.server, c, f, t) && Matches(Turned(c, t).0, s, sends) && Frames(done + [t]) == s.taken
  }

  /** What the books come to when a turn is cut short at some point. */
  lemma TurnValues(c: Book, f: Frame, openOk: bool, greetOk: bool, message: seq<Attempt>, echoOk: bool)
    ensures var turn := TurnOn(f, openOk, greetOk, message, echoOk);
            && Accepted(c, turn) == (match Admit(f, c.connections)
                                     case Newcomer(_) => if openOk then Greeted(c, greetOk) else (c, Threw)
                                     case Known(fd) => (c, Returned(fd))
                                     case Refused => (c, Returned(-1)))
  {
    hide Admit, Greeted;
    OneAttempt(f, Zeros(FRAME));
  }

  lemma SessionValues(c: Book, fd: nat, turn: Input)
    ensures turn.message == [] ==> Conversed(c, fd, turn) == (c, Waiting)
    ensures forall g :: turn.message == [Delivered(g)] ==>
              Conversed(c, fd, turn) == if KindOf(g) == Some(CONNECTION_CLOSE) then Ended(c, fd)
                                        else if turn.echoOk then (c.(sent := c.sent + [(fd, g)]), Returned(0))
                                        else (c, Threw)
  {
    hide KindOf, Ended;
    forall g | turn.message == [Delivered(g)]
      ensures Conversed(c, fd, turn) == if KindOf(g) == Some(CONNECTION_CLOSE) then Ended(c, fd)
                                        else if turn.echoOk then (c.(sent := c.sent + [(fd, g)]), Returned(0))
                                        else (c, Threw)
    {
      OneAttempt(g, Zeros(FRAME));
    }
  }

  /** `Accept` reads a frame: a turn begins. */
  lemma BeginsTurn(cfg: Config, b: Book, done: seq<Input>, f: Frame, s: State, sends: seq<Sent>, writeOk: bool)
      returns (turn: Input)
    requires Simulates(b, done, None, f, s, sends) && s.server.Accepting? && s.public != []
    ensures NextServer(cfg, s, writeOk).Some?
    ensures Simulates(b, done, Some(turn), s.public[0], NextServer(cfg, s, writeOk).value, sends)
  {
    hide Admit, KindOf, DataOf, Greeted, Served, AllGoOn;
    var g, c := s.public[0], Served(b, done);
    var newcomer := Admit(g, c.connections).Newcomer?;
    turn := TurnOn(g, !newcomer, !newcomer, [], false);
    AdmitValues(g, c.connections);
    TurnValues(c, g, !newcomer, !newcomer, [], false);
    SessionValues(c, 0, turn);
    OneAttempt(g, Zeros(FRAME));
    FramesAppend(done, turn);
    assert Frames(done) + [g] + [] == s.taken + [g];
  }

  lemma AdmitValues(f: Frame, connections: seq<nat>)
    ensures Admit(f, connections).Known? ==> Admit(f, connections).fd == 0
  {
    hide KindOf, DataOf;
  }

  /** A write of the server changes nothing it keeps, but for the phase. */
  lemma SendTouchesNothing(cfg: Config, s: State, fd: nat, f: Frame, phase: ServerPhase, writeOk: bool)
    ensures var t := Send(cfg, s, fd, f, phase, writeOk);
            && t.connections == s.connections && t.table == s.table && t.taken == s.taken
            && (t.server == phase || t.server == Crashed)
            && (t.server == phase && !phase.Crashed? ==> fd in s.table)
  {
  }

  lemma NotedAppend(sends: seq<Sent>, more: seq<Sent>)
    ensures Noted(sends + more) == Noted(sends) + Noted(more)
    ensures sends + [] == sends
  {
  }

  /** The private FIFO is opened. */
  lemma Opens(cfg: Config, c: Book, f: Frame, turn: Input, s: State, sends: seq<Sent>, writeOk: bool)
      returns (further: Input)
    requires InTurn(s.server, c, f, turn) && Matches(Turned(c, turn).0, s, sends) && s.server.Connecting?
    ensures NextServer(cfg, s, writeOk).Some?
    ensures var t := NextServer(cfg, s, writeOk).value;
            && InTurn(t.server, c, f, further) && Matches(Turned(c, further).0, t, sends + SentBy(s, t))
               && t.taken == s.taken
            && !BetweenTurns(t.server)
    ensures further.request == turn.request && further.message == turn.message
  {
    hide Admit, Conversed;
    var t := NextServer(cfg, s, writeOk).value;
    TurnValues(c, f, false, false, [], false);
    TurnValues(c, f, true, false, [], false);
    further := if t.server.Greeting? then TurnOn(f, true, false, [], false) else turn;
  }

  /** The greeting is written. */
  lemma Greets(cfg: Config, c: Book, f: Frame, turn: Input, s: State, sends: seq<Sent>, writeOk: bool)
      returns (further: Input)
    requires InTurn(s.server, c, f, turn) && Matches(Turned(c, turn).0, s, sends) && s.server.Greeting?
    ensures NextServer(cfg, s, writeOk).Some?
    ensures var t := NextServer(cfg, s, writeOk).value;
            && InTurn(t.server, c, f, further) && Matches(Turned(c, further).0, t, sends + SentBy(s, t))
               && t.taken == s.taken
            && !BetweenTurns(t.server)
    ensures further.request == turn.request && further.message == turn.message
  {
    hide Admit, Conversed, Send, SuccessFrame;
    var t := NextServer(cfg, s, writeOk).value;
    SendTouchesNothing(cfg, s, s.server.fd, SuccessFrame(), Session(s.server.fd), writeOk);
    TurnValues(c, f, true, false, [], false);
    TurnValues(c, f, true, true, [], false);
    further := if t.server.Session? then TurnOn(f, true, true, [], false) else turn;
    SessionValues(Greeted(c, true).0, s.server.fd, further);
  }

  /** The session reads a frame. */
  lemma SessionReads(cfg: Config, c: Book, f: Frame, turn: Input, s: State, sends: seq<Sent>, writeOk: bool)
      returns (further: Input)
    requires InTurn(s.server, c, f, turn) && Matches(Turned(c, turn).0, s, sends) && s.server.Session? && s.public != []
    ensures NextServer(cfg, s, writeOk).Some?
    ensures var t := NextServer(cfg, s, writeOk).value;
            && Matches(Turned(c, further).0, t, sends + SentBy(s, t)) && t.taken == s.taken + [s.public[0]]
            && InTurn(t.server, c, f, further) && (BetweenTurns(t.server) ==> Turned(c, further).1)
    ensures further.request == turn.request && turn.message == [] && further.message == [Delivered(s.public[0])]
  {
    hide Admit, Accepted, Conversed, KindOf, Turned, TurnEnd, Send, Greeted, SentBy, Noted;
    var g := s.public[0];
    NoOtherWrites(s, NextServer(cfg, s, writeOk).value);
    assert sends + [] == sends;
    further := TurnOn(f, true, true, [Delivered(g)], false);
    SameAcceptance(c, turn, further);
    var accepted := Accepted(c, turn).0;
    SessionValues(accepted, s.server.fd, turn);
    SessionValues(accepted, s.server.fd, further);
    TurnBySession(c, turn, s.server.fd);
    TurnBySession(c, further, s.server.fd);
  }

  /** A turn whose `Accept` gives a session ends as the session does. */
  lemma TurnBySession(c: Book, turn: Input, fd: nat)
    requires Accepted(c, turn).1 == Returned(fd)
    ensures var (d, r) := Conversed(Accepted(c, turn).0, fd, turn);
            Turned(c, turn) == (d, r.Returned?) && TurnEnd(c, turn) == r
  {
    hide Accepted, Conversed;
  }

  lemma SameAcceptance(c: Book, a: Input, b: Input)
    requires a.request == b.request && a.openOk == b.openOk && a.greetOk == b.greetOk
    ensures Accepted(c, a) == Accepted(c, b)
  {
  }

  /** The echo is written. */
  lemma Echoes(cfg: Config, c: Book, f: Frame, turn: Input, s: State, sends: seq<Sent>, writeOk: bool)
      returns (further: Input)
    requires InTurn(s.server, c, f, turn) && Matches(Turned(c, turn).0, s, sends) && s.server.Echoing?
    ensures NextServer(cfg, s, writeOk).Some?
    ensures var t := NextServer(cfg, s, writeOk).value;
            && Matches(Turned(c, further).0, t, sends + SentBy(s, t)) && t.taken == s.taken
            && InTurn(t.server, c, f, further) && (BetweenTurns(t.server) ==> Turned(c, further).1)
    ensures further.request == turn.request && further.message == turn.message
  {
    hide Admit, Accepted, Conversed, KindOf, Turned, TurnEnd, Send, Greeted;
    var g, t := s.server.frame, NextServer(cfg, s, writeOk).value;
    SendTouchesNothing(cfg, s, s.server.fd, g, Accepting, writeOk);
    NotedAppend(sends, SentBy(s, t));
    further := if t.server.Accepting? then turn.(echoOk := true) else turn;
    SameAcceptance(c, turn, further);
    var accepted := Accepted(c, turn).0;
    SessionValues(accepted, s.server.fd, turn);
    SessionValues(accepted, s.server.fd, further);
    TurnBySession(c, turn, s.server.fd);
    TurnBySession(c, further, s.server.fd);
  }

  /** A turn that has gone on further goes on being simulated, as a finished one if it is over. */
  lemma GoesFurther(b: Book, done: seq<Input>, turn: Input, f: Frame, s: State, sends: seq<Sent>, further: Input,
      t: State)
      returns (done': seq<Input>, turn': Option<Input>)
    requires Simulates(b, done, Some(turn), f, s, sends)
    requires var c := Served(b, done);
             && InTurn(t.server, c, f, further) && Matches(Turned(c, further).0, t, sends + SentBy(s, t))
             && (BetweenTurns(t.server) ==> Turned(c, further).1)
    requires further.request == turn.request
    requires (further.message == turn.message && t.taken == s.taken)
             || (turn.message == [] && t.taken == s.taken + FrameRead(further.message))
    ensures Simulates(b, done', turn', f, t, sends + SentBy(s, t))
  {
    hide InTurn, Turned, Served, AllGoOn, Frames, Matches;
    FramesAppend(done, turn);
    FramesAppend(done, further);
    ServedAppend(b, done, further);
    if turn.message == [] {
      assert FrameRead([]) == [];
    }
    if BetweenTurns(t.server) {
      done', turn' := done + [further], None;
    } else {
      done', turn' := done, Some(further);
    }
  }

  /** Clients do not touch what the server keeps. */
  lemma ClientsTouchNothing(cfg: Config, s: State, step: Step)
    requires Next(cfg, s, step).Some? && !step.ServerStep?
    ensures var t := Next(cfg, s, step).value;
            t.server == s.server && t.connections == s.connections && t.table == s.table && t.taken == s.taken
  {
    hide FrameOf, KindOf, DataOf, CloseFrame, HasWriter, Put;
    if step.ClientStep? {
      forall f, phase {:trigger Put(cfg, s, step.c, f, phase)} | Put(cfg, s, step.c, f, phase).Some?
        ensures var t := Put(cfg, s, step.c, f, phase).value;
                t.server == s.server && t.connections == s.connections && t.table == s.table && t.taken == s.taken
      {
        PutTouchesNothing(cfg, s, step.c, f, phase);
      }
    }
  }

  lemma PutTouchesNothing(cfg: Config, s: State, c: nat, f: Frame, phase: ClientPhase)
    requires c < |s.clients| && Put(cfg, s, c, f, phase).Some?
    ensures var t := Put(cfg, s, c, f, phase).value;
            t.server == s.server && t.connections == s.connections && t.table == s.table && t.taken == s.taken
  {
  }

  lemma StepIsSimulated(cfg: Config, b: Book, done: seq<Input>, turn: Option<Input>, f: Frame, s: State,
                        sends: seq<Sent>, step: Step)
      returns (done': seq<Input>, turn': Option<Input>, f': Frame)
    requires Simulates(b, done, turn, f, s, sends) && Next(cfg, s, step).Some?
    ensures var t := Next(cfg, s, step).value;
            Simulates(b, done', turn', f', t, sends + if step.ServerStep? then SentBy(s, t) else [])
  {
    hide NextClient, NextEager, NextServer, InTurn, Served, AllGoOn, Frames, Turned, FrameRead, SentBy;
    var t := Next(cfg, s, step).value;
    done', turn', f' := done, turn, f;
    assert sends + [] == sends;
    if !step.ServerStep? {
      ClientsTouchNothing(cfg, s, step);
    } else {
      if !s.server.Greeting? && !s.server.Echoing? {
        NoOtherWrites(s, t);
      }
      match s.server {
        case Accepting =>
          SessionNeedsFrame(cfg, s, step.writeOk);
          var begun := BeginsTurn(cfg, b, done, f, s, sends, step.writeOk);
          turn', f' := Some(begun), s.public[0];
        case Connecting(_) =>
          var further := Opens(cfg, Served(b, done), f, turn.value, s, sends, step.writeOk);
          done', turn' := GoesFurther(b, done, turn.value, f, s, sends, further, t);
        case Greeting(_) =>
          var further := Greets(cfg, Served(b, done), f, turn.value, s, sends, step.writeOk);
          done', turn' := GoesFurther(b, done, turn.value, f, s, sends, further, t);
        case Session(_) =>
          SessionNeedsFrame(cfg, s, step.writeOk);
          OneAttempt(s.public[0], Zeros(FRAME));
          var further := SessionReads(cfg, Served(b, done), f, turn.value, s, sends, step.writeOk);
          done', turn' := GoesFurther(b, done, turn.value, f, s, sends, further, t);
        case Echoing(_, _) =>
          var further := Echoes(cfg, Served(b, done), f, turn.value, s, sends, step.writeOk);
          done', turn' := GoesFurther(b, done, turn.value, f, s, sends, further, t);
        case _ => RestIsSimulated(cfg, b, done, turn, f, s, sends, step.writeOk);
      }
    }
  }

  lemma NoOtherWrites(s: State, t: State)
    requires !s.server.Greeting? && !s.server.Echoing?
    ensures SentBy(s, t) == []
  {
  }

  /** The server starts accepting, or ends. */
  lemma RestIsSimulated(cfg: Config, b: Book, done: seq<Input>, turn: Option<Input>, f: Frame, s: State,
                        sends: seq<Sent>, writeOk: bool)
    requires Simulates(b, done, turn, f, s, sends) && NextServer(cfg, s, writeOk).Some?
    requires s.server.Opening? || s.server.Leaving? || s.server.Gone? || s.server.Crashed?
    ensures Simulates(b, done, turn, f, NextServer(cfg, s, writeOk).value, sends)
  {
    hide Served, AllGoOn, Frames, Turned;
  }

  lemma StartIsSimulated(b: Book, f: Frame, s: State)
    requires s.server.Opening? && s.taken == [] && Matches(b, s, [])
    ensures Simulates(b, [], None, f, s, [])
  {
  }

  lemma SessionNeedsFrame(cfg: Config, s: State, writeOk: bool)
    requires (s.server.Session? || s.server.Accepting?) && NextServer(cfg, s, writeOk).Some?
    ensures s.public != []
  {
  }

  lemma {:induction false} RunIsSimulated(cfg: Config, b: Book, s: State, steps: seq<Step>)
      returns (done: seq<Input>, turn: Option<Input>, f: Frame)
    requires s.server.Opening? && s.taken == [] && Matches(b, s, []) && Run(cfg, s, steps).Some?
    ensures Simulates(b, done, turn, f, Run(cfg, s, steps).value, Sends(cfg, s, steps))
  {
    hide Next, Simulates, SentBy;
    if steps == [] {
      done, turn, f := [], None, Zeros(FRAME);
      StartIsSimulated(b, f, s);
    } else {
      var before := steps[..|steps| - 1];
      done, turn, f := RunIsSimulated(cfg, b, s, before);
      done, turn, f := StepIsSimulated(cfg, b, done, turn, f, Run(cfg, s, before).value, Sends(cfg, s, before),
        steps[|steps| - 1]);
    }
  }

  /**
   * For every run of the protocol there are inputs that deliver exactly the frames its server has
   * read, on which the sequential server ends with the same session table and descriptors, and in
   * the same way. Its writes are those of the run: what it has sent on behalf of c is all that was
   * ever put into the private FIFO of c, in that order. So the table is conserved in every reachable
   * state, and no session is unknown.
   */
  lemma RunsAreServed(cfg: Config, table: map<nat, Target>, steps: seq<Step>, fds: Descriptors)
      returns (inputs: seq<Input>)
    requires Run(cfg, Initial(cfg, table), steps).Some? && fds.table.Keys == table.Keys
    ensures var s, b := Run(cfg, Initial(cfg, table), steps).value, Served(NewBook(fds), inputs);
            var sends := Sends(cfg, Initial(cfg, table), steps);
            && Frames(inputs) == s.taken && Matches(b, s, sends)
            && |s.clients| == |cfg.names|
            && (forall c :: 0 <= c < |s.clients| ==> s.clients[c].History() == FramesTo(sends, Private(c)))
            && multiset(s.connections) + multiset(b.sessionsClosed)
               == multiset(InitialConnections()) + multiset(b.sessionsOpened)
            && b.unknownSessions == 0
            && PlaysTo(NewBook(fds), inputs, |inputs|) && (BetweenTurns(s.server) ==> AllGoOn(NewBook(fds), inputs))
            && (s.server.Leaving? || s.server.Gone? || s.server.Crashed? ==>
                  && inputs != []
                  && TurnEnd(Served(NewBook(fds), inputs[..|inputs| - 1]), inputs[|inputs| - 1])
                     == if s.server.Crashed? then Threw else Returned(-1))
  {
    hide Run, Turned, Frames, AllGoOn, Served, Accepted, Conversed, Admit, TurnEnd, IsLast;
    var b := NewBook(fds);
    var done, turn, f := RunIsSimulated(cfg, b, Initial(cfg, table), steps);
    inputs := done;
    if turn.Some? {
      inputs := done + [turn.value];
      ServedAppend(b, done, turn.value);
      assert inputs[..|inputs| - 1] == done;
    }
    forall k | 0 <= k < |done|
      ensures !IsLast(Served(b, inputs[..k]), inputs[k])
    {
      GoOnMeans(b, done, k);
      assert inputs[..k] == done[..k];
    }
    TableConserved(b, inputs);
    var sends := Sends(cfg, Initial(cfg, table), steps);
    SameClients(cfg, Initial(cfg, table), steps);
    forall c | 0 <= c < |cfg.names|
      ensures Run(cfg, Initial(cfg, table), steps).value.clients[c].History() == FramesTo(sends, Private(c))
    {
      PrivateFifoOrder(cfg, Initial(cfg, table), steps, c);
    }
  }
}

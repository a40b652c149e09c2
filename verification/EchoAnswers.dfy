/**
 * What clients read, in every run of any number of clients, early reads included: how far each has
 * come, what it has got by then, and where its answer comes from.
 */
module EchoAnswers {
  import opened Bytes
  import opened PackageCodec
  import opened EchoProtocol
  import opened EchoSafety
  import opened EchoTraffic

  /**
   * A client goes on only by reading: what it has got tells how far it is. `early` says that one of
   * its reads found the FIFO empty; the client then took the cleared buffer for what it awaited.
   */
  ghost predicate Paced(s: State, c: nat, early: bool)
    requires c < |s.clients|
  {
    var me := s.clients[c];
    match me.phase
    case Connected => |me.got| == 1 && !early
    case AwaitEcho => |me.got| == 1 && !early
    case Answered => Answer(me, early)
    case Closing => Answer(me, early)
    case Unlinked => Answer(me, early)
    case Done => Answer(me, early)
    case Failed => early
    case Killed => !s.Alive()
    case _ => !early
  }

  ghost predicate Answer(me: Client, early: bool) {
    if early then |me.got| == 1 && me.response == [] else |me.got| == 2 && me.response == DataOf(me.got[1])
  }

  ghost predicate AllPaced(s: State, steps: seq<Step>) {
    forall c: nat :: c < |s.clients| ==> Paced(s, c, EagerRead(c) in steps)
  }

  lemma ClientMovesAlone(cfg: Config, s: State, c: nat)
    requires c < |s.clients| && c < |cfg.names| && c < |cfg.messages| && NextClient(cfg, s, c).Some?
    ensures var t := NextClient(cfg, s, c).value;
            && |t.clients| == |s.clients| && t.server == s.server
            && forall d :: 0 <= d < |s.clients| && d != c ==> t.clients[d] == s.clients[d]
  {
    hide FrameOf, KindOf, DataOf, CloseFrame;
  }

  lemma ClientKeepsPace(cfg: Config, s: State, steps: seq<Step>, c: nat)
    requires Inv(cfg, s) && AllPaced(s, steps) && c < |s.clients| && NextClient(cfg, s, c).Some?
    ensures AllPaced(NextClient(cfg, s, c).value, steps)
  {
    hide FrameOf, KindOf, DataOf, CloseFrame, ClientInv, ServerInv, NextClient;
    var t := NextClient(cfg, s, c).value;
    ClientMovesAlone(cfg, s, c);
    OwnPace(cfg, s, steps, c);
    forall d | 0 <= d < |t.clients|
      ensures Paced(t, d, EagerRead(d) in steps)
    {
      assert Paced(s, d, EagerRead(d) in steps);
    }
  }

  lemma OwnPace(cfg: Config, s: State, steps: seq<Step>, c: nat)
    requires Inv(cfg, s) && AllPaced(s, steps) && c < |s.clients| && NextClient(cfg, s, c).Some?
    ensures c < |NextClient(cfg, s, c).value.clients| && Paced(NextClient(cfg, s, c).value, c, EagerRead(c) in steps)
  {
    hide FrameOf, KindOf, DataOf, CloseFrame, ClientInv, ServerInv;
    GreetingIsRead(cfg, s, c);
    ClientFacts(cfg, s, c);
    assert Paced(s, c, EagerRead(c) in steps);
  }

  lemma SendLeavesClients(cfg: Config, s: State, fd: nat, f: Frame, phase: ServerPhase, writeOk: bool)
    requires phase.Session? || phase.Accepting?
    ensures var t := Send(cfg, s, fd, f, phase, writeOk);
            && |t.clients| == |s.clients| && (t.server == phase || t.server == Crashed)
            && forall d :: 0 <= d < |s.clients| ==>
                 t.clients[d] == s.clients[d].(inbox := t.clients[d].inbox)
  {
  }

  lemma ServerLeavesClients(cfg: Config, s: State, writeOk: bool)
    requires NextServer(cfg, s, writeOk).Some?
    ensures var t := NextServer(cfg, s, writeOk).value;
            && |t.clients| == |s.clients| && (t.Alive() ==> s.Alive())
            && forall d :: 0 <= d < |s.clients| ==>
                 t.clients[d] == s.clients[d].(inbox := t.clients[d].inbox)
  {
    hide FrameOf, KindOf, DataOf, SuccessFrame, Admit, Send;
    match s.server {
      case Greeting(fd) => SendLeavesClients(cfg, s, fd, SuccessFrame(), Session(fd), writeOk);
      case Echoing(fd, f) => SendLeavesClients(cfg, s, fd, f, Accepting, writeOk);
      case _ =>
    }
  }

  lemma ServerKeepsPace(cfg: Config, s: State, steps: seq<Step>, writeOk: bool)
    requires AllPaced(s, steps) && NextServer(cfg, s, writeOk).Some?
    ensures AllPaced(NextServer(cfg, s, writeOk).value, steps)
  {
    hide NextServer;
    var t := NextServer(cfg, s, writeOk).value;
    ServerLeavesClients(cfg, s, writeOk);
    forall d | 0 <= d < |t.clients|
      ensures Paced(t, d, EagerRead(d) in steps)
    {
      assert Paced(s, d, EagerRead(d) in steps);
    }
  }

  lemma EagerKeepsPace(cfg: Config, s: State, steps: seq<Step>, c: nat)
    requires Inv(cfg, s) && AllPaced(s, steps) && c < |s.clients| && NextEager(s, c).Some?
    ensures AllPaced(NextEager(s, c).value, steps + [EagerRead(c)])
  {
    hide FrameOf, KindOf, DataOf, ClientInv, ServerInv, HasWriter;
    var t := NextEager(s, c).value;
    ZerosDecode();
    forall d: nat | d < |t.clients|
      ensures Paced(t, d, EagerRead(d) in steps + [EagerRead(c)])
    {
      assert Paced(s, d, EagerRead(d) in steps);
    }
  }

  lemma SamePace(s: State, steps: seq<Step>, step: Step)
    requires AllPaced(s, steps) && !step.EagerRead?
    ensures AllPaced(s, steps + [step])
  {
    forall c: nat | c < |s.clients|
      ensures Paced(s, c, EagerRead(c) in steps + [step])
    {
      assert Paced(s, c, EagerRead(c) in steps);
    }
  }

  lemma {:induction false} RunKeepsPace(cfg: Config, s: State, steps: seq<Step>)
    requires Inv(cfg, s) && AllPaced(s, []) && Run(cfg, s, steps).Some?
    ensures Inv(cfg, Run(cfg, s, steps).value) && AllPaced(Run(cfg, s, steps).value, steps)
  {
    hide Inv, AllPaced, NextClient, NextServer, NextEager;
    if steps != [] {
      var before, last := steps[..|steps| - 1], steps[|steps| - 1];
      assert steps == before + [last];
      RunKeepsPace(cfg, s, before);
      var t := Run(cfg, s, before).value;
      StepKeepsInv(cfg, t, last);
      match last {
        case ClientStep(c) =>
          HasClients(cfg, t);
          ClientKeepsPace(cfg, t, before, c);
          SamePace(NextClient(cfg, t, c).value, before, last);
        case EagerRead(c) =>
          EagerKeepsPace(cfg, t, before, c);
        case ServerStep(writeOk) =>
          ServerKeepsPace(cfg, t, before, writeOk);
          SamePace(NextServer(cfg, t, writeOk).value, before, last);
      }
    }
  }

  lemma HasClients(cfg: Config, s: State)
    requires Inv(cfg, s)
    ensures |s.clients| == |cfg.names| == |cfg.messages|
  {
  }

  /** What there is to know of client c after any run from the start. */
  lemma ClientAfter(cfg: Config, table: map<nat, Target>, steps: seq<Step>, c: nat) returns (s: State)
    requires cfg.Valid() && NoPrivate(table) && c < |cfg.names|
    requires Run(cfg, Initial(cfg, table), steps).Some?
    ensures s == Run(cfg, Initial(cfg, table), steps).value && |s.clients| == |cfg.names|
    ensures Inv(cfg, s) && Paced(s, c, EagerRead(c) in steps) && GoodHistory(s.clients[c].History(), s.taken)
  {
    hide Run, FrameOf, SuccessFrame;
    InitialInv(cfg, table);
    RunKeepsPace(cfg, Initial(cfg, table), steps);
    s := Run(cfg, Initial(cfg, table), steps).value;
    assert ClientInv(cfg, s, c);
  }

  /**
   * The exact effect of the code's own `ReadFrom`, in every run with any number of clients: a client
   * that has an answer has read a second frame, and has its data for the answer, if and only if
   * none of its reads found the FIFO empty; otherwise its answer is empty.
   */
  lemma AnswerIffWaited(cfg: Config, table: map<nat, Target>, steps: seq<Step>, c: nat)
    requires cfg.Valid() && NoPrivate(table) && c < |cfg.names|
    requires Run(cfg, Initial(cfg, table), steps).Some?
    ensures var s := Run(cfg, Initial(cfg, table), steps).value;
            && |s.clients| == |cfg.names|
            && (HasAnswer(s.clients[c].phase) ==>
                  && (|s.clients[c].got| >= 2 <==> EagerRead(c) !in steps)
                  && Answer(s.clients[c], EagerRead(c) in steps)
                  && s.clients[c].got[0] == SuccessFrame())
  {
    hide Run, FrameOf, SuccessFrame, DataOf;
    var s := ClientAfter(cfg, table, steps, c);
    if HasAnswer(s.clients[c].phase) {
      assert s.clients[c].History()[0] == s.clients[c].got[0];
    }
  }

  /** Data that stands in some client's configuration, or none. */
  ghost predicate SomebodysData(cfg: Config, data: seq<Byte>)
    requires cfg.Valid()
  {
    data == [] || exists c :: 0 <= c < |cfg.names| && (data == cfg.names[c] || data == CutAtNul(cfg.messages[c]))
  }

  /**
   * With several clients a session may consume another client's frame, so a client's answer need
   * not be its own message. But an answer that has been read is the data of a frame that some client
   * wrote to the public FIFO earlier in the run, and that the server took from there.
   */
  lemma AnswersComeFromClients(cfg: Config, table: map<nat, Target>, steps: seq<Step>, c: nat)
    requires cfg.Valid() && NoPrivate(table) && c < |cfg.names|
    requires Run(cfg, Initial(cfg, table), steps).Some?
    ensures var s := Run(cfg, Initial(cfg, table), steps).value;
            && |s.clients| == |cfg.names|
            && (HasAnswer(s.clients[c].phase) ==> SomebodysData(cfg, s.clients[c].response))
            && (HasAnswer(s.clients[c].phase) && EagerRead(c) !in steps ==>
                  && |s.clients[c].got| == 2 && s.clients[c].response == DataOf(s.clients[c].got[1])
                  && s.clients[c].got[1] in s.taken
                  && exists k :: WritesAt(cfg, Initial(cfg, table), steps, k, s.clients[c].got[1]))
  {
    hide Run, FrameOf, SuccessFrame, CloseFrame, DataOf, KindOf, Pending, WritesAt, Written;
    var s := ClientAfter(cfg, table, steps, c);
    if HasAnswer(s.clients[c].phase) && EagerRead(c) !in steps {
      var f := s.clients[c].got[1];
      assert s.clients[c].History()[1] == f;
      ClientFrameData(cfg, f);
      PublicFifoOrder(cfg, Initial(cfg, table), steps);
      assert f in s.taken + s.public;
      var k := SomebodyWrote(cfg, Initial(cfg, table), steps, f);
    }
  }

  lemma ClientFrameData(cfg: Config, f: Frame)
    requires cfg.Valid() && ClientFrame(cfg, f)
    ensures SomebodysData(cfg, DataOf(f))
  {
    hide FrameOf, DataOf, KindOf;
    FrameDecodes(CONNECTION_CLOSE, []);
    forall c | 0 <= c < |cfg.names|
      ensures DataOf(NewFrame(cfg, c)) == cfg.names[c] && DataOf(MessageFrame(cfg, c)) == CutAtNul(cfg.messages[c])
    {
      FrameKinds(cfg, c);
    }
  }
}

/** The frames of a whole run: what goes through the public FIFO, and through each private one. */
module EchoTraffic {
  import opened Bytes
  import opened PackageCodec
  import opened EchoProtocol

  // ---- The public FIFO ----

  /** The frame a client in this phase writes next, if its next system call is a write. */
  function NextWrite(cfg: Config, phase: ClientPhase, c: nat): Option<Frame>
    requires c < |cfg.names| && c < |cfg.messages|
  {
    match phase
    case Linked => Some(FrameOf(NEW_CONNECTION, cfg.names[c]))
    case Connected => Some(FrameOf(MESSAGE, cfg.messages[c]))
    case Answered => Some(CloseFrame())
    case _ => None
  }

  /** What a step puts on the public FIFO: a client's write while the server has it open. */
  function PutBy(cfg: Config, s: State, step: Step): Option<Frame> {
    if step.ClientStep? && step.c < |s.clients| && step.c < |cfg.names| && step.c < |cfg.messages| && s.Alive()
    then NextWrite(cfg, s.clients[step.c].phase, step.c)
    else None
  }

  function FrameList(f: Option<Frame>): seq<Frame> {
    match f case None => [] case Some(g) => [g]
  }

  /** The frames that clients write in a run, in the order of their writes. */
  function Written(cfg: Config, start: State, steps: seq<Step>): seq<Frame> {
    if steps == [] then []
    else
      var before := steps[..|steps| - 1];
      match Run(cfg, start, before)
      case None => []
      case Some(s) => Written(cfg, start, before) + FrameList(PutBy(cfg, s, steps[|steps| - 1]))
  }

  lemma PutExtends(cfg: Config, s: State, c: nat, f: Frame, phase: ClientPhase)
    requires c < |s.clients| && Put(cfg, s, c, f, phase).Some?
    ensures var t := Put(cfg, s, c, f, phase).value;
            t.taken + t.public == s.taken + s.public + if s.Alive() then [f] else []
  {
    assert s.taken + (s.public + [f]) == (s.taken + s.public) + [f];
  }

  lemma ClientExtends(cfg: Config, s: State, c: nat)
    requires c < |s.clients| && c < |cfg.names| && c < |cfg.messages| && NextClient(cfg, s, c).Some?
    ensures var t := NextClient(cfg, s, c).value;
            t.taken + t.public == s.taken + s.public + FrameList(PutBy(cfg, s, ClientStep(c)))
  {
    hide FrameOf, KindOf, DataOf, CloseFrame, Put;
    var phase := s.clients[c].phase;
    if phase.Linked? {
      PutExtends(cfg, s, c, FrameOf(NEW_CONNECTION, cfg.names[c]), AwaitStatus);
    } else if phase.Connected? {
      PutExtends(cfg, s, c, FrameOf(MESSAGE, cfg.messages[c]), AwaitEcho);
    } else if phase.Answered? {
      PutExtends(cfg, s, c, CloseFrame(), Closing);
    }
  }

  lemma ServerMovesFrames(cfg: Config, s: State, writeOk: bool)
    requires NextServer(cfg, s, writeOk).Some?
    ensures var t := NextServer(cfg, s, writeOk).value;
            t.taken + t.public == s.taken + s.public
  {
    hide FrameOf, KindOf, DataOf, SuccessFrame, Admit;
    if s.public != [] {
      assert s.taken + s.public == (s.taken + [s.public[0]]) + s.public[1..];
    }
  }

  /**
   * The public FIFO loses and invents nothing: what the server has read, followed by what is still
   * queued, is what the clients have written, in the order of writing.
   */
  lemma {:induction false} PublicFifoOrder(cfg: Config, start: State, steps: seq<Step>)
    requires start.taken == [] && start.public == [] && Run(cfg, start, steps).Some?
    ensures var s := Run(cfg, start, steps).value;
            s.taken + s.public == Written(cfg, start, steps)
  {
    hide NextClient, NextServer, PutBy;
    if steps != [] {
      var before, last := steps[..|steps| - 1], steps[|steps| - 1];
      PublicFifoOrder(cfg, start, before);
      var s := Run(cfg, start, before).value;
      match last {
        case ClientStep(c) => ClientExtends(cfg, s, c);
        case EagerRead(c) => OnlyClientsPut(cfg, s, last); EagerMovesNothing(s, c);
        case ServerStep(writeOk) => OnlyClientsPut(cfg, s, last); ServerMovesFrames(cfg, s, writeOk);
      }
    }
  }

  lemma OnlyClientsPut(cfg: Config, s: State, step: Step)
    requires !step.ClientStep?
    ensures PutBy(cfg, s, step) == None
  {
  }

  lemma EagerMovesNothing(s: State, c: nat)
    requires c < |s.clients| && NextEager(s, c).Some?
    ensures var t := NextEager(s, c).value;
            && t.taken == s.taken && t.public == s.public && |t.clients| == |s.clients|
            && forall d :: 0 <= d < |s.clients| ==> t.clients[d].History() == s.clients[d].History()
  {
    hide KindOf, DataOf;
  }

  /** Step k of the run is a client's write of f, while the server has the public FIFO open. */
  ghost predicate WritesAt(cfg: Config, start: State, steps: seq<Step>, k: nat, f: Frame) {
    && k < |steps| && Run(cfg, start, steps[..k]).Some?
    && PutBy(cfg, Run(cfg, start, steps[..k]).value, steps[k]) == Some(f)
  }

  lemma {:induction false} SomebodyWrote(cfg: Config, start: State, steps: seq<Step>, f: Frame) returns (k: nat)
    requires f in Written(cfg, start, steps)
    ensures WritesAt(cfg, start, steps, k, f)
  {
    hide Run, PutBy;
    var before := steps[..|steps| - 1];
    if f in Written(cfg, start, before) {
      k := SomebodyWrote(cfg, start, before, f);
      assert before[..k] == steps[..k];
    } else {
      k := |steps| - 1;
    }
  }

  // ---- The private FIFOs ----

  /** A frame the server has written, to which descriptor, and what that stood for. */
  datatype Sent = Sent(fd: nat, frame: Frame, target: Target)

  /** What the server's step from s to t has written, if it was a write and did not fail. */
  function SentBy(s: State, t: State): seq<Sent> {
    match s.server
    case Greeting(fd) => if fd in s.table && t.server.Session? then [Sent(fd, SuccessFrame(), s.table[fd])] else []
    case Echoing(fd, f) => if fd in s.table && t.server.Accepting? then [Sent(fd, f, s.table[fd])] else []
    case _ => []
  }

  /** The server's writes in a run, in their order. */
  function Sends(cfg: Config, start: State, steps: seq<Step>): seq<Sent> {
    if steps == [] then []
    else
      var before, last := steps[..|steps| - 1], steps[|steps| - 1];
      match Run(cfg, start, before)
      case None => []
      case Some(s) =>
        Sends(cfg, start, before)
        + match Next(cfg, s, last)
          case Some(t) => if last.ServerStep? then SentBy(s, t) else []
          case None => []
  }

  function FramesTo(sends: seq<Sent>, target: Target): seq<Frame> {
    if sends == [] then []
    else
      var last := sends[|sends| - 1];
      FramesTo(sends[..|sends| - 1], target) + if last.target == target then [last.frame] else []
  }

  lemma FramesToExtended(sends: seq<Sent>, more: seq<Sent>, target: Target)
    requires |more| <= 1
    ensures FramesTo(sends + more, target)
            == FramesTo(sends, target) + if more != [] && more[0].target == target then [more[0].frame] else []
  {
    if more == [] {
      assert sends + more == sends;
    } else {
      assert (sends + more)[..|sends|] == sends && (sends + more)[|sends|] == more[0];
    }
  }

  lemma ClientKeepsHistories(cfg: Config, s: State, c: nat)
    requires c < |s.clients| && c < |cfg.names| && c < |cfg.messages| && NextClient(cfg, s, c).Some?
    ensures var t := NextClient(cfg, s, c).value;
            && |t.clients| == |s.clients|
            && forall d :: 0 <= d < |s.clients| ==> t.clients[d].History() == s.clients[d].History()
  {
    hide FrameOf, KindOf, DataOf, CloseFrame;
    var me := s.clients[c];
    if me.inbox != [] {
      assert (me.got + [me.inbox[0]]) + me.inbox[1..] == me.History();
    }
  }

  /** What `Send` adds to the private FIFOs. */
  lemma SendExtends(cfg: Config, s: State, fd: nat, f: Frame, phase: ServerPhase, writeOk: bool)
    requires !phase.Crashed?
    ensures var t := Send(cfg, s, fd, f, phase, writeOk);
            && |t.clients| == |s.clients| && (t.server == phase || t.server == Crashed)
            && forall d :: 0 <= d < |s.clients| ==>
                 t.clients[d].History()
                 == s.clients[d].History()
                    + if fd in s.table && t.server == phase && s.table[fd] == Private(d) then [f] else []
  {
    if fd in s.table && s.table[fd].Private? && s.table[fd].c < |s.clients| {
      var me := s.clients[s.table[fd].c];
      assert me.got + (me.inbox + [f]) == me.History() + [f];
    }
  }

  lemma ServerExtends(cfg: Config, s: State, writeOk: bool)
    requires NextServer(cfg, s, writeOk).Some?
    ensures var t := NextServer(cfg, s, writeOk).value;
            && |t.clients| == |s.clients| && |SentBy(s, t)| <= 1
            && forall d :: 0 <= d < |s.clients| ==>
                 t.clients[d].History()
                 == s.clients[d].History() + FramesTo(SentBy(s, t), Private(d))
  {
    hide FrameOf, KindOf, DataOf, SuccessFrame, Admit, Send, FramesTo;
    var t := NextServer(cfg, s, writeOk).value;
    match s.server {
      case Greeting(fd) => SendExtends(cfg, s, fd, SuccessFrame(), Session(fd), writeOk);
      case Echoing(fd, f) => SendExtends(cfg, s, fd, f, Accepting, writeOk);
      case _ =>
    }
    forall d | 0 <= d < |s.clients|
      ensures t.clients[d].History() == s.clients[d].History() + FramesTo(SentBy(s, t), Private(d))
    {
      FramesToExtended([], SentBy(s, t), Private(d));
      assert [] + SentBy(s, t) == SentBy(s, t) && FramesTo([], Private(d)) == [] by { FramesToNobody(Private(d)); }
    }
  }

  lemma FramesToNobody(target: Target)
    ensures FramesTo([], target) == []
  {
  }

  lemma {:induction false} SameClients(cfg: Config, start: State, steps: seq<Step>)
    requires Run(cfg, start, steps).Some?
    ensures |Run(cfg, start, steps).value.clients| == |start.clients|
  {
    hide NextClient, NextServer, NextEager;
    if steps != [] {
      var before, last := steps[..|steps| - 1], steps[|steps| - 1];
      SameClients(cfg, start, before);
      StepKeepsClients(cfg, Run(cfg, start, before).value, last);
    }
  }

  lemma StepKeepsClients(cfg: Config, s: State, step: Step)
    requires Next(cfg, s, step).Some?
    ensures |Next(cfg, s, step).value.clients| == |s.clients|
    ensures step.EagerRead? ==> step.c < |s.clients|
  {
    hide NextClient, NextServer, NextEager;
    match step {
      case ClientStep(c) => ClientKeepsHistories(cfg, s, c);
      case EagerRead(c) => EagerMovesNothing(s, c);
      case ServerStep(writeOk) => ServerExtends(cfg, s, writeOk);
    }
  }

  /**
   * Nor do the private FIFOs: everything ever put into the FIFO of c is what the server has written
   * to descriptors that stood for it, in the order of writing.
   */
  lemma {:induction false} PrivateFifoOrder(cfg: Config, start: State, steps: seq<Step>, c: nat)
    requires Run(cfg, start, steps).Some? && c < |start.clients| && start.clients[c].History() == []
    ensures var s := Run(cfg, start, steps).value;
            && |s.clients| == |start.clients|
            && s.clients[c].History() == FramesTo(Sends(cfg, start, steps), Private(c))
  {
    hide NextClient, NextServer, NextEager, SentBy, FramesTo;
    if steps == [] {
      FramesToNobody(Private(c));
    } else {
      var before, last := steps[..|steps| - 1], steps[|steps| - 1];
      PrivateFifoOrder(cfg, start, before, c);
      var s := Run(cfg, start, before).value;
      var sends := Sends(cfg, start, before);
      match last {
        case ClientStep(d) =>
          ClientKeepsHistories(cfg, s, d);
          assert Run(cfg, start, steps) == NextClient(cfg, s, d);
          assert NextClient(cfg, s, d).value.clients[c].History() == s.clients[c].History();
          assert Sends(cfg, start, steps) == sends + [] == sends;
        case EagerRead(d) =>
          EagerMovesNothing(s, d);
          assert Sends(cfg, start, steps) == sends + [];
        case ServerStep(writeOk) =>
          var more := SentBy(s, NextServer(cfg, s, writeOk).value);
          ServerExtends(cfg, s, writeOk);
          FramesToExtended(sends, more, Private(c));
          FramesToExtended([], more, Private(c));
          FramesToNobody(Private(c));
          assert [] + more == more;
      }
    }
  }
}

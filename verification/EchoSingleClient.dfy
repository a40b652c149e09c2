/**
 * One client and one server, from the first `mkfifo` to the end of both processes. Runs are those
 * of the documented `ReadFrom`, which tries again until data arrives; the last part shows what one
 * early read does.
 */
module EchoSingleClient {
  import opened Bytes
  import opened Lists
  import opened PackageCodec
  import opened EchoProtocol
  import opened EchoSafety
  import opened EchoTermination

  /** The server's descriptor for the private FIFO. */
  ghost predicate Serves(s: State, fd: nat) {
    fd in s.table && s.table[fd] == Private(0) && fd in s.connections
  }

  /** What the server has read, what is queued for it, and what is queued for the client. */
  ghost predicate Traffic(s: State, taken: seq<Frame>, public: seq<Frame>, inbox: seq<Frame>)
    requires |s.clients| == 1
  {
    s.taken == taken && s.public == public && s.clients[0].inbox == inbox
  }

  /** Where the server can be while the client waits for its status. */
  ghost predicate DuringHandshake(cfg: Config, s: State)
    requires |s.clients| == 1 && |cfg.names| == 1
  {
    var request := NewFrame(cfg, 0);
    match s.server
    case Opening => s.met && Traffic(s, [], [request], [])
    case Accepting => s.met && Traffic(s, [], [request], [])
    case Connecting(name) => name == cfg.names[0] && Traffic(s, [request], [], [])
    case Greeting(fd) => Serves(s, fd) && Traffic(s, [request], [], [])
    case Session(fd) => Serves(s, fd) && Traffic(s, [request], [], [SuccessFrame()])
    case _ => false
  }

  /** ... and while it waits for the echo. */
  ghost predicate DuringEcho(cfg: Config, s: State)
    requires |s.clients| == 1 && |cfg.names| == 1 && |cfg.messages| == 1
  {
    var request, message := NewFrame(cfg, 0), MessageFrame(cfg, 0);
    match s.server
    case Session(fd) => Serves(s, fd) && Traffic(s, [request], [message], [])
    case Echoing(fd, f) => Serves(s, fd) && f == message && Traffic(s, [request, message], [], [])
    case Accepting => Traffic(s, [request, message], [], [message])
    case _ => false
  }

  /** ... and after the client has written its close frame. */
  ghost predicate DuringClose(cfg: Config, s: State)
    requires |s.clients| == 1 && |cfg.names| == 1 && |cfg.messages| == 1
  {
    var request, message := NewFrame(cfg, 0), MessageFrame(cfg, 0);
    match s.server
    case Accepting => Traffic(s, [request, message], [CloseFrame()], [])
    case Leaving => Traffic(s, [request, message, CloseFrame()], [], [])
    case Gone => Traffic(s, [request, message, CloseFrame()], [], [])
    case _ => false
  }

  /** The client has read its greeting and the echo of its own message. */
  ghost predicate OwnEcho(cfg: Config, me: Client)
    requires |cfg.names| == 1 && |cfg.messages| == 1
  {
    me.got == [SuccessFrame(), MessageFrame(cfg, 0)] && me.response == CutAtNul(cfg.messages[0])
  }

  /** All reachable states. */
  ghost predicate Solo(cfg: Config, s: State) {
    && cfg.Valid() && |cfg.names| == 1 && |s.clients| == 1
    && var me := s.clients[0];
       match me.phase
       case Start => s.server.Opening? && !s.met && me.got == [] && Traffic(s, [], [], [])
       case FifoMade => s.server.Opening? && !s.met && me.got == [] && Traffic(s, [], [], [])
       case ReadEndOpen => s.server.Opening? && !s.met && me.got == [] && Traffic(s, [], [], [])
       case Linked => (s.server.Opening? || s.server.Accepting?) && s.met && me.got == [] && Traffic(s, [], [], [])
       case AwaitStatus => me.got == [] && DuringHandshake(cfg, s)
       case Connected =>
         && s.server.Session? && Serves(s, s.server.fd)
         && me.got == [SuccessFrame()] && Traffic(s, [NewFrame(cfg, 0)], [], [])
       case AwaitEcho => me.got == [SuccessFrame()] && DuringEcho(cfg, s)
       case Answered =>
         && s.server.Accepting? && OwnEcho(cfg, me)
         && Traffic(s, [NewFrame(cfg, 0), MessageFrame(cfg, 0)], [], [])
       case Closing => OwnEcho(cfg, me) && DuringClose(cfg, s)
       case Unlinked => OwnEcho(cfg, me) && DuringClose(cfg, s)
       case Done => OwnEcho(cfg, me) && DuringClose(cfg, s)
       case Failed => false
       case Killed => false
  }

  lemma InitialSolo(cfg: Config, table: map<nat, Target>)
    requires cfg.Valid() && |cfg.names| == 1
    ensures Solo(cfg, Initial(cfg, table))
  {
  }

  lemma PutKeepsSolo(cfg: Config, s: State)
    requires Solo(cfg, s) && NextClient(cfg, s, 0).Some?
    requires var p := s.clients[0].phase; p.Linked? || p.Connected? || p.Answered?
    ensures Solo(cfg, NextClient(cfg, s, 0).value)
  {
    hide FrameOf, NewFrame, MessageFrame, KindOf, DataOf, SuccessFrame, CloseFrame;
    NewFrameIs(cfg, 0);
  }

  lemma ReadKeepsSolo(cfg: Config, s: State)
    requires Solo(cfg, s) && NextClient(cfg, s, 0).Some?
    requires var p := s.clients[0].phase; p.AwaitStatus? || p.AwaitEcho?
    ensures Solo(cfg, NextClient(cfg, s, 0).value)
  {
    hide FrameOf, NewFrame, MessageFrame, KindOf, DataOf, SuccessFrame, CloseFrame;
    FrameKinds(cfg, 0);
  }

  lemma ClientKeepsSolo(cfg: Config, s: State)
    requires Solo(cfg, s) && NextClient(cfg, s, 0).Some?
    ensures Solo(cfg, NextClient(cfg, s, 0).value)
  {
    hide FrameOf, NewFrame, MessageFrame, KindOf, DataOf, SuccessFrame, CloseFrame;
    var p := s.clients[0].phase;
    if p.Linked? || p.Connected? || p.Answered? {
      PutKeepsSolo(cfg, s);
    } else if p.AwaitStatus? || p.AwaitEcho? {
      ReadKeepsSolo(cfg, s);
    }
  }

  lemma AcceptKeepsSolo(cfg: Config, s: State, writeOk: bool)
    requires Solo(cfg, s) && s.server.Accepting? && NextServer(cfg, s, writeOk).Some?
    ensures Solo(cfg, NextServer(cfg, s, writeOk).value)
  {
    hide FrameOf, NewFrame, MessageFrame, KindOf, DataOf, SuccessFrame, CloseFrame, Admit;
    FrameKinds(cfg, 0);
    AdmitsInTurn(cfg, s.connections);
  }

  lemma AdmitsInTurn(cfg: Config, connections: seq<nat>)
    requires cfg.Valid() && |cfg.names| == 1
    ensures Admit(NewFrame(cfg, 0), connections) == Newcomer(cfg.names[0])
    ensures Admit(CloseFrame(), connections) == Refused
  {
    hide FrameOf, NewFrame, MessageFrame, KindOf, DataOf, SuccessFrame, CloseFrame;
    FrameKinds(cfg, 0);
  }

  lemma OpenKeepsSolo(cfg: Config, s: State, writeOk: bool)
    requires Solo(cfg, s) && s.server.Connecting?
    ensures NextServer(cfg, s, writeOk).Some? && Solo(cfg, NextServer(cfg, s, writeOk).value)
  {
    hide FrameOf, NewFrame, MessageFrame, KindOf, DataOf, SuccessFrame, CloseFrame;
    assert IndexOf(cfg.names, cfg.names[0]) == 0;
  }

  lemma WriteKeepsSolo(cfg: Config, s: State, writeOk: bool)
    requires Solo(cfg, s) && (s.server.Greeting? || s.server.Echoing?)
    ensures NextServer(cfg, s, writeOk).Some? && Solo(cfg, NextServer(cfg, s, writeOk).value)
  {
    hide FrameOf, NewFrame, MessageFrame, KindOf, DataOf, SuccessFrame, CloseFrame;
  }

  lemma SessionKeepsSolo(cfg: Config, s: State, writeOk: bool)
    requires Solo(cfg, s) && s.server.Session? && NextServer(cfg, s, writeOk).Some?
    ensures Solo(cfg, NextServer(cfg, s, writeOk).value)
  {
    hide FrameOf, NewFrame, MessageFrame, KindOf, DataOf, SuccessFrame, CloseFrame;
    FrameKinds(cfg, 0);
    assert s.clients[0].phase.AwaitEcho? && s.public == [MessageFrame(cfg, 0)];
    assert NextServer(cfg, s, writeOk).value.server == Echoing(s.server.fd, MessageFrame(cfg, 0));
  }

  lemma StepKeepsSolo(cfg: Config, s: State, step: Step)
    requires Solo(cfg, s) && !step.EagerRead? && Next(cfg, s, step).Some?
    ensures Solo(cfg, Next(cfg, s, step).value)
  {
    hide NextClient, FrameOf, NewFrame, MessageFrame, KindOf, DataOf, SuccessFrame, CloseFrame;
    if step.ClientStep? {
      ClientKeepsSolo(cfg, s);
    } else if s.server.Accepting? {
      AcceptKeepsSolo(cfg, s, step.writeOk);
    } else if s.server.Connecting? {
      OpenKeepsSolo(cfg, s, step.writeOk);
    } else if s.server.Greeting? || s.server.Echoing? {
      WriteKeepsSolo(cfg, s, step.writeOk);
    } else if s.server.Session? {
      SessionKeepsSolo(cfg, s, step.writeOk);
    }
  }

  lemma {:induction false} RunKeepsSolo(cfg: Config, s: State, steps: seq<Step>)
    requires Solo(cfg, s) && Patient(steps) && Run(cfg, s, steps).Some?
    ensures Solo(cfg, Run(cfg, s, steps).value)
  {
    hide Next, Solo;
    if steps != [] {
      var before := steps[..|steps| - 1];
      assert forall step <- before :: step in steps;
      RunKeepsSolo(cfg, s, before);
      assert steps[|steps| - 1] in steps;
      StepKeepsSolo(cfg, Run(cfg, s, before).value, steps[|steps| - 1]);
    }
  }

  /** Frames queued in the two FIFOs or held by the server on their way through. */
  function InFlight(s: State): nat {
    |s.public| + (if s.clients == [] then 0 else |s.clients[0].inbox|)
    + (if s.server.Connecting? || s.server.Greeting? || s.server.Echoing? then 1 else 0)
  }

  /** Both processes have ended: the client with its message, the server through the close frame. */
  ghost predicate Finished(cfg: Config, s: State)
    requires |s.clients| == 1 && |cfg.names| == 1 && |cfg.messages| == 1
  {
    && s.clients[0].phase.Done? && s.server.Gone?
    && s.clients[0].response == CutAtNul(cfg.messages[0])
    && Traffic(s, [NewFrame(cfg, 0), MessageFrame(cfg, 0), CloseFrame()], [], [])
  }

  /** No deadlock: unless both processes have ended, one of them can take a step. */
  lemma SoloProgress(cfg: Config, s: State)
    requires Solo(cfg, s)
    ensures InFlight(s) <= 1
    ensures Finished(cfg, s) || Next(cfg, s, ClientStep(0)).Some? || Next(cfg, s, ServerStep(true)).Some?
  {
    hide FrameOf, NewFrame, MessageFrame, KindOf, DataOf, SuccessFrame, CloseFrame, Send, Admit;
  }

  /**
   * The single-client theorem. Whatever the interleaving: at most one frame is in flight, there is
   * no deadlock, every run has at most 63 steps, and one that cannot go on has ended with the
   * client holding its own message (cut at its first NUL) and the server gone because of the close
   * frame.
   */
  lemma SingleClientRun(cfg: Config, table: map<nat, Target>, steps: seq<Step>)
    requires cfg.Valid() && |cfg.names| == 1 && Patient(steps)
    requires Run(cfg, Initial(cfg, table), steps).Some?
    ensures var s := Run(cfg, Initial(cfg, table), steps).value;
            && |steps| <= 63 && |s.clients| == 1
            && InFlight(s) <= 1
            && (Finished(cfg, s) || Next(cfg, s, ClientStep(0)).Some? || Next(cfg, s, ServerStep(true)).Some?)
            && (Finished(cfg, s) && NulFree(cfg.messages[0]) ==> s.clients[0].response == cfg.messages[0])
  {
    hide Next;
    InitialSolo(cfg, table);
    RunKeepsSolo(cfg, Initial(cfg, table), steps);
    RunsAreFinite(cfg, table, steps);
    SoloProgress(cfg, Run(cfg, Initial(cfg, table), steps).value);
  }

  // ---- The code as it stands ----

  /** From Start the client goes straight to the point where it awaits its status. */
  lemma ClientAdvances(cfg: Config, s: State)
    requires Solo(cfg, s) && Early(s.clients[0].phase)
    ensures var t := Next(cfg, s, ClientStep(0));
            && t.Some? && t.value.server == s.server
            && var p := t.value.clients[0].phase;
               match s.clients[0].phase
               case Start => p == FifoMade
               case FifoMade => p == ReadEndOpen
               case ReadEndOpen => p == Linked
               case _ => p == AwaitStatus
  {
    hide FrameOf, NewFrame, MessageFrame, KindOf, DataOf, SuccessFrame, CloseFrame;
  }

  /** Meanwhile the server opens, accepts the request and opens the private FIFO. */
  lemma ServerAdvances(cfg: Config, s: State)
    requires Solo(cfg, s) && s.clients[0].phase.AwaitStatus?
    requires s.server.Opening? || s.server.Accepting? || s.server.Connecting?
    ensures var t := Next(cfg, s, ServerStep(true));
            && t.Some? && t.value.clients == s.clients
            && match s.server
               case Opening => t.value.server.Accepting?
               case Accepting => t.value.server.Connecting?
               case _ => t.value.server.Greeting?
  {
    hide FrameOf, NewFrame, MessageFrame, KindOf, DataOf, SuccessFrame, CloseFrame;
    FrameKinds(cfg, 0);
    assert IndexOf(cfg.names, cfg.names[0]) == 0;
  }

  /** The states the run passes through, one step after another. */
  lemma Extend(cfg: Config, start: State, steps: seq<Step>, s: State, step: Step) returns (longer: seq<Step>, t: State)
    requires Run(cfg, start, steps) == Some(s) && Next(cfg, s, step).Some?
    ensures longer == steps + [step] && t == Next(cfg, s, step).value
    ensures Run(cfg, start, longer) == Some(t)
  {
    hide Next;
    longer, t := steps + [step], Next(cfg, s, step).value;
    assert longer[..|steps|] == steps;
  }

  lemma {:induction false} ClientReachesAwait(cfg: Config, start: State, steps: seq<Step>, s: State)
      returns (longer: seq<Step>, t: State)
    requires Run(cfg, start, steps) == Some(s) && Solo(cfg, s)
    requires Early(s.clients[0].phase) && s.server.Opening?
    ensures Run(cfg, start, longer) == Some(t) && Solo(cfg, t)
    ensures t.clients[0].phase.AwaitStatus? && t.server.Opening?
    decreases ClientRank(s.clients[0].phase)
  {
    hide Run, Next;
    ClientAdvances(cfg, s);
    StepKeepsSolo(cfg, s, ClientStep(0));
    longer, t := Extend(cfg, start, steps, s, ClientStep(0));
    if Early(t.clients[0].phase) {
      longer, t := ClientReachesAwait(cfg, start, longer, t);
    }
  }

  lemma ServerReachesGreeting(cfg: Config, start: State, steps: seq<Step>, s: State)
      returns (longer: seq<Step>, t: State)
    requires Run(cfg, start, steps) == Some(s) && Solo(cfg, s)
    requires s.clients[0].phase.AwaitStatus? && s.server.Opening?
    ensures Run(cfg, start, longer) == Some(t) && Solo(cfg, t)
    ensures t.clients[0].phase.AwaitStatus? && t.server.Greeting?
  {
    hide Run, Next, Solo;
    longer, t := steps, s;
    for i := 0 to 3
      invariant Run(cfg, start, longer) == Some(t) && Solo(cfg, t) && t.clients == s.clients
      invariant match i
                case 0 => t.server.Opening?
                case 1 => t.server.Accepting?
                case 2 => t.server.Connecting?
                case _ => t.server.Greeting?
    {
      SoloHasOneClient(cfg, t);
      ServerAdvances(cfg, t);
      StepKeepsSolo(cfg, t, ServerStep(true));
      longer, t := Extend(cfg, start, longer, t, ServerStep(true));
    }
  }

  lemma SoloHasOneClient(cfg: Config, s: State)
    requires Solo(cfg, s)
    ensures |s.clients| == 1
  {
  }

  /**
   * The code's own `ReadFrom` breaks the handshake even for a single client: for every
   * configuration there is a run in which the client reads between the server's open and its
   * write, takes the empty read for an answer, and leaves; the server's write then finds no reader.
   */
  lemma EagerReadBreaksHandshake(cfg: Config, table: map<nat, Target>) returns (steps: seq<Step>)
    requires cfg.Valid() && |cfg.names| == 1
    ensures var r := Run(cfg, Initial(cfg, table), steps);
            r.Some? && |r.value.clients| == 1 && r.value.clients[0].phase.Failed? && r.value.server.Crashed?
  {
    hide Run, FrameOf, NewFrame, MessageFrame, KindOf, DataOf, SuccessFrame, CloseFrame;
    var start := Initial(cfg, table);
    InitialSolo(cfg, table);
    var s: State;
    steps, s := ClientReachesAwait(cfg, start, EmptyRun(cfg, start), start);
    steps, s := ServerReachesGreeting(cfg, start, steps, s);
    ZerosDecode();
    assert HasWriter(s.table, 0);
    steps, s := Extend(cfg, start, steps, s, EagerRead(0));
    steps, s := Extend(cfg, start, steps, s, ServerStep(true));
  }

  ghost function EmptyRun(cfg: Config, start: State): (steps: seq<Step>)
    ensures Run(cfg, start, steps) == Some(start) && steps == []
  {
    []
  }
}

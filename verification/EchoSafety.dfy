/** What holds in every reachable state of the echo protocol, for any number of clients. */
module EchoSafety {
  import opened Bytes
  import opened Lists
  import opened PackageCodec
  import opened EchoProtocol

  // ---- Facts about the frames ----

  lemma FrameDecodes(kind: nat, data: seq<Byte>)
    requires kind < 4 && |data| <= CAPACITY
    ensures Decode(FrameOf(kind, data)) == Some(Package(kind, CutAtNul(data)))
    ensures KindOf(FrameOf(kind, data)) == Some(kind) && DataOf(FrameOf(kind, data)) == CutAtNul(data)
  {
    RoundTrip(Package(kind, data), Zeros(FRAME));
  }

  lemma {:induction false} ZeroInteger(n: nat)
    ensures FromLittleEndian(Zeros(n)) == 0
  {
    if n > 0 {
      assert Zeros(n)[1..] == Zeros(n - 1);
      ZeroInteger(n - 1);
    }
  }

  /** A cleared buffer reads as an empty `Message`. */
  lemma ZerosDecode()
    ensures KindOf(Zeros(FRAME)) == Some(MESSAGE) && DataOf(Zeros(FRAME)) == []
  {
    var f := Zeros(FRAME);
    assert f[..4] == Zeros(4) && f[4..HEADER] == Zeros(8);
    ZeroInteger(4);
    ZeroInteger(8);
  }

  function NewFrame(cfg: Config, c: nat): Frame
    requires c < |cfg.names|
  {
    FrameOf(NEW_CONNECTION, cfg.names[c])
  }

  function MessageFrame(cfg: Config, c: nat): Frame
    requires c < |cfg.messages|
  {
    FrameOf(MESSAGE, cfg.messages[c])
  }

  /** A frame some client may put on the public FIFO. */
  ghost predicate ClientFrame(cfg: Config, f: Frame)
    requires cfg.Valid()
  {
    f == CloseFrame() || exists c :: 0 <= c < |cfg.names| && (f == NewFrame(cfg, c) || f == MessageFrame(cfg, c))
  }

  lemma FrameKinds(cfg: Config, c: nat)
    requires cfg.Valid() && c < |cfg.names|
    ensures KindOf(NewFrame(cfg, c)) == Some(NEW_CONNECTION) && DataOf(NewFrame(cfg, c)) == cfg.names[c]
    ensures KindOf(MessageFrame(cfg, c)) == Some(MESSAGE) && DataOf(MessageFrame(cfg, c)) == CutAtNul(cfg.messages[c])
    ensures KindOf(CloseFrame()) == Some(CONNECTION_CLOSE) && KindOf(SuccessFrame()) == Some(CONNECTION_SUCCESS)
  {
    assert NulFree(cfg.names[c]);
    FrameDecodes(NEW_CONNECTION, cfg.names[c]);
    FrameDecodes(MESSAGE, cfg.messages[c]);
    FrameDecodes(CONNECTION_CLOSE, []);
    FrameDecodes(CONNECTION_SUCCESS, []);
  }

  /** The connection request of c is no other frame of anybody. */
  lemma NewFrameUnique(cfg: Config, c: nat)
    requires cfg.Valid() && c < |cfg.names|
    ensures NewFrame(cfg, c) != CloseFrame()
    ensures forall d :: 0 <= d < |cfg.names| ==> NewFrame(cfg, c) != MessageFrame(cfg, d)
    ensures forall d :: 0 <= d < |cfg.names| && d != c ==> NewFrame(cfg, c) != NewFrame(cfg, d)
  {
    hide KindOf, DataOf, NewFrame, MessageFrame, CloseFrame, SuccessFrame;
    FrameKinds(cfg, c);
    forall d | 0 <= d < |cfg.names|
      ensures NewFrame(cfg, c) != MessageFrame(cfg, d)
      ensures d != c ==> NewFrame(cfg, c) != NewFrame(cfg, d)
    {
      FrameKinds(cfg, d);
    }
  }

  /** `Accept` takes a client frame for a newcomer exactly when it is a connection request, and finds its sender. */
  lemma AdmitsNewcomers(cfg: Config, f: Frame, connections: seq<nat>)
    requires cfg.Valid() && ClientFrame(cfg, f)
    ensures forall c :: 0 <= c < |cfg.names| ==>
              (Admit(f, connections) == Newcomer(cfg.names[c]) <==> f == NewFrame(cfg, c))
    ensures Admit(f, connections).Newcomer? ==> Admit(f, connections).name in cfg.names
    ensures Admit(f, connections).Known? ==> Admit(f, connections).fd == 0 && 0 in connections
  {
    hide FrameOf, KindOf, DataOf;
    forall c | 0 <= c < |cfg.names|
      ensures f == NewFrame(cfg, c) ==> Admit(f, connections) == Newcomer(cfg.names[c])
      ensures f == MessageFrame(cfg, c) ==> !Admit(f, connections).Newcomer?
      ensures f == CloseFrame() ==> !Admit(f, connections).Newcomer?
    {
      FrameKinds(cfg, c);
    }
    FrameDecodes(CONNECTION_CLOSE, []);
  }

  // ---- The invariant ----

  /** The connection requests of c on their way: queued, or held by the server between read and open. */
  ghost function Pending(cfg: Config, s: State, c: nat): nat
    requires c < |cfg.names|
  {
    multiset(s.public)[NewFrame(cfg, c)] + if s.server == Connecting(cfg.names[c]) then 1 else 0
  }

  ghost predicate Early(p: ClientPhase) {
    p.Start? || p.FifoMade? || p.ReadEndOpen? || p.Linked?
  }

  /** Nothing has happened yet on the private FIFO of c. */
  ghost predicate Fresh(s: State, c: nat)
    requires c < |s.clients|
  {
    s.clients[c].History() == [] && !HasWriter(s.table, c)
  }

  ghost predicate GreetingTo(s: State, c: nat) {
    s.server.Greeting? && s.server.fd in s.table && s.table[s.server.fd] == Private(c)
  }

  /** The first frame of a private FIFO is the greeting; the others are copies of frames the server took. */
  ghost predicate GoodHistory(history: seq<Frame>, taken: seq<Frame>) {
    history != [] ==> history[0] == SuccessFrame() && forall k :: 1 <= k < |history| ==> history[k] in taken
  }

  ghost predicate ClientInv(cfg: Config, s: State, c: nat)
    requires c < |s.clients| && c < |cfg.names|
  {
    var me := s.clients[c];
    && Pending(cfg, s, c) <= (if me.phase.AwaitStatus? && Fresh(s, c) then 1 else 0)
    && (Early(me.phase) ==> Fresh(s, c))
    && (Early(me.phase) || me.phase.AwaitStatus? ==> me.got == [])
    && GoodHistory(me.History(), s.taken)
    && (HasWriter(s.table, c) && s.Alive() ==> me.History() != [] || GreetingTo(s, c))
  }

  ghost predicate ServerInv(cfg: Config, s: State)
    requires cfg.Valid() && |s.clients| == |cfg.names|
  {
    && (forall f :: f in s.public || f in s.taken ==> ClientFrame(cfg, f))
    && match s.server
       case Connecting(name) => name in cfg.names
       case Greeting(fd) =>
         && fd in s.connections && fd in s.table && s.table[fd].Private?
         && s.table[fd].c < |s.clients| && s.clients[s.table[fd].c].History() == []
       case Session(fd) => fd in s.connections
       case Echoing(fd, f) => fd in s.connections && f in s.taken
       case _ => true
  }

  ghost predicate Inv(cfg: Config, s: State) {
    && cfg.Valid() && |s.clients| == |cfg.names|
    && ServerInv(cfg, s)
    && forall c :: 0 <= c < |s.clients| ==> ClientInv(cfg, s, c)
  }

  lemma InitialInv(cfg: Config, table: map<nat, Target>)
    requires cfg.Valid() && forall fd <- table :: !table[fd].Private?
    ensures Inv(cfg, Initial(cfg, table))
  {
    hide FrameOf;
  }

  // ---- Steps of clients ----

  /** Everything but client c stays; c keeps its FIFO's history. */
  ghost predicate Moves(s: State, t: State, c: nat) {
    && c < |s.clients| == |t.clients|
    && (forall d :: 0 <= d < |s.clients| && d != c ==> t.clients[d] == s.clients[d])
    && t.clients[c].History() == s.clients[c].History()
    && t.taken == s.taken && t.server == s.server && t.connections == s.connections && t.table == s.table
  }

  /** A client step that puts nothing on the public FIFO. */
  lemma MoveKeepsInv(cfg: Config, s: State, t: State, c: nat)
    requires Inv(cfg, s) && Moves(s, t, c) && t.public == s.public
    requires var was, now := s.clients[c].phase, t.clients[c].phase;
             && (Early(now) ==> Early(was))
             && (now.AwaitStatus? || !was.AwaitStatus? || !Fresh(s, c) || now == was)
             && (now.AwaitStatus? ==> was.AwaitStatus?)
    requires Early(t.clients[c].phase) || t.clients[c].phase.AwaitStatus? ==> t.clients[c].got == []
    ensures Inv(cfg, t)
  {
    hide FrameOf, SuccessFrame, NewFrame, ClientFrame, GoodHistory;
    assert ClientInv(cfg, s, c);
    forall d | 0 <= d < |t.clients|
      ensures ClientInv(cfg, t, d)
    {
      assert ClientInv(cfg, s, d);
    }
  }

  /** A client step that puts its frame on the public FIFO. */
  lemma PutKeepsInv(cfg: Config, s: State, t: State, c: nat, f: Frame)
    requires Inv(cfg, s) && Moves(s, t, c) && t.public == s.public + [f]
    requires var was, now := s.clients[c].phase, t.clients[c].phase;
             || (was.Linked? && now.AwaitStatus? && f == NewFrame(cfg, c))
             || (!was.AwaitStatus? && !Early(now) && !now.AwaitStatus?
                && (f == CloseFrame() || f == MessageFrame(cfg, c)))
    requires t.clients[c].got == s.clients[c].got
    ensures Inv(cfg, t)
  {
    hide FrameOf, SuccessFrame, NewFrame, MessageFrame, CloseFrame, GoodHistory;
    assert ClientInv(cfg, s, c);
    forall d | 0 <= d < |t.clients|
      ensures ClientInv(cfg, t, d)
    {
      NewFrameUnique(cfg, d);
      assert ClientInv(cfg, s, d);
      assert multiset(t.public)[NewFrame(cfg, d)]
          == multiset(s.public)[NewFrame(cfg, d)] + if f == NewFrame(cfg, d) then 1 else 0;
    }
  }

  lemma PutStepKeepsInv(cfg: Config, s: State, c: nat, f: Frame, phase: ClientPhase)
    requires Inv(cfg, s) && c < |s.clients| && Put(cfg, s, c, f, phase).Some?
    requires var was := s.clients[c].phase;
             || (was.Linked? && phase.AwaitStatus? && f == NewFrame(cfg, c))
             || (!was.AwaitStatus? && !Early(phase) && !phase.AwaitStatus?
                && (f == CloseFrame() || f == MessageFrame(cfg, c)))
    ensures Inv(cfg, Put(cfg, s, c, f, phase).value)
  {
    hide FrameOf, NewFrame, MessageFrame, SuccessFrame, CloseFrame, ClientInv, ServerInv, HasWriter;
    var t := Put(cfg, s, c, f, phase).value;
    if s.Alive() {
      PutKeepsInv(cfg, s, t, c, f);
    } else {
      MoveKeepsInv(cfg, s, t, c);
    }
  }

  lemma ReadStepKeepsInv(cfg: Config, s: State, c: nat)
    requires Inv(cfg, s) && c < |s.clients| && NextClient(cfg, s, c).Some?
    requires s.clients[c].phase.AwaitStatus? || s.clients[c].phase.AwaitEcho?
    ensures Inv(cfg, NextClient(cfg, s, c).value)
  {
    hide KindOf, DataOf, ClientInv, ServerInv, HasWriter;
    var me := s.clients[c];
    assert (me.got + [me.inbox[0]]) + me.inbox[1..] == me.History();
    ClientFacts(cfg, s, c);
    MoveKeepsInv(cfg, s, NextClient(cfg, s, c).value, c);
  }

  lemma ClientStepKeepsInv(cfg: Config, s: State, c: nat)
    requires Inv(cfg, s) && c < |s.clients| && NextClient(cfg, s, c).Some?
    ensures Inv(cfg, NextClient(cfg, s, c).value)
  {
    hide FrameOf, NewFrame, MessageFrame, CloseFrame, KindOf, DataOf, ClientInv, ServerInv, HasWriter, Put;
    var phase := s.clients[c].phase;
    if phase.Linked? {
      NewFrameIs(cfg, c);
      PutStepKeepsInv(cfg, s, c, NewFrame(cfg, c), AwaitStatus);
    } else if phase.Connected? {
      NewFrameIs(cfg, c);
      PutStepKeepsInv(cfg, s, c, MessageFrame(cfg, c), AwaitEcho);
    } else if phase.Answered? {
      PutStepKeepsInv(cfg, s, c, CloseFrame(), Closing);
    } else if phase.AwaitStatus? || phase.AwaitEcho? {
      ReadStepKeepsInv(cfg, s, c);
    } else {
      ClientFacts(cfg, s, c);
      MoveKeepsInv(cfg, s, NextClient(cfg, s, c).value, c);
    }
  }

  lemma NewFrameIs(cfg: Config, c: nat)
    requires c < |cfg.names| && c < |cfg.messages|
    ensures NewFrame(cfg, c) == FrameOf(NEW_CONNECTION, cfg.names[c])
    ensures MessageFrame(cfg, c) == FrameOf(MESSAGE, cfg.messages[c])
  {
  }

  lemma ClientFacts(cfg: Config, s: State, c: nat)
    requires Inv(cfg, s) && c < |s.clients|
    ensures Early(s.clients[c].phase) || s.clients[c].phase.AwaitStatus? ==> s.clients[c].got == []
    ensures s.clients[c].inbox != [] || HasWriter(s.table, c) ==> !Fresh(s, c)
  {
    assert ClientInv(cfg, s, c);
  }

  lemma EagerReadKeepsInv(cfg: Config, s: State, c: nat)
    requires Inv(cfg, s) && c < |s.clients| && NextEager(s, c).Some?
    ensures Inv(cfg, NextEager(s, c).value)
  {
    hide KindOf, DataOf, ClientInv, ServerInv, HasWriter;
    ZerosDecode();
    ClientFacts(cfg, s, c);
    MoveKeepsInv(cfg, s, NextEager(s, c).value, c);
  }

  // ---- Steps of the server ----

  /** The server reads a frame, and goes on to Connecting only with a connection request. */
  lemma PopKeepsInv(cfg: Config, s: State, t: State)
    requires Inv(cfg, s) && s.public != [] && !s.server.Connecting? && !s.server.Greeting?
    requires t.public == s.public[1..] && t.taken == s.taken + [s.public[0]] && t.clients == s.clients
    requires t.table == s.table || exists fd :: t.table == s.table - {fd}
    requires !t.server.Greeting? && ServerInv(cfg, t) && s.Alive()
    requires forall c :: 0 <= c < |cfg.names| ==>
               t.server == Connecting(cfg.names[c]) ==> s.public[0] == NewFrame(cfg, c)
    ensures Inv(cfg, t)
  {
    hide FrameOf, SuccessFrame, NewFrame, ServerInv;
    MultisetSplit(s.public);
    forall c | 0 <= c < |t.clients|
      ensures ClientInv(cfg, t, c)
    {
      assert ClientInv(cfg, s, c);
      assert HasWriter(t.table, c) ==> HasWriter(s.table, c);
      assert Pending(cfg, t, c) <= Pending(cfg, s, c);
    }
  }

  /** The server opens the private FIFO of the client whose request it holds. */
  lemma OpenKeepsInv(cfg: Config, s: State, t: State, c: nat, fd: nat)
    requires Inv(cfg, s) && c < |cfg.names| && s.server == Connecting(cfg.names[c]) && fd !in s.table
    requires t == s.(server := Greeting(fd), table := s.table[fd := Private(c)], connections := s.connections + [fd])
    ensures Inv(cfg, t)
  {
    hide FrameOf, SuccessFrame, NewFrame, ClientFrame, GoodHistory;
    assert ClientInv(cfg, s, c);
    forall d | 0 <= d < |t.clients|
      ensures ClientInv(cfg, t, d)
    {
      assert ClientInv(cfg, s, d);
      assert d != c ==> cfg.names[d] != cfg.names[c];
      assert d != c && HasWriter(t.table, d) ==> HasWriter(s.table, d);
      if d == c {
        assert t.table[fd] == Private(c);
      }
    }
  }

  /** The server's write arrives in the private FIFO of c: a greeting there first, else a frame it took. */
  lemma DeliveryKeepsInv(cfg: Config, s: State, t: State, c: nat, f: Frame)
    requires Inv(cfg, s) && c < |s.clients| && HasWriter(s.table, c) && s.Alive() && !s.server.Connecting?
    requires if GreetingTo(s, c) then f == SuccessFrame() && s.clients[c].History() == []
             else !s.server.Greeting? && f in s.taken
    requires t == With(s, c, s.clients[c].(inbox := s.clients[c].inbox + [f])).(server := t.server)
    requires !t.server.Connecting? && !t.server.Greeting? && ServerInv(cfg, t)
    ensures Inv(cfg, t)
  {
    hide FrameOf, SuccessFrame, NewFrame, ServerInv, ClientInv;
    forall d | 0 <= d < |t.clients|
      ensures ClientInv(cfg, t, d)
    {
      if d == c {
        ReceiverKeepsInv(cfg, s, t, c, f);
      } else {
        BystanderKeepsInv(cfg, s, t, c, d);
      }
    }
  }

  lemma ReceiverKeepsInv(cfg: Config, s: State, t: State, c: nat, f: Frame)
    requires c < |s.clients| && c < |cfg.names| && ClientInv(cfg, s, c) && HasWriter(s.table, c)
    requires s.Alive() && !s.server.Connecting?
    requires if GreetingTo(s, c) then f == SuccessFrame() && s.clients[c].History() == [] else f in s.taken
    requires t == With(s, c, s.clients[c].(inbox := s.clients[c].inbox + [f])).(server := t.server)
             && !t.server.Connecting?
    ensures ClientInv(cfg, t, c)
  {
    hide FrameOf, SuccessFrame, NewFrame;
    assert t.clients[c].History() == s.clients[c].History() + [f];
    assert Pending(cfg, t, c) == Pending(cfg, s, c) == 0;
  }

  lemma BystanderKeepsInv(cfg: Config, s: State, t: State, c: nat, d: nat)
    requires c < |s.clients| && d < |s.clients| && d < |cfg.names| && d != c && ClientInv(cfg, s, d)
    requires s.server.Greeting? ==> GreetingTo(s, c)
    requires s.Alive() && !s.server.Connecting?
    requires |t.clients| == |s.clients| && t == With(s, c, t.clients[c]).(server := t.server) && !t.server.Connecting?
    ensures ClientInv(cfg, t, d)
  {
    hide FrameOf, SuccessFrame, NewFrame, GoodHistory;
    assert Pending(cfg, t, d) == Pending(cfg, s, d);
    assert t.clients[d] == s.clients[d];
  }

  /** The server only changes its phase: not to hold a request, and not away from an unfinished greeting. */
  lemma PhaseKeepsInv(cfg: Config, s: State, t: State)
    requires Inv(cfg, s) && t == s.(server := t.server)
    requires !t.server.Connecting? && !t.server.Greeting? && ServerInv(cfg, t)
    requires s.server.Greeting? ==> !t.Alive()
    requires t.Alive() ==> s.Alive()
    ensures Inv(cfg, t)
  {
    hide FrameOf, SuccessFrame, NewFrame, ServerInv, GoodHistory;
    forall c | 0 <= c < |t.clients|
      ensures ClientInv(cfg, t, c)
    {
      assert ClientInv(cfg, s, c);
    }
  }

  lemma SendKeepsInv(cfg: Config, s: State, fd: nat, f: Frame, phase: ServerPhase, writeOk: bool)
    requires Inv(cfg, s)
    requires (s.server == Greeting(fd) && f == SuccessFrame() && phase == Session(fd))
             || (s.server == Echoing(fd, f) && phase == Accepting)
    ensures Inv(cfg, Send(cfg, s, fd, f, phase, writeOk))
  {
    hide FrameOf, SuccessFrame, ClientInv, ClientFrame;
    var t := Send(cfg, s, fd, f, phase, writeOk);
    if t.clients == s.clients {
      PhaseKeepsInv(cfg, s, t);
    } else {
      assert HasWriter(s.table, s.table[fd].c);
      DeliveryKeepsInv(cfg, s, t, s.table[fd].c, f);
    }
  }

  lemma AcceptKeepsInv(cfg: Config, s: State, writeOk: bool)
    requires Inv(cfg, s) && s.server.Accepting? && NextServer(cfg, s, writeOk).Some?
    ensures Inv(cfg, NextServer(cfg, s, writeOk).value)
  {
    hide FrameOf, NewFrame, ClientInv, ClientFrame, Admit;
    AdmitsNewcomers(cfg, s.public[0], s.connections);
    PopKeepsInv(cfg, s, NextServer(cfg, s, writeOk).value);
  }

  lemma SessionKeepsInv(cfg: Config, s: State, writeOk: bool)
    requires Inv(cfg, s) && s.server.Session? && NextServer(cfg, s, writeOk).Some?
    ensures Inv(cfg, NextServer(cfg, s, writeOk).value)
  {
    hide FrameOf, NewFrame, ClientInv, ClientFrame, KindOf;
    PopKeepsInv(cfg, s, NextServer(cfg, s, writeOk).value);
  }

  /** The client whose request the server holds can be found and still reads its private FIFO. */
  lemma RequesterReads(cfg: Config, s: State) returns (c: nat)
    requires Inv(cfg, s) && s.server.Connecting?
    ensures c == IndexOf(cfg.names, s.server.name) && c < |s.clients| && cfg.names[c] == s.server.name
    ensures s.clients[c].phase.AwaitStatus? && Fresh(s, c)
  {
    hide NewFrame;
    c := IndexOf(cfg.names, s.server.name);
    assert ClientInv(cfg, s, c);
  }

  lemma ServerStepKeepsInv(cfg: Config, s: State, writeOk: bool)
    requires Inv(cfg, s) && NextServer(cfg, s, writeOk).Some?
    ensures Inv(cfg, NextServer(cfg, s, writeOk).value)
  {
    hide FrameOf, SuccessFrame, ClientInv, ClientFrame, Send, Admit, KindOf;
    var t := NextServer(cfg, s, writeOk).value;
    if s.server.Accepting? {
      AcceptKeepsInv(cfg, s, writeOk);
    } else if s.server.Session? {
      SessionKeepsInv(cfg, s, writeOk);
    } else if s.server.Connecting? {
      var c := RequesterReads(cfg, s);
      OpenKeepsInv(cfg, s, t, c, t.server.fd);
    } else if s.server.Greeting? {
      SendKeepsInv(cfg, s, s.server.fd, SuccessFrame(), Session(s.server.fd), writeOk);
    } else if s.server.Echoing? {
      SendKeepsInv(cfg, s, s.server.fd, s.server.frame, Accepting, writeOk);
    } else {
      PhaseKeepsInv(cfg, s, t);
    }
  }

  lemma StepKeepsInv(cfg: Config, s: State, step: Step)
    requires Inv(cfg, s) && Next(cfg, s, step).Some?
    ensures Inv(cfg, Next(cfg, s, step).value)
  {
    hide NextClient, NextEager, NextServer, ServerInv, ClientInv;
    match step {
      case ClientStep(c) => ClientStepKeepsInv(cfg, s, c);
      case EagerRead(c) => EagerReadKeepsInv(cfg, s, c);
      case ServerStep(writeOk) => ServerStepKeepsInv(cfg, s, writeOk);
    }
  }

  /** The invariant holds after every sequence of steps. */
  lemma {:induction false} RunKeepsInv(cfg: Config, s: State, steps: seq<Step>)
    requires Inv(cfg, s) && Run(cfg, s, steps).Some?
    ensures Inv(cfg, Run(cfg, s, steps).value)
  {
    hide Next, Inv;
    if steps != [] {
      var before := steps[..|steps| - 1];
      RunKeepsInv(cfg, s, before);
      StepKeepsInv(cfg, Run(cfg, s, before).value, steps[|steps| - 1]);
    }
  }

  // ---- What it gives for every run ----

  /** No descriptor of the server stands for a private FIFO before it has opened one. */
  ghost predicate NoPrivate(table: map<nat, Target>) {
    forall fd <- table :: !table[fd].Private?
  }

  lemma ReachableInv(cfg: Config, table: map<nat, Target>, steps: seq<Step>) returns (s: State)
    requires cfg.Valid() && NoPrivate(table) && Run(cfg, Initial(cfg, table), steps).Some?
    ensures s == Run(cfg, Initial(cfg, table), steps).value && Inv(cfg, s)
  {
    InitialInv(cfg, table);
    RunKeepsInv(cfg, Initial(cfg, table), steps);
    s := Run(cfg, Initial(cfg, table), steps).value;
  }

  /**
   * Handshake safety: while the connection request of a client is queued the client has its
   * private FIFO open for reading, and the server's non-blocking open of that FIFO never fails.
   */
  lemma OpenFindsReader(cfg: Config, table: map<nat, Target>, steps: seq<Step>, writeOk: bool)
    requires cfg.Valid() && NoPrivate(table) && Run(cfg, Initial(cfg, table), steps).Some?
    ensures var s := Run(cfg, Initial(cfg, table), steps).value;
            && |s.clients| == |cfg.names|
            && (forall c :: 0 <= c < |cfg.names| && NewFrame(cfg, c) in s.public ==> s.clients[c].Reads())
            && (s.server.Connecting? ==>
                  var t := Next(cfg, s, ServerStep(writeOk));
                  && t.Some? && t.value.server.Greeting? && t.value.server.fd in t.value.table
                  && t.value.table[t.value.server.fd] == Private(IndexOf(cfg.names, s.server.name))
                  && s.server.name in cfg.names)
  {
    hide NewFrame, Run;
    var s := ReachableInv(cfg, table, steps);
    forall c | 0 <= c < |cfg.names| && NewFrame(cfg, c) in s.public
      ensures s.clients[c].Reads()
    {
      assert ClientInv(cfg, s, c);
    }
    if s.server.Connecting? {
      var c := RequesterReads(cfg, s);
    }
  }

  /**
   * Everything that was ever put on a private FIFO: first the greeting, then byte-for-byte copies
   * of frames that clients had put on the public FIFO.
   */
  lemma PrivateFifoContents(cfg: Config, table: map<nat, Target>, steps: seq<Step>, c: nat)
    requires cfg.Valid() && NoPrivate(table) && Run(cfg, Initial(cfg, table), steps).Some? && c < |cfg.names|
    ensures var s := Run(cfg, Initial(cfg, table), steps).value;
            && |s.clients| == |cfg.names|
            && GoodHistory(s.clients[c].History(), s.taken)
            && (forall f <- s.taken + s.public :: ClientFrame(cfg, f))
  {
    hide Run;
    var s := ReachableInv(cfg, table, steps);
    assert ClientInv(cfg, s, c);
    assert forall f :: f in s.taken + s.public <==> f in s.taken || f in s.public;
  }

  lemma ClientStepFailure(cfg: Config, s: State, d: nat, c: nat)
    requires Inv(cfg, s) && c < |s.clients| && d < |s.clients| && NextClient(cfg, s, d).Some?
    ensures var t := NextClient(cfg, s, d).value;
            |t.clients| == |s.clients| && t.clients[c].phase.Failed? == s.clients[c].phase.Failed?
  {
    hide FrameOf, KindOf, DataOf, CloseFrame, ClientInv, ServerInv;
    GreetingIsRead(cfg, s, d);
  }

  lemma EagerReadFailure(s: State, d: nat, c: nat)
    requires c < |s.clients| && d < |s.clients| && NextEager(s, d).Some?
    ensures var t := NextEager(s, d).value;
            && |t.clients| == |s.clients|
            && (t.clients[c].phase.Failed?
                <==> s.clients[c].phase.Failed? || (c == d && s.clients[c].phase.AwaitStatus?))
  {
    hide KindOf, DataOf;
    ZerosDecode();
  }

  lemma ServerStepFailure(cfg: Config, s: State, writeOk: bool, c: nat)
    requires c < |s.clients| && NextServer(cfg, s, writeOk).Some?
    ensures var t := NextServer(cfg, s, writeOk).value;
            |t.clients| == |s.clients| && t.clients[c].phase == s.clients[c].phase
  {
    hide FrameOf, KindOf, DataOf, SuccessFrame, Admit;
  }

  /** A step takes client c to "Connection is failure" exactly when it is the early read of an awaited status. */
  lemma FailsOnlyByEagerRead(cfg: Config, s: State, step: Step, c: nat)
    requires Inv(cfg, s) && Next(cfg, s, step).Some? && c < |s.clients|
    ensures |Next(cfg, s, step).value.clients| == |s.clients|
    ensures Next(cfg, s, step).value.clients[c].phase.Failed?
            <==> s.clients[c].phase.Failed? || (step == EagerRead(c) && s.clients[c].phase.AwaitStatus?)
  {
    hide NextClient, NextEager, NextServer, ClientInv, ServerInv;
    match step {
      case ClientStep(d) => ClientStepFailure(cfg, s, d, c);
      case EagerRead(d) => EagerReadFailure(s, d, c);
      case ServerStep(writeOk) => ServerStepFailure(cfg, s, writeOk, c);
    }
  }

  /** The first frame a client reads while it awaits its status is the greeting. */
  lemma GreetingIsRead(cfg: Config, s: State, c: nat)
    requires Inv(cfg, s) && c < |s.clients|
    ensures s.clients[c].phase.AwaitStatus? && s.clients[c].inbox != [] ==>
              KindOf(s.clients[c].inbox[0]) == Some(CONNECTION_SUCCESS)
  {
    hide KindOf, SuccessFrame;
    assert ClientInv(cfg, s, c);
    FrameKinds(cfg, c);
    assert s.clients[c].got == [] ==> s.clients[c].History() == s.clients[c].inbox;
  }

  /** Step k of the run is an early read by c while it awaits its status. */
  ghost predicate EagerAt(cfg: Config, s: State, steps: seq<Step>, c: nat, k: nat) {
    && k < |steps| && steps[k] == EagerRead(c)
    && var before := Run(cfg, s, steps[..k]);
       before.Some? && c < |before.value.clients| && before.value.clients[c].phase.AwaitStatus?
  }

  lemma EagerAtPrefix(cfg: Config, s: State, steps: seq<Step>, c: nat)
    requires steps != []
    ensures var before := steps[..|steps| - 1];
            (exists k :: EagerAt(cfg, s, steps, c, k))
            <==> (exists k :: EagerAt(cfg, s, before, c, k)) || EagerAt(cfg, s, steps, c, |steps| - 1)
  {
    hide Run;
    var before := steps[..|steps| - 1];
    forall k: nat | k < |steps| - 1
      ensures EagerAt(cfg, s, steps, c, k) <==> EagerAt(cfg, s, before, c, k)
    {
      assert before[..k] == steps[..k];
    }
  }

  /**
   * The exact condition of a failed handshake, for runs of the code as it stands: client c ends in
   * "Connection is failure" if and only if one of its reads for the status found the FIFO empty.
   */
  lemma {:induction false} FailureIffEagerRead(cfg: Config, s: State, steps: seq<Step>, c: nat)
    requires Inv(cfg, s) && Run(cfg, s, steps).Some? && c < |s.clients| && !s.clients[c].phase.Failed?
    ensures |Run(cfg, s, steps).value.clients| == |s.clients|
    ensures Run(cfg, s, steps).value.clients[c].phase.Failed? <==> exists k :: EagerAt(cfg, s, steps, c, k)
  {
    hide Next, Inv, EagerAt;
    if steps == [] {
      NoEagerInNothing(cfg, s, c);
    } else {
      var before := steps[..|steps| - 1];
      var t := Run(cfg, s, before).value;
      FailureIffEagerRead(cfg, s, before, c);
      RunKeepsInv(cfg, s, before);
      FailsOnlyByEagerRead(cfg, t, steps[|steps| - 1], c);
      EagerAtPrefix(cfg, s, steps, c);
      EagerAtLast(cfg, s, steps, c);
    }
  }

  lemma NoEagerInNothing(cfg: Config, s: State, c: nat)
    ensures forall k :: !EagerAt(cfg, s, [], c, k)
  {
  }

  lemma EagerAtLast(cfg: Config, s: State, steps: seq<Step>, c: nat)
    requires steps != [] && Run(cfg, s, steps[..|steps| - 1]).Some?
    ensures var t := Run(cfg, s, steps[..|steps| - 1]).value;
            EagerAt(cfg, s, steps, c, |steps| - 1)
            <==> steps[|steps| - 1] == EagerRead(c) && c < |t.clients| && t.clients[c].phase.AwaitStatus?
  {
    hide Run;
  }
}

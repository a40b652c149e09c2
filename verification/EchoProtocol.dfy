/**
 * The echo FIFO protocol as an interleaving of system calls: any number of clients
 * (fifo/echo_fifo_server_client/client/client.cpp), each with its private FIFO, and one server
 * (fifo/echo_fifo_server_client/server/server.cpp) with the public one. FIFOs are queues of
 * frames; Fifo.FramesStayAligned is the licence for that.
 */
module EchoProtocol {
  import opened Bytes
  import opened Lists
  import opened Posix
  import opened PackageCodec

  // ---- Frames and what the server makes of them ----

  /** A buffer is cleared before a package is put into it. */
  function FrameOf(kind: nat, data: seq<Byte>): Frame
    requires kind < 4 && |data| <= CAPACITY
  {
    Encode(Package(kind, data), Zeros(FRAME))
  }

  function SuccessFrame(): Frame {
    FrameOf(CONNECTION_SUCCESS, [])
  }

  function CloseFrame(): Frame {
    FrameOf(CONNECTION_CLOSE, [])
  }

  datatype Admission = Newcomer(name: seq<Byte>) | Known(fd: nat) | Refused

  /**
   * The decision of `Accept`. The wire carries no descriptor, so the message branch looks for 0 in
   * the connection table.
   */
  function Admit(f: Frame, connections: seq<nat>): Admission {
    if KindOf(f) == Some(NEW_CONNECTION) then Newcomer(DataOf(f))
    else if KindOf(f) == Some(MESSAGE) && IndexOf(connections, 0) < |connections| then Known(0)
    else Refused
  }

  function KindOf(f: Frame): Option<nat> {
    match Decode(f) case None => None case Some(p) => Some(p.kind)
  }

  function DataOf(f: Frame): seq<Byte> {
    match Decode(f) case None => [] case Some(p) => p.data
  }

  // ---- States ----

  /** Data that fits into a frame; file names hold no NUL. */
  type Text = t: seq<Byte> | |t| <= CAPACITY
  type Name = n: seq<Byte> | |n| <= CAPACITY && NulFree(n)

  datatype Config = Config(names: seq<Name>, messages: seq<Text>, capacity: nat) {
    /** `mkfifo` makes the names distinct; a pipe holds at least one frame. */
    ghost predicate Valid() {
      NoDup(names) && |messages| == |names| && capacity > 0
    }
  }

  datatype ClientPhase =
    | Start | FifoMade | ReadEndOpen | Linked
    | AwaitStatus | Connected | AwaitEcho | Answered
    | Closing | Unlinked | Done
    | Failed   // left through "Connection is failure"
    | Killed   // ended by a failing open or a write nobody reads

  /** `inbox` is the private FIFO, `got` what the client has read from it. */
  datatype Client = Client(phase: ClientPhase, inbox: seq<Frame>, got: seq<Frame>, response: seq<Byte>) {
    /** Everything ever put into the private FIFO. */
    function History(): seq<Frame> {
      got + inbox
    }

    /** The client has its private FIFO open for reading. */
    predicate Reads() {
      phase.ReadEndOpen? || phase.Linked? || phase.AwaitStatus? || phase.Connected? || phase.AwaitEcho?
      || phase.Answered? || phase.Closing? || phase.Unlinked?
    }
  }

  datatype ServerPhase =
    | Opening
    | Accepting
    | Connecting(name: seq<Byte>)
    | Greeting(fd: nat)
    | Session(fd: nat)
    | Echoing(fd: nat, frame: Frame)
    | Leaving
    | Gone
    | Crashed

  datatype Target = Inherited | Public | Private(c: nat)

  datatype State = State(
    clients: seq<Client>,
    public: seq<Frame>,
    taken: seq<Frame>,
    met: bool,
    server: ServerPhase,
    connections: seq<nat>,
    table: map<nat, Target>)
  {
    /** The server still has the public FIFO open. */
    predicate Alive() {
      !server.Gone? && !server.Crashed?
    }
  }

  /** `connections(1024)`: the table starts as 1024 zeros. */
  function InitialConnections(): (r: seq<nat>)
    ensures |r| == 1024 && forall fd <- r :: fd == 0
  {
    seq(1024, _ => 0)
  }

  /** The server has just made the public FIFO and has these descriptors; no client has started. */
  function Initial(cfg: Config, table: map<nat, Target>): State {
    State(seq(|cfg.names|, _ => Client(Start, [], [], [])), [], [], false, Opening, InitialConnections(), table)
  }

  // ---- Steps ----

  /**
   * One system call of a client, one of the server (whose writes to inherited descriptors may
   * fail), or a client's read that finds its FIFO empty while the server has it open: that read
   * returns -1, and `ReadFrom` takes it for data because it keeps the result in a `size_t`.
   */
  datatype Step = ClientStep(c: nat) | EagerRead(c: nat) | ServerStep(writeOk: bool)

  function With(s: State, c: nat, client: Client): State
    requires c < |s.clients|
  {
    s.(clients := s.clients[c := client])
  }

  function Next(cfg: Config, s: State, step: Step): Option<State>
  {
    match step
    case ClientStep(c) =>
      if c < |s.clients| && c < |cfg.names| && c < |cfg.messages| then NextClient(cfg, s, c) else None
    case EagerRead(c) => if c < |s.clients| then NextEager(s, c) else None
    case ServerStep(writeOk) => NextServer(cfg, s, writeOk)
  }

  /** A client's write to the public FIFO: blocked while it is full, fatal when nobody reads it. */
  function Put(cfg: Config, s: State, c: nat, f: Frame, phase: ClientPhase): Option<State>
    requires c < |s.clients|
  {
    if !s.Alive() then Some(With(s, c, s.clients[c].(phase := Killed)))
    else if |s.public| < cfg.capacity then
      Some(With(s, c, s.clients[c].(phase := phase)).(public := s.public + [f]))
    else None
  }

  function NextClient(cfg: Config, s: State, c: nat): Option<State>
    requires c < |s.clients| && c < |cfg.names| && c < |cfg.messages|
  {
    var me := s.clients[c];
    match me.phase
    case Start => Some(With(s, c, me.(phase := FifoMade)))
    case FifoMade => Some(With(s, c, me.(phase := ReadEndOpen)))
    case ReadEndOpen =>
      if s.server.Gone? then Some(With(s, c, me.(phase := Killed)))
      else if s.server.Crashed? then None
      else Some(With(s, c, me.(phase := Linked)).(met := true))
    case Linked => Put(cfg, s, c, FrameOf(NEW_CONNECTION, cfg.names[c]), AwaitStatus)
    case AwaitStatus =>
      if me.inbox == [] then None
      else
        var f := me.inbox[0];
        var next := if KindOf(f) == Some(CONNECTION_SUCCESS) then Connected else Failed;
        Some(With(s, c, me.(phase := next, inbox := me.inbox[1..], got := me.got + [f])))
    case Connected => Put(cfg, s, c, FrameOf(MESSAGE, cfg.messages[c]), AwaitEcho)
    case AwaitEcho =>
      if me.inbox == [] then None
      else
        var f := me.inbox[0];
        Some(With(s, c, Client(Answered, me.inbox[1..], me.got + [f], DataOf(f))))
    case Answered => Put(cfg, s, c, CloseFrame(), Closing)
    case Closing => Some(With(s, c, me.(phase := Unlinked)))
    case Unlinked => Some(With(s, c, me.(phase := Done)))
    case _ => None
  }

  /** The early return of `ReadFrom`: the buffer is as `ClearBuffer` left it. */
  function NextEager(s: State, c: nat): Option<State>
    requires c < |s.clients|
  {
    var me := s.clients[c];
    if me.inbox != [] || !s.Alive() || !HasWriter(s.table, c) then None
    else if me.phase.AwaitStatus? then
      var next := if KindOf(Zeros(FRAME)) == Some(CONNECTION_SUCCESS) then Connected else Failed;
      Some(With(s, c, me.(phase := next)))
    else if me.phase.AwaitEcho? then
      Some(With(s, c, me.(phase := Answered, response := DataOf(Zeros(FRAME)))))
    else None
  }

  predicate HasWriter(table: map<nat, Target>, c: nat) {
    exists fd <- table :: table[fd] == Private(c)
  }

  function Crash(s: State): State {
    s.(server := Crashed)
  }

  /** The server's write of one frame, and the phase it goes to when the write succeeds. */
  function Send(cfg: Config, s: State, fd: nat, f: Frame, phase: ServerPhase, writeOk: bool): State {
    if fd !in s.table then Crash(s)
    else
      match s.table[fd]
      case Inherited => if writeOk then s.(server := phase) else Crash(s)
      case Public => Crash(s)
      case Private(c) =>
        if c < |s.clients| && s.clients[c].Reads() && |s.clients[c].inbox| < cfg.capacity
        then With(s, c, s.clients[c].(inbox := s.clients[c].inbox + [f])).(server := phase)
        else Crash(s)
  }

  function NextServer(cfg: Config, s: State, writeOk: bool): Option<State>
  {
    match s.server
    case Opening => if s.met then Some(s.(server := Accepting)) else None
    case Accepting =>
      if s.public == [] then None
      else
        var f := s.public[0];
        var popped := s.(public := s.public[1..], taken := s.taken + [f]);
        (match Admit(f, s.connections)
         case Newcomer(name) => Some(popped.(server := Connecting(name)))
         case Known(fd) => Some(popped.(server := Session(fd)))
         case Refused => Some(popped.(server := Leaving)))
    case Connecting(name) =>
      var c := IndexOf(cfg.names, name);
      if c < |s.clients| && s.clients[c].Reads() then
        var fd := LowestUnused(s.table.Keys);
        Some(s.(server := Greeting(fd), table := s.table[fd := Private(c)], connections := s.connections + [fd]))
      else Some(Crash(s))
    case Greeting(fd) => Some(Send(cfg, s, fd, SuccessFrame(), Session(fd), writeOk))
    case Session(fd) =>
      if s.public == [] then None
      else
        var f := s.public[0];
        var popped := s.(public := s.public[1..], taken := s.taken + [f]);
        if KindOf(f) != Some(CONNECTION_CLOSE) then Some(popped.(server := Echoing(fd, f)))
        else
          var k := IndexOf(s.connections, fd);
          if k == |s.connections| then Some(popped.(server := Accepting))
          else if fd !in s.table then Some(Crash(popped.(connections := EraseAt(s.connections, k))))
          else Some(popped.(server := Accepting, connections := EraseAt(s.connections, k), table := s.table - {fd}))
    case Echoing(fd, f) => Some(Send(cfg, s, fd, f, Accepting, writeOk))
    case Leaving => Some(s.(server := Gone))
    case _ => None
  }

  // ---- Runs ----

  /** The state after a sequence of steps, if each of them can be taken. */
  function Run(cfg: Config, s: State, steps: seq<Step>): Option<State>
  {
    if steps == [] then Some(s)
    else
      match Run(cfg, s, steps[..|steps| - 1])
      case None => None
      case Some(t) => Next(cfg, t, steps[|steps| - 1])
  }

  /** All reads wait for data, as the documentation of `ReadFrom` has it. */
  ghost predicate Patient(steps: seq<Step>) {
    forall step <- steps :: !step.EagerRead?
  }

  /** The client has printed the server's response. */
  predicate HasAnswer(p: ClientPhase) {
    p.Answered? || p.Closing? || p.Unlinked? || p.Done?
  }
}

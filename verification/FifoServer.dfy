/**
 * fifo/echo_fifo_server_client/server/server.cpp as sequential code: its session table, its
 * buffers and its main loop over whatever the public FIFO delivers.
 */
module FifoServer {
  import opened Bytes
  import opened Lists
  import opened Posix
  import opened PackageCodec
  import opened EchoProtocol

  /** The result of one `read` call: -1, 0, or a frame. */
  datatype Attempt = Failure | Nothing | Delivered(frame: Frame)

  /** The attempt at which `ReadFrom` stops; it keeps the result in a `size_t`, so -1 stops it too. */
  function Stopping(attempts: seq<Attempt>): (r: Option<Attempt>)
    ensures r.Some? ==> r.value in attempts && !r.value.Nothing?
    ensures r.None? <==> forall a <- attempts :: a.Nothing?
  {
    if attempts == [] then None
    else if attempts[0].Nothing? then Stopping(attempts[1..])
    else Some(attempts[0])
  }

  /** The attempt at index k is the first that is not an empty read: there `ReadFrom` stops. */
  ghost predicate FirstAt(attempts: seq<Attempt>, k: nat) {
    k < |attempts| && !attempts[k].Nothing? && forall j :: 0 <= j < k ==> attempts[j].Nothing?
  }

  lemma {:induction false} StopsAtFirst(attempts: seq<Attempt>, k: nat)
    requires FirstAt(attempts, k)
    ensures Stopping(attempts) == Some(attempts[k])
  {
    if k > 0 {
      assert attempts[0].Nothing?;
      assert forall j :: 0 <= j < k - 1 ==> attempts[1..][j] == attempts[j + 1];
      StopsAtFirst(attempts[1..], k - 1);
    }
  }

  /** What a buffer that held `prior` holds when `ReadFrom` returns. */
  function Seen(attempts: seq<Attempt>, prior: Frame): Frame {
    match Stopping(attempts)
    case Some(Delivered(f)) => f
    case _ => prior
  }

  /** What the environment answers during one turn of the main loop. */
  datatype Input = Input(request: seq<Attempt>, openOk: bool, greetOk: bool, message: seq<Attempt>, echoOk: bool)

  /** How a call ends: it returns, an exception leaves it, or it waits for a frame that does not come. */
  datatype Result = Returned(value: int) | Threw | Waiting

  /** The server's books: its session table and descriptors, and what has happened so far. */
  datatype Book = Book(
    connections: seq<nat>,
    fds: Descriptors,
    sessionsOpened: seq<nat>,
    sessionsClosed: seq<nat>,
    sent: seq<(nat, Frame)>,
    unknownSessions: nat)
  {
    /** The session table is its initial contents, plus the sessions opened, minus those closed. */
    ghost predicate Conserved() {
      multiset(connections) + multiset(sessionsClosed) == multiset(InitialConnections()) + multiset(sessionsOpened)
    }
  }

  function NewBook(fds: Descriptors): Book {
    Book(InitialConnections(), fds, [], [], [], 0)
  }

  // ---- What the parts of the server do to the books ----

  function Accepted(b: Book, input: Input): (Book, Result) {
    if Stopping(input.request).None? then (b, Waiting)
    else
      match Admit(Seen(input.request, Zeros(FRAME)), b.connections)
      case Newcomer(_) => if input.openOk then Greeted(b, input.greetOk) else (b, Threw)
      case Known(fd) => (b, Returned(fd))
      case Refused => (b, Returned(-1))
  }

  function Greeted(b: Book, greetOk: bool): (Book, Result) {
    var (table, fd) := b.fds.Allocate();
    var listed := b.(fds := table, connections := b.connections + [fd], sessionsOpened := b.sessionsOpened + [fd]);
    if greetOk then (listed.(sent := b.sent + [(fd, SuccessFrame())]), Returned(fd)) else (listed, Threw)
  }

  function Ended(b: Book, clientFd: nat): (Book, Result) {
    var k := IndexOf(b.connections, clientFd);
    if k == |b.connections| then (b.(unknownSessions := b.unknownSessions + 1), Returned(0))
    else
      (b.(connections := EraseAt(b.connections, k), fds := b.fds.Close(clientFd),
          sessionsClosed := b.sessionsClosed + [clientFd]),
       if clientFd in b.fds.table then Returned(0) else Threw)
  }

  function Conversed(b: Book, clientFd: nat, input: Input): (Book, Result) {
    var f := Seen(input.message, Zeros(FRAME));
    if Stopping(input.message).None? then (b, Waiting)
    else if KindOf(f) == Some(CONNECTION_CLOSE) then Ended(b, clientFd)
    else if input.echoOk then (b.(sent := b.sent + [(clientFd, f)]), Returned(0))
    else (b, Threw)
  }

  /** One turn of the main loop; it goes on only when both parts return and `Accept` gave a session. */
  function Turned(b: Book, input: Input): (Book, bool) {
    var (c, accepted) := Accepted(b, input);
    if !accepted.Returned? || accepted.value < 0 then (c, false)
    else
      var (d, conversed) := Conversed(c, accepted.value, input);
      (d, conversed.Returned?)
  }

  /** How a turn ends. */
  function TurnEnd(b: Book, input: Input): Result {
    var (c, accepted) := Accepted(b, input);
    if !accepted.Returned? || accepted.value < 0 then accepted else Conversed(c, accepted.value, input).1
  }

  function Served(b: Book, inputs: seq<Input>): Book
    decreases inputs
  {
    if inputs == [] then b
    else
      var (c, goesOn) := Turned(b, inputs[0]);
      if goesOn then Served(c, inputs[1..]) else c
  }

  // ---- What the parts mean ----

  /**
   * `Accept`, case by case. A connection request opens a session on the lowest unused descriptor; a
   * message finds 0 in the table, or nothing; anything else, and an early read of a cleared buffer
   * counts as a message, gives -1.
   */
  lemma AcceptMeans(b: Book, input: Input)
    ensures var (c, r) := Accepted(b, input);
            match Stopping(input.request)
            case None => c == b && r == Waiting
            case Some(a) =>
              var kind := if a.Delivered? then KindOf(a.frame) else Some(0);
              var fd := LowestUnused(b.fds.table.Keys);
              if kind == Some(1) && !input.openOk then c == b && r == Threw
              else if kind == Some(1) then
                && c.connections == b.connections + [fd] && c.fds.table.Keys == b.fds.table.Keys + {fd}
                && c.sessionsOpened == b.sessionsOpened + [fd] && c.sessionsClosed == b.sessionsClosed
                && c.sent == b.sent + (if input.greetOk then [(fd, SuccessFrame())] else [])
                && r == (if input.greetOk then Returned(fd) else Threw)
              else
                c == b && r == if kind == Some(0) && 0 in b.connections then Returned(0) else Returned(-1)
  {
    hide Decode, SuccessFrame, DataOf;
    if Stopping(input.request) == Some(Failure) {
      ClearedBuffer();
    }
  }

  lemma DecodedKinds()
    ensures forall f: Frame :: KindOf(f) == match Decode(f) case None => None case Some(p) => Some(p.kind)
  {
    hide Decode;
  }

  /** A cleared buffer reads as an empty message. */
  lemma ClearedBuffer()
    ensures KindOf(Zeros(FRAME)) == Some(0) && DataOf(Zeros(FRAME)) == []
  {
    DecodeMeans(Zeros(FRAME));
  }

  /** `CreateNewSession`: a close frame ends the session, any other frame is sent back as it came. */
  lemma SessionMeans(b: Book, clientFd: nat, input: Input)
    ensures var (c, r) := Conversed(b, clientFd, input);
            match Stopping(input.message)
            case None => c == b && r == Waiting
            case Some(a) =>
              var f := if a.Delivered? then a.frame else Zeros(FRAME);
              if KindOf(f) == Some(3) then
                if clientFd in b.connections then
                  && multiset(b.connections) == multiset(c.connections) + multiset{clientFd}
                  && c.fds.table.Keys == b.fds.table.Keys - {clientFd} && c.sent == b.sent
                  && c.sessionsClosed == b.sessionsClosed + [clientFd] && c.sessionsOpened == b.sessionsOpened
                  && r == (if clientFd in b.fds.table then Returned(0) else Threw)
                else c == b.(unknownSessions := b.unknownSessions + 1) && r == Returned(0)
              else
                && c == b.(sent := b.sent + (if input.echoOk then [(clientFd, f)] else []))
                && r == (if input.echoOk then Returned(0) else Threw)
  {
    hide Decode;
  }

  /** A turn after which the loop ends: `Accept` gave no session, something was thrown, or a read waits. */
  ghost predicate IsLast(b: Book, input: Input) {
    var (c, r) := Accepted(b, input);
    r == Returned(-1) || !r.Returned? || (r.value >= 0 && !Conversed(c, r.value, input).1.Returned?)
  }

  /** Nothing that comes after the last turn has any effect. */
  lemma {:induction false} FinalAfterLast(b: Book, inputs: seq<Input>, last: Input, more: seq<Input>)
    requires IsLast(Served(b, inputs), last)
    ensures Served(b, inputs + [last] + more) == Served(b, inputs + [last])
    decreases inputs
  {
    hide Accepted, Conversed;
    var all, short := inputs + [last] + more, inputs + [last];
    assert all[0] == short[0];
    if inputs != [] {
      assert all[1..] == inputs[1..] + [last] + more && short[1..] == inputs[1..] + [last];
      var (c, goesOn) := Turned(b, inputs[0]);
      if goesOn {
        FinalAfterLast(c, inputs[1..], last, more);
      }
    } else {
      AcceptResults(b, last);
    }
  }

  lemma AcceptResults(b: Book, input: Input)
    ensures var r := Accepted(b, input).1; r.Returned? ==> r.value >= -1
  {
    AcceptMeans(b, input);
  }

  predicate AllGoOn(b: Book, inputs: seq<Input>)
    decreases inputs
  {
    inputs == [] || (Turned(b, inputs[0]).1 && AllGoOn(Turned(b, inputs[0]).0, inputs[1..]))
  }

  lemma {:induction false} ServedAppend(b: Book, inputs: seq<Input>, last: Input)
    requires AllGoOn(b, inputs)
    ensures Served(b, inputs + [last]) == Turned(Served(b, inputs), last).0
    ensures AllGoOn(b, inputs + [last]) == Turned(Served(b, inputs), last).1
    decreases inputs
  {
    hide Turned;
    if inputs == [] {
      var all := inputs + [last];
      assert all == [last] && all[1..] == [];
      assert Served(Turned(b, last).0, []) == Turned(b, last).0;
    } else {
      assert (inputs + [last])[1..] == inputs[1..] + [last];
      ServedAppend(Turned(b, inputs[0]).0, inputs[1..], last);
    }
  }

  lemma NothingServed(b: Book)
    ensures Served(b, []) == b && AllGoOn(b, [])
  {
  }

  /** How the turn on the input at index k ends, and what it leaves, when all before it went on. */
  lemma AppendTurn(b: Book, inputs: seq<Input>, k: nat)
    requires k < |inputs| && AllGoOn(b, inputs[..k])
    ensures Served(b, inputs[..k + 1]) == Turned(Served(b, inputs[..k]), inputs[k]).0
    ensures AllGoOn(b, inputs[..k + 1]) == Turned(Served(b, inputs[..k]), inputs[k]).1
  {
    assert inputs[..k + 1] == inputs[..k] + [inputs[k]];
    ServedAppend(b, inputs[..k], inputs[k]);
  }

  lemma TurnMeans(b: Book, input: Input)
    ensures var (c, r) := Accepted(b, input);
            if !r.Returned? || r.value < 0
            then Turned(b, input) == (c, false) && TurnEnd(b, input) == r && IsLast(b, input)
            else
              var (d, e) := Conversed(c, r.value, input);
              Turned(b, input) == (d, e.Returned?) && TurnEnd(b, input) == e && (IsLast(b, input) <==> !e.Returned?)
  {
    hide Accepted, Conversed;
    AcceptResults(b, input);
  }

  lemma {:induction false} GoOnMeans(b: Book, inputs: seq<Input>, k: nat)
    requires AllGoOn(b, inputs) && k < |inputs|
    ensures !IsLast(Served(b, inputs[..k]), inputs[k])
    decreases inputs
  {
    hide Turned, IsLast;
    if k == 0 {
      assert inputs[..0] == [];
      TurnMeans(b, inputs[0]);
    } else {
      assert inputs[..k][0] == inputs[0] && inputs[..k][1..] == inputs[1..][..k - 1];
      GoOnMeans(Turned(b, inputs[0]).0, inputs[1..], k - 1);
    }
  }

  /** The last turn of `inputs` that is played, when there is one. */
  ghost predicate PlaysTo(b: Book, inputs: seq<Input>, played: nat) {
    && played <= |inputs|
    && (forall k :: 0 <= k < played - 1 ==> !IsLast(Served(b, inputs[..k]), inputs[k]))
    && (played < |inputs| ==> played > 0 && IsLast(Served(b, inputs[..played - 1]), inputs[played - 1]))
  }

  // ---- What holds of the books over every stream of frames ----

  lemma AddToBoth(a: multiset<nat>, b: multiset<nat>, c: multiset<nat>, d: multiset<nat>, x: nat)
    requires a + b == c + d
    ensures (a + multiset{x}) + b == c + (d + multiset{x})
  {
    assert (a + multiset{x}) + b == (a + b) + multiset{x};
  }

  lemma GreetingConserves(b: Book, greetOk: bool)
    requires b.Conserved()
    ensures var (c, r) := Greeted(b, greetOk);
            && c.Conserved() && (r.Returned? ==> r.value >= 0 && r.value in c.connections)
  {
    var fd := b.fds.Allocate().1;
    AddToBoth(multiset(b.connections), multiset(b.sessionsClosed), multiset(InitialConnections()),
      multiset(b.sessionsOpened), fd);
    assert multiset(b.connections + [fd]) == multiset(b.connections) + multiset{fd};
    assert multiset(b.sessionsOpened + [fd]) == multiset(b.sessionsOpened) + multiset{fd};
    assert (b.connections + [fd])[|b.connections|] == fd;
  }

  /** `Accept` returns a descriptor only when it stands in the session table. */
  lemma AcceptConserves(b: Book, input: Input)
    requires b.Conserved()
    ensures var (c, r) := Accepted(b, input);
            && c.Conserved() && c.unknownSessions == b.unknownSessions
            && (r.Returned? && r.value >= 0 ==> r.value in c.connections)
  {
    hide KindOf, DataOf, SuccessFrame, Seen, Stopping, Zeros;
    GreetingConserves(b, input.greetOk);
  }

  lemma SessionConserves(b: Book, clientFd: nat, input: Input)
    requires b.Conserved() && clientFd in b.connections
    ensures var (c, r) := Conversed(b, clientFd, input);
            c.Conserved() && c.unknownSessions == b.unknownSessions
  {
    hide KindOf, Seen, Stopping, Zeros;
    EndingConserves(b, clientFd);
  }

  lemma EndingConserves(b: Book, clientFd: nat)
    requires b.Conserved() && clientFd in b.connections
    ensures Ended(b, clientFd).0.Conserved() && Ended(b, clientFd).0.unknownSessions == b.unknownSessions
  {
    var k := IndexOf(b.connections, clientFd);
    assert multiset(b.sessionsClosed + [clientFd]) == multiset(b.sessionsClosed) + multiset{clientFd};
    assert multiset(b.connections) == multiset(EraseAt(b.connections, k)) + multiset{clientFd};
    var rest := multiset(EraseAt(b.connections, k));
    assert (rest + multiset{clientFd}) + multiset(b.sessionsClosed)
      == rest + (multiset(b.sessionsClosed) + multiset{clientFd});
  }

  /**
   * Over any stream of frames and any failures the session table is conserved, and the branch of
   * `SessionClose` for an unknown session is never taken.
   */
  lemma {:induction false} TableConserved(b: Book, inputs: seq<Input>)
    requires b.Conserved()
    ensures Served(b, inputs).Conserved() && Served(b, inputs).unknownSessions == b.unknownSessions
    decreases inputs
  {
    hide Accepted, Conversed;
    if inputs != [] {
      var (c, r) := Accepted(b, inputs[0]);
      AcceptConserves(b, inputs[0]);
      if r.Returned? && r.value >= 0 {
        SessionConserves(c, r.value, inputs[0]);
      }
      var (d, goesOn) := Turned(b, inputs[0]);
      if goesOn {
        TableConserved(d, inputs[1..]);
      }
    }
  }

  // ---- The code ----

  class Server {
    var connections: seq<nat>
    var fds: Descriptors
    var sessionsOpened: seq<nat>
    var sessionsClosed: seq<nat>
    var sent: seq<(nat, Frame)>
    var unknownSessions: nat

    function View(): Book
      reads this
    {
      Book(connections, fds, sessionsOpened, sessionsClosed, sent, unknownSessions)
    }

    constructor (fds: Descriptors)
      ensures View() == NewBook(fds) && View().Conserved()
    {
      connections := InitialConnections();
      this.fds := fds;
      sessionsOpened, sessionsClosed, sent, unknownSessions := [], [], [], 0;
    }

    method ReadFrom(attempts: seq<Attempt>, buffer: array<Byte>) returns (stopped: bool)
      requires buffer.Length == FRAME
      modifies buffer
      ensures stopped == Stopping(attempts).Some?
      ensures buffer[..] == Seen(attempts, old(buffer[..]))
      ensures stopped <==> exists k: nat :: FirstAt(attempts, k)
      ensures forall k: nat :: FirstAt(attempts, k) ==>
                buffer[..] == if attempts[k].Delivered? then attempts[k].frame else old(buffer[..])
    {
      var i := 0;
      forall k: nat | FirstAt(attempts, k)
        ensures Stopping(attempts) == Some(attempts[k])
      {
        StopsAtFirst(attempts, k);
      }
      while i < |attempts|
        invariant i <= |attempts| && buffer[..] == old(buffer[..])
        invariant Stopping(attempts) == Stopping(attempts[i..])
        invariant forall j :: 0 <= j < i ==> attempts[j].Nothing?
      {
        assert attempts[i..][1..] == attempts[i + 1..];
        if !attempts[i].Nothing? {
          if attempts[i].Delivered? {
            MemCpy(buffer, 0, attempts[i].frame);
          }
          assert FirstAt(attempts, i);
          return true;
        }
        i := i + 1;
      }
      stopped := false;
    }

    method ClearBuffer(buffer: array<Byte>)
      requires buffer.Length == FRAME
      modifies buffer
      ensures buffer[..] == Zeros(FRAME)
    {
      MemCpy(buffer, 0, Zeros(FRAME));
    }

    /** The end of the newcomer branch: the session is in the table before the greeting is written. */
    method Greet(greeting: Frame, greetOk: bool) returns (r: Result)
      requires greeting == SuccessFrame()
      modifies this
      ensures (View(), r) == Greeted(old(View()), greetOk)
    {
      var (table, clientFd) := fds.Allocate();
      fds, connections, sessionsOpened := table, connections + [clientFd], sessionsOpened + [clientFd];
      if !greetOk {
        return Threw;
      }
      sent := sent + [(clientFd, greeting)];
      return Returned(clientFd);
    }

    method Accept(input: Input) returns (r: Result)
      modifies this
      ensures (View(), r) == Accepted(old(View()), input)
      ensures match Stopping(input.request)
              case None => View() == old(View()) && r == Waiting
              case Some(a) =>
                var kind := if a.Delivered? then KindOf(a.frame) else Some(0);
                if kind == Some(1) then
                  if !input.openOk then View() == old(View()) && r == Threw
                  else
                    var fd := LowestUnused(old(fds).table.Keys);
                    && connections == old(connections) + [fd]
                    && sent == old(sent) + (if input.greetOk then [(fd, SuccessFrame())] else [])
                    && r == if input.greetOk then Returned(fd) else Threw
                else
                  && View() == old(View())
                  && r == if kind == Some(0) && 0 in old(connections) then Returned(0) else Returned(-1)
    {
      hide Encode, Decode, CutAtNul, Greeted, KindOf, DataOf;
      AcceptMeans(View(), input);
      DecodedKinds();
      var buffer := new Byte[FRAME](_ => 0);
      assert buffer[..] == Zeros(FRAME);
      var stopped := ReadFrom(input.request, buffer);
      if !stopped {
        return Waiting;
      }
      var package := Deserialize(buffer);
      ClearBuffer(buffer);
      if package.Some? && package.value.kind == NEW_CONNECTION {
        if !input.openOk {
          return Threw;
        }
        Serialize(Package(CONNECTION_SUCCESS, []), buffer);
        r := Greet(buffer[..], input.greetOk);
        return;
      } else if package.Some? && package.value.kind == MESSAGE {
        var k := IndexOf(connections, 0);
        if k < |connections| {
          return Returned(connections[k]);
        }
      }
      return Returned(-1);
    }

    /**
     * A listed session loses one occurrence in the table and its descriptor is closed; an exception
     * leaves if that was not open. An unknown session changes nothing but the count of such calls.
     */
    method SessionClose(clientFd: nat) returns (r: Result)
      modifies this
      ensures (View(), r) == Ended(old(View()), clientFd)
      ensures clientFd in old(connections) ==>
        && multiset(old(connections)) == multiset(connections) + multiset{clientFd}
        && sessionsClosed == old(sessionsClosed) + [clientFd] && unknownSessions == old(unknownSessions)
        && clientFd !in fds.table && fds.table.Keys == old(fds).table.Keys - {clientFd}
        && if clientFd in old(fds).table
           then r == Returned(0) && fds.closed == old(fds).closed + [old(fds).table[clientFd]]
           else r == Threw && fds.failures == old(fds).failures + 1
      ensures clientFd !in old(connections) ==>
        && r == Returned(0) && unknownSessions == old(unknownSessions) + 1
        && unchanged(this`connections, this`fds, this`sessionsClosed)
      ensures unchanged(this`sessionsOpened, this`sent)
      ensures old(View()).Conserved() ==> View().Conserved()
    {
      if View().Conserved() && clientFd in connections {
        EndingConserves(View(), clientFd);
      }
      var k := IndexOf(connections, clientFd);
      if k < |connections| {
        var wasOpen := clientFd in fds.table;
        connections, sessionsClosed := EraseAt(connections, k), sessionsClosed + [clientFd];
        fds := fds.Close(clientFd);
        return if wasOpen then Returned(0) else Threw;
      }
      unknownSessions := unknownSessions + 1;
      return Returned(0);
    }

    method CreateNewSession(clientFd: nat, input: Input) returns (r: Result)
      modifies this
      ensures (View(), r) == Conversed(old(View()), clientFd, input)
      ensures match Stopping(input.message)
              case None => View() == old(View()) && r == Waiting
              case Some(a) =>
                var f := if a.Delivered? then a.frame else Zeros(FRAME);
                if KindOf(f) == Some(3) then
                  && sent == old(sent)
                  && (clientFd in old(connections) ==>
                        multiset(old(connections)) == multiset(connections) + multiset{clientFd})
                else
                  && connections == old(connections) && fds == old(fds)
                  && sent == old(sent) + (if input.echoOk then [(clientFd, f)] else [])
                  && r == if input.echoOk then Returned(0) else Threw
    {
      hide Encode, Decode, CutAtNul, Ended, KindOf;
      SessionMeans(View(), clientFd, input);
      DecodedKinds();
      var buffer := new Byte[FRAME](_ => 0);
      assert buffer[..] == Zeros(FRAME);
      var stopped := ReadFrom(input.message, buffer);
      if !stopped {
        return Waiting;
      }
      var package := Deserialize(buffer);
      if package.Some? && package.value.kind == CONNECTION_CLOSE {
        r := SessionClose(clientFd);
        return;
      }
      if !input.echoOk {
        return Threw;
      }
      sent := sent + [(clientFd, buffer[..])];
      return Returned(0);
    }

    /**
     * The main loop. It plays its inputs up to the first turn after which it ends, and says how that
     * turn ended; the session table is conserved.
     */
    method Serve(inputs: seq<Input>) returns (played: nat, ending: Result)
      modifies this
      ensures View() == Served(old(View()), inputs) && PlaysTo(old(View()), inputs, played)
      ensures inputs != [] ==> played > 0
      ensures played > 0 ==> ending == TurnEnd(Served(old(View()), inputs[..played - 1]), inputs[played - 1])
      ensures View() == Served(old(View()), inputs[..played])
      ensures old(View()).Conserved() ==> View().Conserved() && unknownSessions == old(unknownSessions)
    {
      hide Accepted, Conversed, IsLast, TurnEnd, Turned, Served, AllGoOn;
      ghost var start := View();
      if start.Conserved() {
        TableConserved(start, inputs);
      }
      assert inputs[..0] == [];
      NothingServed(start);
      played, ending := 0, Waiting;
      while played < |inputs|
        invariant played <= |inputs|
        invariant AllGoOn(start, inputs[..played]) && Served(start, inputs[..played]) == View()
        invariant forall k :: 0 <= k < played ==> !IsLast(Served(start, inputs[..k]), inputs[k])
        invariant played > 0 ==> ending == TurnEnd(Served(start, inputs[..played - 1]), inputs[played - 1])
      {
        ghost var book, input := View(), inputs[played];
        TurnMeans(book, input);
        AppendTurn(start, inputs, played);
        var r := Accept(inputs[played]);
        if r.Returned? && r.value >= 0 {
          r := CreateNewSession(r.value, inputs[played]);
          if r.Returned? {
            played, ending := played + 1, r;
            continue;
          }
        }
        FinalAfterLast(start, inputs[..played], input, inputs[played + 1..]);
        assert inputs == inputs[..played] + [input] + inputs[played + 1..];
        assert inputs[..played + 1] == inputs[..played] + [input];
        played, ending := played + 1, r;
        return;
      }
      assert inputs[..played] == inputs;
    }
  }
}

/**
 * socket/external/engine/net_api/acceptor/multiplex_acceptor: the move-only acceptor whose two
 * parallel vectors are extended by a handler that holds references into them.
 */
module MultiplexAcceptor {
  import opened Bytes
  import opened Lists
  import opened Poll
  import opened Posix

  // ---- The early exit, on the entries alone ----

  /** The indices from i on whose revents is exactly POLLRDNORM, in order. */
  function ReadyFrom(entries: seq<PollFd>, i: nat): (r: seq<nat>)
    ensures forall a :: 0 <= a < |r| ==> i <= r[a] < |entries| && entries[r[a]].revents == POLLRDNORM
    ensures forall a, b :: 0 <= a < b < |r| ==> r[a] < r[b]
    ensures forall k :: i <= k < |entries| && entries[k].revents == POLLRDNORM ==> k in r
    decreases |entries| - i
  {
    if i >= |entries| then []
    else if entries[i].revents == POLLRDNORM then
      var rest := ReadyFrom(entries, i + 1);
      assert forall k :: k in [i] + rest <==> k == i || k in rest;
      [i] + rest
    else ReadyFrom(entries, i + 1)
  }

  /** Entries with some event, but not the one event the loop serves. */
  function CountOther(entries: seq<PollFd>): nat {
    if entries == [] then 0
    else (if entries[0].revents != 0 && entries[0].revents != POLLRDNORM then 1 else 0) + CountOther(entries[1..])
  }

  lemma {:induction false} ReadyShift(first: PollFd, entries: seq<PollFd>, i: nat)
    ensures |ReadyFrom([first] + entries, i + 1)| == |ReadyFrom(entries, i)|
    decreases |entries| - i
  {
    if i < |entries| {
      assert ([first] + entries)[i + 1] == entries[i];
      ReadyShift(first, entries, i + 1);
    }
  }

  /** The count `poll` returns pays for every entry the loop serves, and what is left over is the rest. */
  lemma {:induction false} CountCoversReady(entries: seq<PollFd>)
    ensures CountReady(entries) == |ReadyFrom(entries, 0)| + CountOther(entries)
  {
    if entries != [] {
      CountCoversReady(entries[1..]);
      ReadyShift(entries[0], entries[1..], 0);
      assert entries == [entries[0]] + entries[1..];
    }
  }

  /** What the loop dispatches when it starts with `count`: the first `count` ready entries. */
  function Dispatched(entries: seq<PollFd>, count: int): seq<nat> {
    var r := ReadyFrom(entries, 0);
    if count <= 0 then [] else if count <= |r| then r[..count] else r
  }

  /** The early exit loses nothing exactly when the count is at least the number of ready entries. */
  lemma EarlyExitLosslessIff(entries: seq<PollFd>, count: int)
    ensures var r := ReadyFrom(entries, 0);
            Dispatched(entries, count) == r <==> count >= |r| || r == []
  {
    var r := ReadyFrom(entries, 0);
    if count < |r| && r != [] {
      assert |Dispatched(entries, count)| < |r|;
    }
  }

  // ---- The objects ----

  /** The descriptor table all acceptors of the process share. */
  class Kernel {
    ghost const inherited: set<nat>
    ghost const base: nat
    ghost const failures: nat
    var fds: Descriptors

    /** Beside what it inherited, the process has exactly `held` open. */
    ghost predicate Holds(held: set<nat>)
      reads this
    {
      fds.Owned(inherited, held, base, failures) && base <= fds.serial
    }

    constructor (inheritedFds: Descriptors)
      requires inheritedFds.Accounted()
      ensures Holds({}) && fds == inheritedFds && inherited == inheritedFds.table.Keys
      ensures base == inheritedFds.serial && failures == inheritedFds.failures
    {
      fds := inheritedFds;
      inherited, base, failures := inheritedFds.table.Keys, inheritedFds.serial, inheritedFds.failures;
    }

    /** `socket` or `accept`. */
    method Open(ghost held: set<nat>) returns (fd: nat)
      requires Holds(held)
      modifies this`fds
      ensures Holds(held + {fd}) && fd !in held && fd !in inherited
      ensures fds == old(fds).Allocate().0 && fd == LowestUnused(old(fds).table.Keys)
    {
      AllocateOwned(fds, inherited, held, base, failures);
      var (table, fd') := fds.Allocate();
      fds, fd := table, fd';
    }
  }

  datatype Message = Message(fd: nat, data: seq<Byte>)

  /** The vector a client handler appends what it reads to. */
  class Inbox {
    var messages: seq<Message>

    constructor ()
      ensures messages == []
    {
      messages := [];
    }
  }

  /**
   * `std::function<bool(Socket &&)>`: the listener handler holds references to the two vectors of
   * one acceptor object and a copy of the client handler; a moved-from function is empty.
   */
  datatype Handler =
    | Listener(acceptor: Acceptor, inbox: Inbox)
    | Client(inbox: Inbox)
    | Empty

  /** A socket is a descriptor number; moving from it leaves -1, and its destructor does not close. */
  datatype Socket = Socket(fd: int)

  datatype TcpSession = TcpSession(socket: Socket, handler: Handler)

  /** The messages a round leaves in the inbox: one for each dispatched client, in dispatch order. */
  function Mail(entries: seq<PollFd>, indices: seq<nat>, data: nat -> seq<Byte>): seq<Message>
    requires forall a :: 0 <= a < |indices| ==> indices[a] < |entries|
  {
    if indices == [] then []
    else (if indices[0] == 0 then [] else [Message(entries[indices[0]].fd, data(entries[indices[0]].fd))])
         + Mail(entries, indices[1..], data)
  }

  lemma {:induction false} MailAppend(entries: seq<PollFd>, indices: seq<nat>, k: nat, data: nat -> seq<Byte>)
    requires (forall a :: 0 <= a < |indices| ==> indices[a] < |entries|) && k < |entries|
    ensures Mail(entries, indices + [k], data) == Mail(entries, indices, data) + Mail(entries, [k], data)
  {
    if indices == [] {
      assert indices + [k] == [k];
    } else {
      assert (indices + [k])[1..] == indices[1..] + [k];
      MailAppend(entries, indices[1..], k, data);
    }
  }

  class Acceptor {
    const kernel: Kernel
    var listenerSocket: Socket
    var clientPollFdSet: seq<PollFd>
    var tcpSessions: seq<TcpSession>
    var clientRequestHandler: Handler
    var listenerHandler: Handler

    /** The two vectors run in parallel: entry i polls the socket of session i, entry 0 is the listener. */
    ghost predicate Parallel()
      reads this
    {
      && |clientPollFdSet| == |tcpSessions| > 0
      && NoDup(Names(clientPollFdSet))
      && (forall i :: 0 <= i < |tcpSessions| ==> tcpSessions[i].socket.fd == clientPollFdSet[i].fd)
      && listenerSocket == tcpSessions[0].socket
    }

    /** Session 0 appends to this object's own vectors; every other session delivers to the client handler. */
    ghost predicate Bound()
      reads this
    {
      && clientRequestHandler.Client? && tcpSessions != []
      && listenerHandler == Listener(this, clientRequestHandler.inbox)
      && tcpSessions[0].handler == listenerHandler
      && (forall i :: 0 < i < |tcpSessions| ==> tcpSessions[i].handler == clientRequestHandler)
    }

    /** The descriptors this object polls. */
    ghost function Own(): set<nat>
      reads this
    {
      Elems(Names(clientPollFdSet))
    }

    ghost predicate Sound()
      reads this
    {
      clientRequestHandler.Client? && |clientPollFdSet| == |tcpSessions| > 0 && Parallel() && Bound()
    }

    lemma HasListener()
      requires Sound()
      ensures clientPollFdSet != [] && tcpSessions != []
    {
    }

    ghost predicate Valid()
      reads this, kernel
    {
      Sound() && kernel.Holds(Own())
    }

    /** What a moved-from acceptor has left. */
    ghost predicate Emptied()
      reads this
    {
      && clientPollFdSet == [] && tcpSessions == []
      && listenerSocket == Socket(-1) && clientRequestHandler == Empty
    }

    constructor (kernel: Kernel, listener: nat, inbox: Inbox)
      requires kernel.Holds({listener})
      ensures Valid() && this.kernel == kernel && clientRequestHandler == Client(inbox)
      ensures clientPollFdSet == [PollFd(listener, 0)]
    {
      this.kernel := kernel;
      listenerSocket := Socket(listener);
      clientRequestHandler := Client(inbox);
      clientPollFdSet, tcpSessions, listenerHandler := [], [], Empty;
      new;
      listenerHandler := Listener(this, inbox);
      clientPollFdSet := [PollFd(listener, 0)];
      tcpSessions := [TcpSession(Socket(listener), listenerHandler)];
      assert Names(clientPollFdSet) == [listener] && Elems([listener]) == {listener};
    }

    /** The move constructor: the vectors change owner and session 0 is bound to the new object. */
    constructor Move(other: Acceptor)
      requires other.Valid()
      modifies other
      ensures Valid() && other.Emptied()
      ensures kernel == other.kernel && clientRequestHandler == old(other.clientRequestHandler)
      ensures clientPollFdSet == old(other.clientPollFdSet)
      ensures listenerSocket == old(other.listenerSocket)
    {
      kernel := other.kernel;
      listenerSocket := other.listenerSocket;
      clientPollFdSet, tcpSessions := other.clientPollFdSet, other.tcpSessions;
      clientRequestHandler := other.clientRequestHandler;
      listenerHandler := Empty;
      new;
      other.listenerSocket, other.clientPollFdSet, other.tcpSessions := Socket(-1), [], [];
      other.clientRequestHandler := Empty;
      listenerHandler := Listener(this, clientRequestHandler.inbox);
      tcpSessions := tcpSessions[0 := tcpSessions[0].(handler := listenerHandler)];
    }

    /**
     * Move assignment binds the new `listenerHandler_` but leaves session 0 with the source's handler.
     * What the target polled before stays open, and neither object knows it any more.
     */
    method MoveAssign(other: Acceptor)
      requires other != this && other.Sound() && other.kernel == kernel
      requires kernel.Holds(Own() + other.Own()) && Own() !! other.Own()
      modifies this, other
      ensures forall fd <- old(Own()) :: fd in kernel.fds.table && fd !in Own() && fd !in other.Own()
      ensures other.Emptied() && Parallel()
      ensures clientRequestHandler == old(other.clientRequestHandler) && clientRequestHandler.Client?
      ensures clientPollFdSet == old(other.clientPollFdSet) && tcpSessions == old(other.tcpSessions)
      ensures tcpSessions[0].handler == Listener(other, clientRequestHandler.inbox)
      ensures listenerHandler == Listener(this, clientRequestHandler.inbox)
      ensures !Bound()
    {
      hide NoDup;
      StillOpen(other);
      listenerSocket := other.listenerSocket;
      clientPollFdSet, tcpSessions := other.clientPollFdSet, other.tcpSessions;
      clientRequestHandler := other.clientRequestHandler;
      other.listenerSocket, other.clientPollFdSet, other.tcpSessions := Socket(-1), [], [];
      other.clientRequestHandler := Empty;
      listenerHandler := Listener(this, clientRequestHandler.inbox);
    }

    lemma StillOpen(other: Acceptor)
      requires kernel.Holds(Own() + other.Own())
      ensures Own() <= kernel.fds.table.Keys
    {
    }

    ghost function Touched(h: Handler): set<object> {
      match h
      case Listener(a, _) => {a}
      case Client(inbox) => {inbox}
      case Empty => {}
    }

    /** `TcpSession::operator()`: run the handler of session i on its socket. */
    method Call(i: nat, data: nat -> seq<Byte>)
      requires i < |tcpSessions| && tcpSessions[i].socket.fd >= 0 && tcpSessions[i].handler != Empty
      modifies kernel`fds, Touched(tcpSessions[i].handler)
      ensures match old(tcpSessions[i].handler)
              case Listener(a, inbox) =>
                var (table, fd) := old(kernel.fds).Allocate();
                && kernel.fds == table
                && a.clientPollFdSet == old(a.clientPollFdSet) + [PollFd(fd, 0)]
                && a.tcpSessions == old(a.tcpSessions) + [TcpSession(Socket(fd), Client(inbox))]
                && unchanged(a`listenerSocket, a`clientRequestHandler, a`listenerHandler)
              case Client(inbox) =>
                var fd := old(tcpSessions[i].socket.fd);
                && kernel.fds == old(kernel.fds)
                && inbox.messages == old(inbox.messages) + [Message(fd, data(fd))]
              case Empty => true
    {
      match tcpSessions[i].handler {
        case Listener(a, inbox) =>
          var (table, fd) := kernel.fds.Allocate();
          kernel.fds := table;
          a.clientPollFdSet := a.clientPollFdSet + [PollFd(fd, 0)];
          a.tcpSessions := a.tcpSessions + [TcpSession(Socket(fd), Client(inbox))];
        case Client(inbox) =>
          var fd := tcpSessions[i].socket.fd;
          inbox.messages := inbox.messages + [Message(fd, data(fd))];
      }
    }

    /** `handleEvent`, for entry i. */
    method HandleEvent(i: nat, readyCount: int, data: nat -> seq<Byte>) returns (left: int)
      requires Valid() && i < |clientPollFdSet|
      modifies this, kernel`fds, clientRequestHandler.inbox
      ensures Valid() && unchanged(this`clientRequestHandler)
      ensures var entry, inbox := old(clientPollFdSet[i]), clientRequestHandler.inbox;
              if entry.revents != POLLRDNORM then
                && left == readyCount && unchanged(this) && unchanged(kernel`fds) && unchanged(inbox)
              else if i == 0 then
                && left == readyCount - 1 && unchanged(inbox)
                && clientPollFdSet == old(clientPollFdSet) + [PollFd(LowestUnused(old(kernel.fds).table.Keys), 0)]
                && kernel.fds == old(kernel.fds).Allocate().0
              else
                && left == readyCount - 1 && unchanged(this) && unchanged(kernel`fds)
                && inbox.messages == old(inbox.messages) + [Message(entry.fd, data(entry.fd))]
    {
      hide Descriptors.Owned;
      left := readyCount;
      if clientPollFdSet[i].revents == POLLRDNORM {
        ghost var held := Elems(Names(clientPollFdSet));
        AllocateOwned(kernel.fds, kernel.inherited, held, kernel.base, kernel.failures);
        var fd := LowestUnused(kernel.fds.table.Keys);
        Call(i, data);
        if i == 0 {
          assert Names(clientPollFdSet) == Names(old(clientPollFdSet)) + [fd];
          assert Elems(Names(clientPollFdSet)) == held + {fd};
          assert fd !in Names(old(clientPollFdSet));
        }
        left := left - 1;
      }
    }

    /** `getCountReadyTcpSessions`: the number of entries with any event. */
    method GetCountReadyTcpSessions(revents: nat -> int) returns (count: nat)
      requires Valid()
      modifies this`clientPollFdSet
      ensures Valid() && clientPollFdSet == Reported(old(clientPollFdSet), revents)
      ensures count == CountReady(clientPollFdSet)
    {
      hide Descriptors.Owned;
      clientPollFdSet := Reported(clientPollFdSet, revents);
      count := CountReady(clientPollFdSet);
    }

    /** `handleClientsSocket`: it stops as soon as the count is used up. */
    method HandleClientsSocket(readyCount: int, data: nat -> seq<Byte>) returns (left: int, dispatched: seq<nat>)
      requires Valid()
      modifies this, kernel`fds, clientRequestHandler.inbox
      ensures Valid() && unchanged(this`clientRequestHandler)
      ensures dispatched == Dispatched(old(clientPollFdSet), readyCount)
      ensures left == readyCount - |dispatched|
      ensures var accepts := 0 in dispatched;
              && clientPollFdSet == old(clientPollFdSet)
                 + (if accepts then [PollFd(LowestUnused(old(kernel.fds).table.Keys), 0)] else [])
              && kernel.fds == (if accepts then old(kernel.fds).Allocate().0 else old(kernel.fds))
      ensures clientRequestHandler.inbox.messages
              == old(clientRequestHandler.inbox.messages) + Mail(old(clientPollFdSet), dispatched, data)
    {
      hide Descriptors.Owned, Acceptor.Parallel, Acceptor.Bound, Reached, NoDup;
      left, dispatched := readyCount, [];
      var i := 0;
      ghost var entries, before, inbox := clientPollFdSet, kernel.fds, clientRequestHandler.inbox;
      ReachedStart(entries, before);
      while left > 0 && i < |tcpSessions|
        invariant Valid() && unchanged(this`clientRequestHandler)
        invariant Reached(entries, before, i, dispatched, clientPollFdSet, kernel.fds)
        invariant left == readyCount - |dispatched| && (left >= 0 || dispatched == [])
        invariant DispatchedWithin(dispatched, |entries|)
        invariant inbox.messages == old(inbox.messages) + Mail(entries, dispatched, data)
        decreases |entries| + 1 - i
      {
        ReachedStep(entries, before, i, dispatched, clientPollFdSet, kernel.fds);
        var ready := clientPollFdSet[i].revents == POLLRDNORM;
        left := HandleEvent(i, left, data);
        if ready {
          MailAppend(entries, dispatched, i, data);
          dispatched := dispatched + [i];
        }
        i := i + 1;
      }
      ReachedEnd(entries, before, i, dispatched, clientPollFdSet, kernel.fds, readyCount);
    }

    /**
     * One turn of `pollingLoop`: every session that `poll` reports as readable is dispatched, once
     * and in order, and the count left over is the number of entries reported otherwise.
     */
    method PollRound(revents: nat -> int, data: nat -> seq<Byte>) returns (left: int, dispatched: seq<nat>)
      requires Valid()
      modifies this, kernel`fds, clientRequestHandler.inbox
      ensures Valid() && unchanged(this`clientRequestHandler)
      ensures var entries := Reported(old(clientPollFdSet), revents);
              && dispatched == ReadyFrom(entries, 0) && left == CountOther(entries)
              && clientPollFdSet == entries
                 + (if 0 in dispatched then [PollFd(LowestUnused(old(kernel.fds).table.Keys), 0)] else [])
              && kernel.fds == (if 0 in dispatched then old(kernel.fds).Allocate().0 else old(kernel.fds))
              && clientRequestHandler.inbox.messages
                 == old(clientRequestHandler.inbox.messages) + Mail(entries, dispatched, data)
    {
      hide Descriptors.Owned, Acceptor.Bound, NoDup;
      var count := GetCountReadyTcpSessions(revents);
      CountCoversReady(clientPollFdSet);
      EarlyExitLosslessIff(clientPollFdSet, count);
      left, dispatched := HandleClientsSocket(count, data);
    }

    /** The destructor: `Socket::close` skips descriptors that are not positive. */
    method Destroy()
      requires forall s <- tcpSessions :: s.socket.fd >= 0
      modifies this`clientPollFdSet, this`tcpSessions, kernel`fds
      ensures clientPollFdSet == [] && tcpSessions == []
      ensures kernel.fds == CloseAll(old(kernel.fds), Closable(old(tcpSessions)))
    {
      assert tcpSessions[0..] == tcpSessions;
      for i := 0 to |tcpSessions|
        invariant tcpSessions == old(tcpSessions)
        invariant CloseAll(old(kernel.fds), Closable(tcpSessions)) == CloseAll(kernel.fds, Closable(tcpSessions[i..]))
      {
        var fd := tcpSessions[i].socket.fd;
        assert tcpSessions[i] in tcpSessions;
        assert tcpSessions[i..][1..] == tcpSessions[i + 1..];
        ghost var rest := Closable(tcpSessions[i + 1..]);
        if fd > 0 {
          assert Closable(tcpSessions[i..]) == [fd] + rest && ([fd] + rest)[1..] == rest;
          kernel.fds := kernel.fds.Close(fd);
        } else {
          assert Closable(tcpSessions[i..]) == [] + rest == rest;
        }
      }
      clientPollFdSet, tcpSessions := [], [];
    }

    /** Destroying an acceptor closes each of its descriptors except number 0, and no others. */
    lemma DestroyReleases(others: set<nat>)
      requires Parallel() && kernel.Holds(others + Own()) && others !! Own()
      ensures forall s <- tcpSessions :: s.socket.fd >= 0
      ensures var after := CloseAll(kernel.fds, Closable(tcpSessions));
              && after.Owned(kernel.inherited, others + Own() * {0}, kernel.base, kernel.failures)
              && after.serial == kernel.fds.serial
              && (0 in kernel.fds.table ==> 0 in after.table && after.table[0] == kernel.fds.table[0])
    {
      hide Descriptors.Owned;
      var names := Names(clientPollFdSet);
      ClosableAll(tcpSessions, names);
      assert Elems(Closable(tcpSessions)) <= Elems(names);
      CloseAllOwned(kernel.fds, kernel.inherited, others + Elems(names), kernel.base, kernel.failures,
        Closable(tcpSessions));
      assert Elems(Closable(tcpSessions)) == Elems(names) - {0};
      assert others + Elems(names) - (Elems(names) - {0}) == others + Elems(names) * {0};
      if 0 in kernel.fds.table {
        CloseAllSpares(kernel.fds, Closable(tcpSessions), 0);
      }
    }
  }

  /** The descriptors `Socket::close` really closes, in session order. */
  function Closable(sessions: seq<TcpSession>): seq<nat> {
    if sessions == [] then []
    else (if sessions[0].socket.fd > 0 then [sessions[0].socket.fd] else []) + Closable(sessions[1..])
  }

  lemma {:induction false} ClosableAll(sessions: seq<TcpSession>, names: seq<nat>)
    requires |sessions| == |names| && NoDup(names)
    requires forall i :: 0 <= i < |names| ==> sessions[i].socket.fd == names[i]
    ensures NoDup(Closable(sessions))
    ensures forall x :: x in Closable(sessions) <==> x in names && x > 0
  {
    if names != [] {
      var rest := Closable(sessions[1..]);
      ClosableAll(sessions[1..], names[1..]);
      assert forall x :: x in names <==> x == names[0] || x in names[1..];
      assert names[0] !in names[1..];
      if names[0] > 0 {
        assert Closable(sessions) == [names[0]] + rest;
        assert forall i :: 0 <= i < |rest| ==> rest[i] in names[1..];
      } else {
        assert Closable(sessions) == [] + rest == rest;
      }
    }
  }

  // ---- The loop's progress through the entries it started with ----

  ghost predicate DispatchedWithin(dispatched: seq<nat>, n: nat) {
    forall a :: 0 <= a < |dispatched| ==> dispatched[a] < n
  }

  /** Entries before i have been looked at; a connection accepted on the way is at the end of `now`. */
  ghost predicate Reached(entries: seq<PollFd>, before: Descriptors, i: nat, dispatched: seq<nat>, now: seq<PollFd>,
      fds: Descriptors) {
    && ReadyFrom(entries, 0) == dispatched + ReadyFrom(entries, i)
    && entries != [] && i <= |now| && (i == 0 ==> dispatched == [])
    && now == entries + (if 0 in dispatched then [PollFd(LowestUnused(before.table.Keys), 0)] else [])
    && fds == if 0 in dispatched then before.Allocate().0 else before
  }

  lemma ReachedStart(entries: seq<PollFd>, before: Descriptors)
    requires entries != []
    ensures Reached(entries, before, 0, [], entries, before)
  {
    assert [] + ReadyFrom(entries, 0) == ReadyFrom(entries, 0);
  }

  lemma ReachedQuiet(entries: seq<PollFd>, before: Descriptors, i: nat, dispatched: seq<nat>, now: seq<PollFd>,
      fds: Descriptors)
    requires Reached(entries, before, i, dispatched, now, fds) && i < |now|
    requires now[i].revents != POLLRDNORM
    ensures i <= |entries| && Reached(entries, before, i + 1, dispatched, now, fds)
  {
    if i < |entries| {
      assert now[i] == entries[i];
    }
  }

  /** A ready entry is one of those the loop started with. */
  lemma ReachedReady(entries: seq<PollFd>, before: Descriptors, i: nat, dispatched: seq<nat>, now: seq<PollFd>,
      fds: Descriptors)
    requires Reached(entries, before, i, dispatched, now, fds) && i < |now|
    requires now[i].revents == POLLRDNORM
    ensures i < |entries| && now[i] == entries[i]
    ensures ReadyFrom(entries, 0) == (dispatched + [i]) + ReadyFrom(entries, i + 1)
  {
    if i < |entries| {
      assert now[i] == entries[i];
      assert dispatched + ([i] + ReadyFrom(entries, i + 1)) == (dispatched + [i]) + ReadyFrom(entries, i + 1);
    }
  }

  lemma ReachedStep(entries: seq<PollFd>, before: Descriptors, i: nat, dispatched: seq<nat>, now: seq<PollFd>,
      fds: Descriptors)
    requires Reached(entries, before, i, dispatched, now, fds) && i < |now|
    ensures i <= |entries|
    ensures now[i].revents == POLLRDNORM ==>
      && i < |entries| && now[i] == entries[i]
      && if i == 0
         then Reached(entries, before, 1, dispatched + [0], now + [PollFd(LowestUnused(fds.table.Keys), 0)],
           fds.Allocate().0)
         else Reached(entries, before, i + 1, dispatched + [i], now, fds)
    ensures now[i].revents != POLLRDNORM ==> Reached(entries, before, i + 1, dispatched, now, fds)
  {
    if now[i].revents != POLLRDNORM {
      ReachedQuiet(entries, before, i, dispatched, now, fds);
    } else {
      ReachedReady(entries, before, i, dispatched, now, fds);
      assert 0 in dispatched + [i] <==> 0 in dispatched || i == 0;
      if i == 0 {
        assert dispatched == [] && now == entries && fds == before;
      }
    }
  }

  lemma ReachedEnd(entries: seq<PollFd>, before: Descriptors, i: nat, dispatched: seq<nat>, now: seq<PollFd>,
      fds: Descriptors, count: int)
    requires Reached(entries, before, i, dispatched, now, fds)
    requires count <= |dispatched| || i >= |now|
    requires count >= |dispatched| || dispatched == []
    ensures dispatched == Dispatched(entries, count)
    ensures now == entries + (if 0 in dispatched then [PollFd(LowestUnused(before.table.Keys), 0)] else [])
    ensures fds == if 0 in dispatched then before.Allocate().0 else before
  {
    if i >= |now| {
      assert ReadyFrom(entries, i) == [];
    }
  }

  // ---- Whole lives ----

  /**
   * Why moving is claimed for construction only: after `a = std::move(b)` the next connection
   * accepted through a is appended to the moved-from b, and a never polls it.
   */
  method AcceptAfterAssign(a: Acceptor, b: Acceptor, data: nat -> seq<Byte>)
    requires a != b && b.Sound() && a.kernel == b.kernel
    requires a.kernel.Holds(a.Own() + b.Own()) && a.Own() !! b.Own()
    modifies a, b, a.kernel`fds
    ensures a.clientPollFdSet == old(b.clientPollFdSet) && a.tcpSessions == old(b.tcpSessions)
    ensures b.clientPollFdSet == [PollFd(LowestUnused(old(a.kernel.fds).table.Keys), 0)]
    ensures a.kernel.fds == old(a.kernel.fds).Allocate().0
  {
    a.MoveAssign(b);
    a.Call(0, data);
  }

  /** Once both objects are destroyed, what the target of a move assignment polled before is still open. */
  method AssignLeaks(a: Acceptor, b: Acceptor)
    requires a != b && b.Sound() && a.kernel == b.kernel
    requires a.kernel.Holds(a.Own() + b.Own()) && a.Own() !! b.Own()
    modifies a, b, a.kernel`fds
    ensures a.kernel.Holds(old(a.Own()) + old(b.Own()) * {0})
  {
    hide Descriptors.Owned, NoDup;
    ghost var lost := a.Own();
    a.MoveAssign(b);
    assert a.Own() == old(b.Own());
    b.Destroy();
    a.DestroyReleases(lost);
    a.Destroy();
  }

  datatype Action = PollOnce(revents: nat -> int, data: nat -> seq<Byte>) | MoveOn

  /** How many of the polls report a connection at the listener, and nothing else there. */
  function Accepts(actions: seq<Action>, listener: nat): nat {
    if actions == [] then 0
    else
      Accepts(actions[..|actions| - 1], listener) + if AcceptsNow(actions[|actions| - 1], listener) then 1 else 0
  }

  predicate AcceptsNow(action: Action, listener: nat) {
    action.PollOnce? && action.revents(listener) == POLLRDNORM
  }

  /** At most one more descriptor is open, and fd stands for the same file as before. */
  ghost predicate Grown(before: Descriptors, after: Descriptors, fd: nat, more: bool) {
    && after.serial == before.serial + (if more then 1 else 0)
    && (fd in before.table ==> fd in after.table && after.table[fd] == before.table[fd])
  }

  lemma AtMostZeroIsLeft(kernel: Kernel, rest: set<nat>)
    requires kernel.Holds(rest) && rest == if 0 in kernel.inherited then {} else {0}
    ensures kernel.fds.failures == kernel.failures && kernel.fds.table.Keys == kernel.inherited + {0}
    ensures forall s: nat :: kernel.base <= s < kernel.fds.serial ==>
              multiset(kernel.fds.closed)[s] == if 0 !in kernel.inherited && kernel.fds.table[0] == s then 0 else 1
  {
    HeldOrClosedOnce(kernel.fds, kernel.inherited, rest, kernel.base, kernel.failures);
    forall s: nat | 0 !in kernel.inherited && kernel.fds.table[0] == s
      ensures kernel.fds.Holds(rest, s)
    {
      assert 0 in rest;
    }
  }

  /**
   * Any sequence of polls and move constructions, after which all the objects are destroyed, in
   * any order: the listener and every accepted descriptor have been closed exactly once. The
   * exception is a listener that got number 0, which the destructor takes for closed: that one,
   * the first descriptor opened, stays open.
   */
  method Lifetime(inheritedFds: Descriptors, actions: seq<Action>) returns (kernel: Kernel)
    requires inheritedFds.Accounted()
    ensures kernel.fds.failures == inheritedFds.failures
    ensures kernel.fds.table.Keys == inheritedFds.table.Keys + {0}
    ensures kernel.fds.serial == inheritedFds.serial + 1 + Accepts(actions, LowestUnused(inheritedFds.table.Keys))
    ensures forall s: nat :: inheritedFds.serial <= s < kernel.fds.serial ==>
              multiset(kernel.fds.closed)[s] == if 0 !in inheritedFds.table && s == inheritedFds.serial then 0 else 1
  {
    hide Descriptors.Owned, NoDup, Acceptor.Parallel, Acceptor.Bound, AcceptsNow;
    kernel := new Kernel(inheritedFds);
    var listener := kernel.Open({});
    assert {} + {listener} == {listener};
    var inbox := new Inbox();
    var current := new Acceptor(kernel, listener, inbox);
    var husks: set<Acceptor> := {};
    for i := 0 to |actions|
      invariant fresh(kernel) && fresh(inbox) && fresh(current) && current !in husks
      invariant current.Valid() && current.kernel == kernel && current.clientRequestHandler == Client(inbox)
      invariant current.clientPollFdSet[0].fd == listener
      invariant forall h <- husks :: fresh(h) && h.tcpSessions == [] && h.kernel == kernel
      invariant listener in kernel.fds.table && kernel.fds.table[listener] == inheritedFds.serial
      invariant kernel.fds.serial == inheritedFds.serial + 1 + Accepts(actions[..i], listener)
    {
      assert actions[..i + 1][..i] == actions[..i];
      var next := Act(current, actions[i]);
      husks, current := if actions[i].MoveOn? then husks + {current} else husks, next;
    }
    assert actions[..|actions|] == actions;
    ghost var rest := current.Own() * {0};
    LeftOver(current, rest, listener);
    DestroyAll(kernel, husks + {current}, current);
    AtMostZeroIsLeft(kernel, rest);
  }

  /** One action; the object that goes on is the same after a poll and a new one after a move. */
  method Act(current: Acceptor, action: Action) returns (next: Acceptor)
    requires current.Valid()
    modifies current, current.kernel`fds, current.clientRequestHandler.inbox
    ensures next.Valid() && next.kernel == current.kernel
            && next.clientRequestHandler == old(current.clientRequestHandler)
    ensures if action.MoveOn? then fresh(next) && current.tcpSessions == [] else next == current
    ensures next.clientPollFdSet[0].fd == old(current.clientPollFdSet[0].fd)
    ensures var listener := old(current.clientPollFdSet[0].fd);
            Grown(old(current.kernel.fds), current.kernel.fds, listener, AcceptsNow(action, listener))
  {
    hide Descriptors.Owned, NoDup, Acceptor.Parallel, Acceptor.Bound, Acceptor.Sound;
    current.HasListener();
    if action.MoveOn? {
      next := new Acceptor.Move(current);
    } else {
      next := current;
      ListenerFirst(Reported(current.clientPollFdSet, action.revents));
      var left, dispatched := current.PollRound(action.revents, action.data);
    }
  }

  lemma ListenerFirst(entries: seq<PollFd>)
    requires entries != []
    ensures 0 in ReadyFrom(entries, 0) <==> entries[0].revents == POLLRDNORM
  {
  }

  /** Number 0 is the listener's, or was there before. */
  lemma LeftOver(current: Acceptor, rest: set<nat>, listener: nat)
    requires current.Valid() && rest == current.Own() * {0} && current.clientPollFdSet[0].fd == listener
    requires listener == LowestUnused(current.kernel.inherited)
    ensures rest == if 0 in current.kernel.inherited then {} else {0}
    ensures 0 !in current.kernel.inherited ==> listener == 0
  {
    assert Names(current.clientPollFdSet)[0] == listener;
    assert listener in current.Own();
  }

  /** Of a set of acceptors only `last` still owns anything; the order of destruction does not matter. */
  method DestroyAll(kernel: Kernel, acceptors: set<Acceptor>, ghost last: Acceptor)
    requires last in acceptors && last.Valid()
    requires forall a <- acceptors :: a.kernel == kernel && (a != last ==> a.tcpSessions == [])
    modifies acceptors, kernel`fds
    ensures kernel.Holds(old(last.Own()) * {0}) && kernel.fds.serial == old(kernel.fds.serial)
    ensures 0 in old(kernel.fds.table) ==> 0 in kernel.fds.table && kernel.fds.table[0] == old(kernel.fds.table[0])
  {
    hide Descriptors.Owned, NoDup;
    ghost var rest := last.Own() * {0};
    var alive := acceptors;
    while alive != {}
      invariant alive <= acceptors
      invariant forall a <- alive :: a != last ==> a.tcpSessions == []
      invariant last in alive ==> last.Valid() && last.Own() * {0} == rest
      invariant last !in alive ==> kernel.Holds(rest)
      invariant kernel.fds.serial == old(kernel.fds.serial)
      invariant 0 in old(kernel.fds.table) ==> 0 in kernel.fds.table && kernel.fds.table[0] == old(kernel.fds.table[0])
      decreases alive
    {
      var a :| a in alive;
      if a == last {
        assert {} + a.Own() == a.Own() && {} + rest == rest;
        a.DestroyReleases({});
      }
      a.Destroy();
      alive := alive - {a};
    }
  }
}

/** socket/servers/multiplex_server_use_poll/main.cpp: the echo server built on `poll`. */
module PollServer {
  import opened Bytes
  import opened Lists
  import opened Poll
  import opened Posix
  import opened ReadinessScan
  import opened ServerRuns

  datatype Input = Input(pollOk: bool, revents: nat -> int, acceptOk: bool, reply: nat -> Reply)

  /** What an input offers to the loop; the listener stays in the vector whatever happens. */
  function OfferOf(input: Input): Offer {
    Offer(input.pollOk, (fd: nat) => input.revents(fd) == POLLRDNORM, input.acceptOk, input.reply, true)
  }

  function Offers(inputs: seq<Input>): (r: seq<Offer>)
    ensures |r| == |inputs|
    ensures forall k :: 0 <= k < |r| ==> r[k] == OfferOf(inputs[k])
  {
    seq(|inputs|, k requires 0 <= k < |inputs| => OfferOf(inputs[k]))
  }

  function ReadySet(names: seq<nat>, revents: nat -> int): set<nat> {
    set fd | fd in names && revents(fd) == POLLRDNORM
  }

  /** Entries as `poll` and `accept` leave them: reported clients carry the event, newcomers carry none. */
  ghost predicate Marked(entries: seq<PollFd>, ready: set<nat>) {
    forall e <- entries :: e.revents == POLLRDNORM <==> e.fd in ready
  }

  class Server {
    const listenfd: nat
    ghost const inherited: set<nat>
    ghost const base: nat
    ghost const failures: nat

    var clients: seq<PollFd>
    var isRunning: bool
    var exited: bool
    var fds: Descriptors

    ghost predicate Valid()
      reads this
    {
      && clients != [] && clients[0].fd == listenfd
      && NoDup(Names(clients))
      && fds.Owned(inherited, Elems(Names(clients)), base, failures) && base <= fds.serial
    }

    ghost function Host(): Host {
      ServerRuns.Host(inherited, listenfd)
    }

    /** The connected clients, in order: entry 0 is the listener. */
    function Connected(): seq<nat>
      reads this
      requires clients != []
    {
      Names(clients)[1..]
    }

    constructor (inheritedFds: Descriptors)
      requires inheritedFds.Accounted()
      ensures Valid() && Connected() == [] && isRunning && !exited
      ensures inherited == inheritedFds.table.Keys && base == inheritedFds.serial
      ensures failures == inheritedFds.failures && listenfd == LowestUnused(inherited)
      ensures fds.serial == inheritedFds.serial + 1
    {
      var (table, fd) := inheritedFds.Allocate();
      AllocateOwned(inheritedFds, inheritedFds.table.Keys, {}, inheritedFds.serial, inheritedFds.failures);
      listenfd, fds := fd, table;
      inherited, base, failures := inheritedFds.table.Keys, inheritedFds.serial, inheritedFds.failures;
      clients := [PollFd(fd, 0)];
      isRunning, exited := true, false;
      new;
      assert Names(clients) == [fd] && Elems([fd]) == {fd};
    }

    /** The end-of-stream branch of `handleRequest`, for the entry found at index k. */
    method Disconnect(k: nat)
      requires Valid() && 0 < k < |clients|
      modifies this`clients, this`fds
      ensures Valid() && clients == EraseAt(old(clients), k)
      ensures Connected() == EraseAt(old(Connected()), k - 1)
      ensures fds == old(fds).Close(old(clients)[k].fd) && fds.serial == old(fds.serial)
    {
      hide Descriptors.Owned;
      var sockfd := clients[k].fd;
      ErasePreservesNoDup(Names(clients), k);
      CloseOwned(fds, inherited, Elems(Names(clients)), base, failures, sockfd);
      assert Names(EraseAt(clients, k)) == EraseAt(Names(clients), k);
      assert EraseAt(Names(clients), k)[1..] == EraseAt(Names(clients)[1..], k - 1);
      clients := EraseAt(clients, k);
      fds := fds.Close(sockfd);
    }

    method HandleRequest(sockfd: nat, reply: Reply) returns (served: seq<Event>)
      requires Valid() && !exited && sockfd != listenfd
      modifies this`clients, this`isRunning, this`exited, this`fds
      ensures Valid() && fds.serial == old(fds.serial)
      ensures Responds(sockfd, reply, sockfd in Names(old(clients)), served, exited)
      ensures var k := IndexOf(Names(old(clients)), sockfd);
              match Handle(sockfd, reply)
              case Exit => exited && served == [] && clients == old(clients) && isRunning == old(isRunning)
              case Serve(e) =>
                if e.Departed? && k == |old(clients)|
                then exited && served == [] && clients == old(clients) && isRunning == old(isRunning)
                else
                  && !exited && served == [e]
                  && clients == (if e.Departed? then EraseAt(old(clients), k) else old(clients))
                  && Connected() == (if e.Departed? then EraseAt(old(Connected()), k - 1) else old(Connected()))
                  && isRunning == (old(isRunning) && !e.StopRequested?)
    {
      hide Descriptors.Owned, Fatal, Answers, Handle;
      HandleMeans(sockfd, reply);
      served := [];
      match Handle(sockfd, reply) {
        case Exit =>
          exited := true;
        case Serve(e) =>
          if e.Departed? {
            var k := IndexOf(Names(clients), sockfd);
            if k == |clients| {
              exited := true;
              return;
            }
            Disconnect(k);
          } else if e.StopRequested? {
            isRunning := false;
          }
          served := [e];
      }
    }

    /** The body of the inner loop at entry i. */
    method ServeAt(i: nat, ghost all: seq<nat>, ghost ready: set<nat>, ghost events: seq<Event>, reply: nat -> Reply)
        returns (served: seq<Event>)
      requires Valid() && !exited && 1 <= i < |clients| && Marked(clients[1..], ready)
      requires Progress(all, ready, reply, Connected(), i - 1, events)
      modifies this`clients, this`isRunning, this`exited, this`fds
      ensures Valid() && isRunning == (old(isRunning) && !Stops(served)) && fds.serial == old(fds.serial)
      ensures |clients| <= old(|clients|) && Marked(clients[1..], ready)
      ensures exited ==> served == [] && Scan(all, ready, reply) == Outcome(Connected(), events, true)
      ensures !exited ==> Progress(all, ready, reply, Connected(), i, events + served)
    {
      hide Descriptors.Owned, Progress, Scan, Marked, Responds, Fatal, Answers;
      served := [];
      MarkedAt(clients, i, ready);
      var sockfd := clients[i].fd;
      if clients[i].revents == POLLRDNORM {
        assert IndexOf(Names(clients), sockfd) == i;
        served := HandleRequest(sockfd, reply(sockfd));
        if exited {
          ProgressExits(all, ready, reply, Connected(), i - 1, events);
        } else if served[0].Departed? {
          ProgressErases(all, ready, reply, old(Connected()), i - 1, events);
          MarkedAfterErase(old(clients), i, ready);
        } else {
          ProgressStays(all, ready, reply, Connected(), i - 1, events, served);
        }
      } else {
        ProgressStays(all, ready, reply, Connected(), i - 1, events, []);
      }
    }

    /** The inner loop: from entry 1 on, it indexes the vector that `handleRequest` erases from. */
    method ServeReady(ghost ready: set<nat>, reply: nat -> Reply) returns (events: seq<Event>)
      requires Valid() && isRunning && !exited && Marked(clients[1..], ready)
      modifies this`clients, this`isRunning, this`exited, this`fds
      ensures Valid() && fds.serial == old(fds.serial)
      ensures Scan(old(Connected()), ready, reply) == Outcome(Connected(), events, exited)
      ensures isRunning == !Stops(events)
    {
      hide Descriptors.Owned, Progress, Scan, Marked;
      events := [];
      var i := 1;
      ghost var all := Connected();
      ProgressStart(all, ready, reply);
      while i < |clients|
        invariant 1 <= i && Valid() && !exited && isRunning == !Stops(events) && fds.serial == old(fds.serial)
        invariant Marked(clients[1..], ready)
        invariant Progress(all, ready, reply, Connected(), i - 1, events)
        decreases |clients| - i
      {
        var served := ServeAt(i, all, ready, events, reply);
        if exited {
          return;
        }
        StopsAppend(events, served);
        events, i := events + served, i + 1;
      }
      ProgressEnds(all, ready, reply, Connected(), i - 1, events);
    }

    /** `poll` writes every entry's revents and returns how many are not zero. */
    method Poll(revents: nat -> int) returns (nready: nat)
      requires Valid()
      modifies this`clients
      ensures Valid() && Connected() == old(Connected())
      ensures Marked(clients[1..], ReadySet(Connected(), revents))
      ensures clients[0].revents == revents(listenfd)
      ensures nready == CountReady(clients)
    {
      hide Descriptors.Owned;
      ghost var names := Names(clients);
      clients := Reported(clients, revents);
      assert Names(clients) == names;
      forall e | e in clients[1..]
        ensures e.fd in Connected() && e.revents == revents(e.fd)
      {
        var k :| 0 <= k < |clients[1..]| && clients[1..][k] == e;
        assert Connected()[k] == e.fd;
      }
      nready := CountReady(clients);
    }

    method AcceptConnection(ghost ready: set<nat>) returns (connfd: nat)
      requires Valid() && Marked(clients[1..], ready) && ready <= Elems(Connected())
      modifies this`clients, this`fds
      ensures Valid() && Marked(clients[1..], ready)
      ensures connfd == LowestUnused(old(fds).table.Keys) && connfd !in ready
      ensures Connected() == old(Connected()) + [connfd]
      ensures clients == old(clients) + [PollFd(connfd, 0)] && fds.serial == old(fds.serial) + 1
    {
      hide Descriptors.Owned;
      AllocateOwned(fds, inherited, Elems(Names(clients)), base, failures);
      var (table, fd) := fds.Allocate();
      assert fd !in Names(clients) by {
        assert forall x <- Names(clients) :: x in Elems(Names(clients));
      }
      assert Connected() <= Names(clients)[1..];
      fds, connfd := table, fd;
      clients := clients + [PollFd(connfd, 0)];
      assert Names(clients) == Names(old(clients)) + [connfd];
      assert clients[1..] == old(clients)[1..] + [PollFd(connfd, 0)];
      assert Elems(Names(clients)) == Elems(Names(old(clients))) + {connfd};
      assert forall x <- old(Connected()) :: x in Names(old(clients));
    }

    /** One iteration of the main loop, fast path included. `ok` is false when poll or accept failed. */
    method Round(input: Input) returns (ok: bool, turn: Turn, events: seq<Event>)
      requires Valid() && isRunning && !exited
      modifies this
      ensures Valid()
      ensures ok == (input.pollOk && (input.revents(listenfd) == POLLRDNORM ==> input.acceptOk))
      ensures var offered := TurnOf(Host(), old(Connected()), false, OfferOf(input));
              ok == offered.Some? && (ok ==> turn == offered.value)
      ensures !ok ==> exited && isRunning && Connected() == old(Connected()) && fds == old(fds)
      ensures ok ==>
        && Scan(old(Connected()) + turn.arrivals, turn.ready, turn.reply) == Outcome(Connected(), events, exited)
        && isRunning == !Stops(events)
        && fds.serial == old(fds.serial) + |turn.arrivals|
    {
      hide Descriptors.Owned, Scan, Marked, TurnOf;
      ghost var known := Connected();
      ghost var ready := ReadySet(known, input.revents);
      Heard(input);
      ok, turn, events := false, Turn({}, [], input.reply), [];
      if !input.pollOk {
        exited := true;
        return;
      }
      var nready := Poll(input.revents);
      turn := turn.(ready := ReadySet(Connected(), input.revents));
      if clients[0].revents == POLLRDNORM {
        if !input.acceptOk {
          exited := true;
          return;
        }
        ghost var polled := clients;
        var connfd := AcceptConnection(ready);
        turn := turn.(arrivals := [connfd]);
        if nready < 2 {
          FastPathLosesNothing(polled, connfd, ready, input.reply);
          ok := true;
          return;
        }
      }
      assert Connected() == known + turn.arrivals;
      events := ServeReady(ready, input.reply);
      ok := true;
    }

    /** The turn an input calls for. */
    lemma Heard(input: Input)
      requires Valid()
      ensures var turn := TurnOf(Host(), Connected(), false, OfferOf(input));
              var ready := ReadySet(Connected(), input.revents);
              && (!input.pollOk ==> turn.None?)
              && (input.pollOk && input.revents(listenfd) != POLLRDNORM ==> turn == Some(Turn(ready, [], input.reply)))
              && (input.pollOk && input.revents(listenfd) == POLLRDNORM ==>
                    turn == if input.acceptOk then Some(Turn(ready, [LowestUnused(fds.table.Keys)], input.reply))
                      else None)
    {
      var names := Names(clients);
      assert names == [listenfd] + Connected();
      assert forall x :: x in names <==> x == listenfd || x in Connected();
      assert fds.table.Keys == inherited + {listenfd} + Elems(Connected());
      assert ReadyClients(Connected(), OfferOf(input)) == ReadySet(Connected(), input.revents);
    }

    /** The fast path: when the listener is the only ready entry, the skipped scan would serve nobody. */
    lemma FastPathLosesNothing(polled: seq<PollFd>, connfd: nat, ready: set<nat>, reply: nat -> Reply)
      requires polled != [] && polled[0].revents == POLLRDNORM && CountReady(polled) < 2
      requires Marked(polled[1..], ready) && connfd !in ready
      ensures var names := Names(polled)[1..] + [connfd];
              Scan(names, ready, reply) == Outcome(names, [], false)
    {
      CountZero(polled[1..]);
      forall k | 0 <= k < |polled| - 1
        ensures Names(polled)[1..][k] !in ready
      {
        assert polled[1..][k] in polled[1..];
      }
      IdleScan(Names(polled)[1..] + [connfd], ready, reply);
    }

    /**
     * The main loop, over the environment's inputs: it plays the run they determine, and ends early
     * only at a "stop" or by leaving the process.
     */
    method Serve(inputs: seq<Input>) returns (turns: seq<Turn>, log: seq<Outcome>)
      requires Valid() && isRunning && !exited
      modifies this
      ensures Valid() && Connected() == ListAt(old(Connected()), log, |log|)
      ensures turns == Run(Host(), old(Connected()), false, Offers(inputs))
      ensures log == Play(old(Connected()), turns) && |log| == |turns|
      ensures !isRunning <==> log != [] && Stops(log[|log| - 1].events)
      ensures exited <==> (log != [] && log[|log| - 1].exited) || (isRunning && |turns| < |inputs|)
      ensures fds.serial == old(fds.serial) + Arrivals(turns)
    {
      hide Descriptors.Owned, Run, TurnOf, RunSoFar, Play, Scan, Stops, Arrivals;
      turns, log := [], [];
      ghost var first, offers := Connected(), Offers(inputs);
      RunStarts(Host(), first, false, offers);
      while isRunning && !exited && |turns| < |inputs|
        invariant Valid() && |log| == |turns| <= |inputs|
        invariant RunSoFar(Host(), first, false, offers, turns, log, Connected(), false)
        invariant exited <==> log != [] && log[|log| - 1].exited
        invariant !isRunning <==> log != [] && Stops(log[|log| - 1].events)
        invariant fds.serial == old(fds.serial) + Arrivals(turns)
        decreases |inputs| - |turns|, !exited
      {
        ghost var before := Connected();
        var ok, turn, events := Round(inputs[|turns|]);
        if !ok {
          break;
        }
        var outcome := Outcome(Connected(), events, exited);
        RunGoesOn(Host(), first, false, offers, turns, log, before, false, turn, outcome);
        turns, log := turns + [turn], log + [outcome];
      }
      RunEnds(Host(), first, false, offers, turns, log, Connected(), false);
      RunFacts(Host(), first, false, offers, turns, log, Connected(), false);
    }

    /** `CloseOpeningFileDescriptors`: the listener and every client, none of the closes failing. */
    method Shutdown()
      requires Valid()
      modifies this`clients, this`fds
      ensures fds.Owned(inherited, {}, base, failures) && fds.serial == old(fds.serial)
      ensures clients == []
    {
      var names := Names(clients);
      for i := 0 to |clients|
        invariant clients == old(clients) && fds == CloseAll(old(fds), names[..i])
      {
        CloseAllAppend(old(fds), names[..i], names[i]);
        assert names[..i + 1] == names[..i] + [names[i]];
        fds := fds.Close(clients[i].fd);
      }
      assert names[..|names|] == names;
      CloseAllOwned(old(fds), inherited, Elems(names), base, failures, names);
      assert Elems(names) - Elems(names) == {};
      clients := [];
    }
  }

  lemma MarkedAt(entries: seq<PollFd>, k: nat, ready: set<nat>)
    requires 0 < k < |entries| && Marked(entries[1..], ready)
    ensures entries[k].revents == POLLRDNORM <==> Names(entries)[1..][k - 1] in ready
    ensures Names(entries)[1..][k - 1] == entries[k].fd
  {
    assert entries[k] == entries[1..][k - 1];
  }

  lemma MarkedAfterErase(entries: seq<PollFd>, k: nat, ready: set<nat>)
    requires 0 < k < |entries| && Marked(entries[1..], ready)
    ensures Marked(EraseAt(entries, k)[1..], ready)
  {
    forall e | e in EraseAt(entries, k)[1..]
      ensures e in entries[1..]
    {
      var j :| 0 < j < |entries| - 1 && EraseAt(entries, k)[j] == e;
      assert e == entries[1..][if j < k then j - 1 else j];
    }
  }

  /**
   * The whole of `main`: it plays the run its inputs determine, and after a "stop" every connection
   * it accepted, and the listener, has been closed exactly once. Otherwise listener and clients
   * are what the process still holds.
   */
  method RunServer(inheritedFds: Descriptors, inputs: seq<Input>)
      returns (server: Server, turns: seq<Turn>, log: seq<Outcome>)
    requires inheritedFds.Accounted()
    ensures server.listenfd == LowestUnused(inheritedFds.table.Keys)
    ensures turns == Run(Host(inheritedFds.table.Keys, server.listenfd), [], false, Offers(inputs))
    ensures log == Play([], turns) && |log| == |turns|
    ensures server.fds.serial == inheritedFds.serial + 1 + Arrivals(turns)
    ensures if log != [] && Stops(log[|log| - 1].events) && !log[|log| - 1].exited then
              && server.fds.table.Keys == inheritedFds.table.Keys
              && server.fds.failures == inheritedFds.failures
              && forall s: nat :: inheritedFds.serial <= s < server.fds.serial ==> multiset(server.fds.closed)[s] == 1
            else
              server.fds.Owned(inheritedFds.table.Keys, {server.listenfd} + Elems(ListAt([], log, |log|)),
                               inheritedFds.serial, inheritedFds.failures)
  {
    hide Descriptors.Owned, Run;
    server := new Server(inheritedFds);
    turns, log := server.Serve(inputs);
    if !server.isRunning && !server.exited {
      server.Shutdown();
      NothingHeld(server.fds, server.inherited, server.base, server.failures);
    } else {
      NamesHeld(server.clients);
    }
  }

  lemma NamesHeld(entries: seq<PollFd>)
    requires entries != []
    ensures Elems(Names(entries)) == {entries[0].fd} + Elems(Names(entries)[1..])
  {
    assert Names(entries) == [entries[0].fd] + Names(entries)[1..];
    assert forall x :: x in Names(entries) <==> x == entries[0].fd || x in Names(entries)[1..];
  }
}

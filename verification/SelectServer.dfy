/** socket/servers/multiplex_server/main.cpp: the echo server built on `select`. */
module SelectServer {
  import opened Bytes
  import opened Lists
  import opened Posix
  import opened ReadinessScan
  import opened ServerRuns

  /**
   * The environment of one loop iteration: what `select` and `accept` return, which descriptors
   * have become ready, how the sockets answer, and the value found where `max_element` of an
   * empty vector points.
   */
  datatype Input = Input(selectOk: bool, ready: set<nat>, acceptOk: bool, reply: nat -> Reply, pastEnd: int)

  /** What an input offers to the loop. */
  function OfferOf(listenfd: nat, input: Input): Offer {
    Offer(input.selectOk, fd => fd in input.ready, input.acceptOk, input.reply, input.pastEnd >= listenfd)
  }

  function Offers(listenfd: nat, inputs: seq<Input>): (r: seq<Offer>)
    ensures |r| == |inputs|
    ensures forall k :: 0 <= k < |r| ==> r[k] == OfferOf(listenfd, inputs[k])
  {
    seq(|inputs|, k requires 0 <= k < |inputs| => OfferOf(listenfd, inputs[k]))
  }

  ghost predicate IsMax(m: int, s: set<nat>) {
    m >= 0 && m in s && forall x <- s :: x <= m
  }

  function Max(s: seq<nat>): (m: nat)
    requires s != []
    ensures IsMax(m, Elems(s))
  {
    assert Elems(s) == {s[0]} + Elems(s[1..]);
    if |s| == 1 then s[0]
    else
      var m := Max(s[1..]);
      if s[0] > m then s[0] else m
  }

  class Server {
    const listenfd: nat
    /** Descriptors open before the listener was made, its serial, and the failed closes by then. */
    ghost const inherited: set<nat>
    ghost const base: nat
    ghost const failures: nat

    var clients: seq<nat>
    var allset: set<nat>
    var readset: set<nat>
    var maxfd: int
    var isRunning: bool
    /** The process has left through `errorHandler`. */
    var exited: bool
    /** The kernel's view of this process. */
    var fds: Descriptors

    /** The registration and ownership invariant of the loop head. */
    ghost predicate Valid()
      reads this
    {
      && NoDup(clients) && listenfd !in clients
      && allset == {listenfd} + Elems(clients)
      && (clients != [] ==> IsMax(maxfd, allset))
      && fds.Owned(inherited, allset, base, failures) && base <= fds.serial
      && (forall k: nat :: k < listenfd ==> k in inherited)
    }

    ghost function Host(): Host {
      ServerRuns.Host(inherited, listenfd)
    }

    /** `select` looks at every registered descriptor. */
    ghost predicate Watched()
      reads this
    {
      forall fd <- allset :: fd <= maxfd
    }

    constructor (inheritedFds: Descriptors)
      requires inheritedFds.Accounted()
      ensures Valid() && clients == [] && isRunning && !exited && maxfd == listenfd
      ensures listenfd == LowestUnused(inheritedFds.table.Keys) && fds.serial == inheritedFds.serial + 1
      ensures inherited == inheritedFds.table.Keys && base == inheritedFds.serial
      ensures failures == inheritedFds.failures
    {
      var (table, fd) := inheritedFds.Allocate();
      AllocateOwned(inheritedFds, inheritedFds.table.Keys, {}, inheritedFds.serial, inheritedFds.failures);
      listenfd, fds := fd, table;
      inherited, base, failures := inheritedFds.table.Keys, inheritedFds.serial, inheritedFds.failures;
      clients, allset, readset, maxfd := [], {fd}, {}, fd;
      isRunning, exited := true, false;
    }

    /** Lowest-number allocation puts every client above the listener, so the largest client is the maximum of all. */
    lemma ClientsAboveListener()
      requires listenfd !in clients && fds.Owned(inherited, {listenfd} + Elems(clients), base, failures)
      requires forall k: nat :: k < listenfd ==> k in inherited
      ensures forall c <- clients :: c > listenfd
      ensures clients != [] ==> IsMax(Max(clients), {listenfd} + Elems(clients))
    {
      forall c | c in clients
        ensures c > listenfd
      {
        assert c in Elems(clients);
      }
    }

    method UpdateMaxfd(pastEnd: int)
      modifies this`maxfd
      ensures clients != [] ==> IsMax(maxfd, Elems(clients))
      ensures clients == [] ==> maxfd == pastEnd
    {
      maxfd := if clients == [] then pastEnd else Max(clients);
    }

    /** The end-of-stream branch of `handleRequest`, for the client found at index k. */
    method Disconnect(k: nat, pastEnd: int)
      requires Valid() && k < |clients|
      modifies this`clients, this`allset, this`maxfd, this`fds
      ensures Valid() && clients == EraseAt(old(clients), k)
      ensures allset == old(allset) - {old(clients)[k]} && fds == old(fds).Close(old(clients)[k])
      ensures fds.serial == old(fds.serial)
      ensures clients == [] ==> maxfd == pastEnd
    {
      hide Descriptors.Owned;
      var sockfd := clients[k];
      ErasePreservesNoDup(clients, k);
      CloseOwned(fds, inherited, allset, base, failures, sockfd);
      clients := EraseAt(clients, k);
      fds := fds.Close(sockfd);
      allset := allset - {sockfd};
      assert allset == {listenfd} + Elems(clients);
      UpdateMaxfd(pastEnd);
      ClientsAboveListener();
    }

    method HandleRequest(sockfd: nat, reply: Reply, pastEnd: int) returns (served: seq<Event>)
      requires Valid() && !exited
      modifies this`clients, this`allset, this`maxfd, this`isRunning, this`exited, this`fds
      ensures Valid()
      ensures Responds(sockfd, reply, sockfd in old(clients), served, exited)
      ensures var k := IndexOf(old(clients), sockfd);
              match Handle(sockfd, reply)
              case Exit => exited && served == [] && clients == old(clients) && isRunning == old(isRunning)
              case Serve(e) =>
                if e.Departed? && k == |old(clients)|
                then exited && served == [] && clients == old(clients) && isRunning == old(isRunning)
                else
                  && !exited && served == [e]
                  && clients == (if e.Departed? then EraseAt(old(clients), k) else old(clients))
                  && isRunning == (old(isRunning) && !e.StopRequested?)
      ensures clients == old(clients) ==> fds == old(fds) && maxfd == old(maxfd) && allset == old(allset)
      ensures fds.serial == old(fds.serial)
      ensures clients == [] && old(clients) != [] ==> maxfd == pastEnd
    {
      hide Descriptors.Owned, Fatal, Answers, Handle;
      HandleMeans(sockfd, reply);
      served := [];
      match Handle(sockfd, reply) {
        case Exit =>
          exited := true;
        case Serve(e) =>
          if e.Departed? {
            var k := IndexOf(clients, sockfd);
            if k == |clients| {
              exited := true;
              return;
            }
            Disconnect(k, pastEnd);
          } else if e.StopRequested? {
            isRunning := false;
          }
          served := [e];
      }
    }

    /** The body of the inner loop at index i. */
    method ServeAt(i: nat, ghost all: seq<nat>, ghost events: seq<Event>, reply: nat -> Reply, pastEnd: int)
        returns (served: seq<Event>)
      requires Valid() && !exited && i < |clients|
      requires Progress(all, readset, reply, clients, i, events)
      modifies this`clients, this`allset, this`maxfd, this`isRunning, this`exited, this`fds
      ensures Valid() && isRunning == (old(isRunning) && !Stops(served)) && |clients| <= old(|clients|)
      ensures fds.serial == old(fds.serial)
      ensures exited ==> served == [] && Scan(all, readset, reply) == Outcome(clients, events, true)
      ensures !exited ==> Progress(all, readset, reply, clients, i + 1, events + served)
      ensures clients == [] && old(clients) != [] ==> maxfd == pastEnd
    {
      hide Descriptors.Owned, Progress, Scan, Responds, Fatal, Answers;
      var connfd := clients[i];
      served := [];
      if connfd in readset {
        assert IndexOf(clients, connfd) == i;
        served := HandleRequest(connfd, reply(connfd), pastEnd);
        if exited {
          ProgressExits(all, readset, reply, clients, i, events);
        } else if served[0].Departed? {
          ProgressErases(all, readset, reply, old(clients), i, events);
        } else {
          ProgressStays(all, readset, reply, clients, i, events, served);
        }
      } else {
        ProgressStays(all, readset, reply, clients, i, events, []);
      }
    }

    /** The inner loop: it indexes the list that `handleRequest` erases from. */
    method ServeReady(reply: nat -> Reply, pastEnd: int) returns (events: seq<Event>)
      requires Valid() && isRunning && !exited
      modifies this`clients, this`allset, this`maxfd, this`isRunning, this`exited, this`fds
      ensures Valid() && fds.serial == old(fds.serial)
      ensures Scan(old(clients), readset, reply) == Outcome(clients, events, exited)
      ensures isRunning == !Stops(events)
      ensures clients == [] && old(clients) != [] ==> maxfd == pastEnd
      ensures old(clients) == [] ==> maxfd == old(maxfd)
    {
      hide Descriptors.Owned, Progress, Scan;
      events := [];
      var i := 0;
      ghost var all := clients;
      ProgressStart(all, readset, reply);
      while i < |clients|
        invariant Valid() && !exited && isRunning == !Stops(events) && fds.serial == old(fds.serial)
        invariant Progress(all, readset, reply, clients, i, events)
        invariant clients == [] && all != [] ==> maxfd == pastEnd
        invariant all == [] ==> clients == [] && maxfd == old(maxfd)
        decreases |clients| - i
      {
        var served := ServeAt(i, all, events, reply, pastEnd);
        if exited {
          return;
        }
        StopsAppend(events, served);
        events, i := events + served, i + 1;
      }
      ProgressEnds(all, readset, reply, clients, i, events);
    }

    /** Whether everything is watched depends on the listener alone, and with clients it is watched. */
    lemma WatchedIff()
      requires Valid()
      ensures Watched() <==> maxfd >= listenfd
      ensures clients != [] ==> Watched()
    {
      assert listenfd in allset;
    }

    /** `select` reports the ready descriptors up to maxfd; while there are clients it misses none of them. */
    method Select(ready: set<nat>)
      requires Valid()
      modifies this`readset
      ensures readset == set fd | fd in allset && fd in ready && fd <= maxfd
      ensures clients != [] ==> readset == allset * ready
    {
      readset := set fd | fd in allset && fd in ready && fd <= maxfd;
    }

    /** One iteration of the main loop: select, accept, serve. `ok` is false when select or accept failed. */
    method Round(input: Input) returns (ok: bool, turn: Turn, events: seq<Event>)
      requires Valid() && isRunning && !exited
      modifies this
      ensures Valid()
      ensures readset == set fd | fd in old(allset) && fd in input.ready && fd <= old(maxfd)
      ensures old(clients) != [] ==> readset == old(allset) * input.ready
      ensures ok == (input.selectOk && (listenfd in readset ==> input.acceptOk))
      ensures var offered := TurnOf(Host(), old(clients), old(maxfd) < listenfd, OfferOf(listenfd, input));
              ok == offered.Some? && (ok ==> turn == offered.value)
      ensures !ok ==> exited && isRunning && clients == old(clients) && maxfd == old(maxfd) && fds == old(fds)
      ensures ok ==>
        && Scan(old(clients) + turn.arrivals, turn.ready, turn.reply) == Outcome(clients, events, exited)
        && isRunning == !Stops(events)
        && fds.serial == old(fds.serial) + |turn.arrivals|
        && (maxfd < listenfd <==>
              old(maxfd) < listenfd
              || Loses(OfferOf(listenfd, input), old(clients) + turn.arrivals, Outcome(clients, events, exited)))
    {
      hide Descriptors.Owned, Scan, TurnOf, ReadyClients;
      ghost var known := clients;
      ok, turn, events := false, Turn({}, [], input.reply), [];
      Select(input.ready);
      turn := turn.(ready := set c | c in clients && c in readset);
      Heard(input, turn.ready);
      if !input.selectOk {
        exited := true;
        return;
      }
      if listenfd in readset {
        if !input.acceptOk {
          exited := true;
          return;
        }
        var connfd := AcceptConnection();
        turn := turn.(arrivals := [connfd]);
      }
      ok := true;
      assert clients == known + turn.arrivals;
      SameReadySets(clients, turn.ready, readset, input.reply);
      events := ServeReady(input.reply, input.pastEnd);
      WatchedIff();
    }

    /** What `select` has reported is the turn that the offer calls for. */
    lemma Heard(input: Input, ready: set<nat>)
      requires Valid() && readset == set fd | fd in allset && fd in input.ready && fd <= maxfd
      requires ready == set c | c in clients && c in readset
      ensures var turn := TurnOf(Host(), clients, maxfd < listenfd, OfferOf(listenfd, input));
              && (!input.selectOk ==> turn.None?)
              && (input.selectOk && listenfd !in readset ==> turn == Some(Turn(ready, [], input.reply)))
              && (input.selectOk && listenfd in readset ==>
                    turn == if input.acceptOk then Some(Turn(ready, [LowestUnused(fds.table.Keys)], input.reply))
                      else None)
    {
      OwnedKeys();
      var offer := OfferOf(listenfd, input);
      assert listenfd in readset <==> offer.ready(listenfd) && listenfd <= maxfd;
      forall c | c in clients
        ensures c in readset <==> offer.ready(c)
      {
        assert c in allset;
      }
      assert ready == ReadyClients(clients, offer);
    }

    lemma OwnedKeys()
      requires Valid()
      ensures allset <= fds.table.Keys
      ensures fds.table.Keys == inherited + {listenfd} + Elems(clients)
    {
    }

    method AcceptConnection() returns (connfd: nat)
      requires Valid()
      modifies this`clients, this`allset, this`maxfd, this`fds
      ensures Valid()
      ensures connfd == LowestUnused(old(fds).table.Keys) && connfd !in old(allset)
      ensures clients == old(clients) + [connfd] && fds.serial == old(fds.serial) + 1
    {
      hide Descriptors.Owned;
      AllocateOwned(fds, inherited, allset, base, failures);
      OwnedKeys();
      var (table, fd) := fds.Allocate();
      fds, connfd := table, fd;
      clients := clients + [connfd];
      allset := allset + {connfd};
      assert allset == {listenfd} + Elems(clients);
      UpdateMaxfd(0);
      ClientsAboveListener();
    }

    /**
     * The main loop, over the environment's inputs: it plays the run they determine. It ends early
     * only at a "stop" or by leaving the process, and everything stays watched exactly as long as no
     * iteration loses the listener.
     */
    method Serve(inputs: seq<Input>) returns (turns: seq<Turn>, log: seq<Outcome>)
      requires Valid() && isRunning && !exited
      modifies this
      ensures Valid() && clients == ListAt(old(clients), log, |log|)
      ensures turns == Run(Host(), old(clients), !old(Watched()), Offers(listenfd, inputs))
      ensures log == Play(old(clients), turns) && |log| == |turns|
      ensures !isRunning <==> log != [] && Stops(log[|log| - 1].events)
      ensures exited <==> (log != [] && log[|log| - 1].exited) || (isRunning && |turns| < |inputs|)
      ensures fds.serial == old(fds.serial) + Arrivals(turns)
      ensures Watched() <==> old(Watched()) && !LostBefore(old(clients), Offers(listenfd, inputs), turns, log, |log|)
    {
      hide Descriptors.Owned, Run, TurnOf, LostBefore, Loses, RunSoFar, IsMax, Play, Scan, Stops, Arrivals;
      turns, log := [], [];
      ghost var first, deaf, offers := clients, maxfd < listenfd, Offers(listenfd, inputs);
      WatchedIff();
      RunStarts(Host(), first, deaf, offers);
      while isRunning && !exited && |turns| < |inputs|
        invariant Valid() && |log| == |turns| <= |inputs|
        invariant RunSoFar(Host(), first, deaf, offers, turns, log, clients, maxfd < listenfd)
        invariant exited <==> log != [] && log[|log| - 1].exited
        invariant !isRunning <==> log != [] && Stops(log[|log| - 1].events)
        invariant fds.serial == old(fds.serial) + Arrivals(turns)
        decreases |inputs| - |turns|, !exited
      {
        ghost var before, deafBefore := clients, maxfd < listenfd;
        var ok, turn, events := Round(inputs[|turns|]);
        if !ok {
          break;
        }
        var outcome := Outcome(clients, events, exited);
        RunGoesOn(Host(), first, deaf, offers, turns, log, before, deafBefore, turn, outcome);
        turns, log := turns + [turn], log + [outcome];
      }
      RunEnds(Host(), first, deaf, offers, turns, log, clients, maxfd < listenfd);
      RunFacts(Host(), first, deaf, offers, turns, log, clients, maxfd < listenfd);
      WatchedIff();
    }

    /** `CloseConnections`. */
    method CloseConnections()
      modifies this`clients, this`fds
      ensures clients == [] && fds == CloseAll(old(fds), old(clients))
    {
      for i := 0 to |clients|
        invariant clients == old(clients) && fds == CloseAll(old(fds), clients[..i])
      {
        CloseAllAppend(old(fds), clients[..i], clients[i]);
        assert clients[..i + 1] == clients[..i] + [clients[i]];
        fds := fds.Close(clients[i]);
      }
      assert clients[..|clients|] == clients;
      clients := [];
    }

    /** The end of `main`: every connection and the listener are closed, each without error. */
    method Shutdown()
      requires Valid()
      modifies this`clients, this`fds
      ensures fds.Owned(inherited, {}, base, failures) && fds.serial == old(fds.serial)
      ensures clients == []
    {
      CloseAllOwned(fds, inherited, allset, base, failures, clients);
      CloseConnections();
      assert allset - Elems(old(clients)) == {listenfd};
      CloseOwned(fds, inherited, {listenfd}, base, failures, listenfd);
      assert {listenfd} - {listenfd} == {};
      fds := fds.Close(listenfd);
    }
  }

  /**
   * The whole of `main`: it plays the run its inputs determine, and after a "stop" every connection
   * it accepted, and the listener, has been closed exactly once. Otherwise listener and clients
   * are what the process still holds.
   */
  method RunServer(inheritedFds: Descriptors, inputs: seq<Input>)
      returns (server: Server, turns: seq<Turn>, log: seq<Outcome>)
    requires inheritedFds.Accounted()
    ensures server.listenfd == LowestUnused(inheritedFds.table.Keys)
    ensures turns == Run(Host(inheritedFds.table.Keys, server.listenfd), [], false, Offers(server.listenfd, inputs))
    ensures log == Play([], turns) && |log| == |turns|
    ensures server.fds.serial == inheritedFds.serial + 1 + Arrivals(turns)
    ensures if log != [] && Stops(log[|log| - 1].events) && !log[|log| - 1].exited then
              && server.fds.table.Keys == inheritedFds.table.Keys
              && server.fds.failures == inheritedFds.failures
              && forall s: nat :: inheritedFds.serial <= s < server.fds.serial ==> multiset(server.fds.closed)[s] == 1
            else
              server.fds.Owned(inheritedFds.table.Keys, {server.listenfd} + Elems(ListAt([], log, |log|)),
                               inheritedFds.serial, inheritedFds.failures)
  {
    hide Descriptors.Owned, Run;
    server := new Server(inheritedFds);
    server.WatchedIff();
    turns, log := server.Serve(inputs);
    if !server.isRunning && !server.exited {
      server.Shutdown();
      NothingHeld(server.fds, server.inherited, server.base, server.failures);
    }
  }

  /** A client connects, and then leaves; `pastEnd` is found where the emptied vector ends. */
  function ComeAndGo(listenfd: nat, connfd: nat, pastEnd: int): (r: seq<Input>)
    ensures |r| == 2
  {
    [Input(true, {listenfd}, true, _ => EndOfStream, pastEnd), Input(true, {connfd}, true, _ => EndOfStream, pastEnd)]
  }

  /**
   * On every host one client that comes and goes is enough to lose the listener, if the value past
   * the end of the emptied vector is below it (but not so low that `select` refuses the count): no
   * later iteration serves or accepts anybody, whatever becomes ready.
   */
  lemma OneClientLosesListener(host: Host, connfd: nat, pastEnd: int, later: seq<Input>)
    requires -1 <= pastEnd < host.listenfd && connfd == LowestUnused(host.inherited + {host.listenfd})
    requires forall k :: 0 <= k < |later| ==> later[k].selectOk
    ensures var offers := Offers(host.listenfd, ComeAndGo(host.listenfd, connfd, pastEnd) + later);
            var turns := Run(host, [], false, offers);
            var log := Play([], turns);
            && |log| == |turns| == |offers|
            && log[0] == Outcome([connfd], [], false) && log[1] == Outcome([], [Departed(connfd)], false)
            && LosesAt([], offers, turns, log, 1)
            && forall k :: 2 <= k < |log| ==> log[k] == Outcome([], [], false)
  {
    hide TurnOf, Run, Play, Scan;
    var offers := Offers(host.listenfd, ComeAndGo(host.listenfd, connfd, pastEnd) + later);
    assert offers[2..] == Offers(host.listenfd, later);
    TwoIterations(host, connfd, offers);
    LostRun(host, offers[2..]);
  }

  /** The first two iterations of a run in which a client comes and goes. */
  lemma TwoIterations(host: Host, connfd: nat, offers: seq<Offer>)
    requires connfd == LowestUnused(host.inherited + {host.listenfd}) && |offers| >= 2
    requires offers[0].ok && offers[0].acceptOk && offers[0].ready(host.listenfd)
    requires offers[1].ok && !offers[1].ready(host.listenfd) && offers[1].ready(connfd)
    requires offers[1].reply(connfd).EndOfStream? && !offers[1].keepsListener
    ensures var turns, later := Run(host, [], false, offers), Run(host, [], true, offers[2..]);
            && turns == [Turn({}, [connfd], offers[0].reply), Turn({connfd}, [], offers[1].reply)] + later
            && Play([], turns)
               == [Outcome([connfd], [], false), Outcome([], [Departed(connfd)], false)] + Play([], later)
  {
    hide TurnOf, Run, Play;
    Comes(host, offers[0]);
    var first, r, rest := Unfold(host, [], false, offers);
    assert [] + [connfd] == [connfd];
    IdleScan([connfd], {}, offers[0].reply);
    Goes(host, connfd, offers[1]);
    var second, r', rest' := Unfold(host, [connfd], false, offers[1..]);
    assert [connfd] + [] == [connfd] && [connfd][1..] == [];
    assert Scan([connfd], {connfd}, offers[1].reply) == Outcome([], [Departed(connfd)], false);
    assert offers[1..][1..] == offers[2..];
  }

  lemma Comes(host: Host, offer: Offer)
    requires offer.ok && offer.acceptOk && offer.ready(host.listenfd)
    ensures TurnOf(host, [], false, offer)
            == Some(Turn({}, [LowestUnused(host.inherited + {host.listenfd})], offer.reply))
  {
    assert ReadyClients([], offer) == {};
    assert host.inherited + {host.listenfd} + Elems([]) == host.inherited + {host.listenfd};
  }

  lemma Goes(host: Host, connfd: nat, offer: Offer)
    requires offer.ok && !offer.ready(host.listenfd) && offer.ready(connfd)
    ensures TurnOf(host, [connfd], false, offer) == Some(Turn({connfd}, [], offer.reply))
  {
    assert ReadyClients([connfd], offer) == {connfd};
  }

  /** The server itself in such a run: its listener is registered all the time, and never heard again. */
  method ListenerLost(inheritedFds: Descriptors, pastEnd: int, later: seq<Input>)
      returns (server: Server, connfd: nat, turns: seq<Turn>, log: seq<Outcome>)
    requires inheritedFds.Accounted() && -1 <= pastEnd < LowestUnused(inheritedFds.table.Keys)
    requires forall k :: 0 <= k < |later| ==> later[k].selectOk
    ensures server.Valid() && server.listenfd == LowestUnused(inheritedFds.table.Keys)
    ensures server.listenfd in server.allset && !server.Watched()
    ensures turns == Run(Host(inheritedFds.table.Keys, server.listenfd), [], false,
                         Offers(server.listenfd, ComeAndGo(server.listenfd, connfd, pastEnd) + later))
    ensures log == Play([], turns) && |log| == 2 + |later|
    ensures forall k :: 2 <= k < |log| ==> turns[k].arrivals == [] && log[k] == Outcome([], [], false)
  {
    hide Descriptors.Owned, Run, Play, LosesAt;
    server := new Server(inheritedFds);
    server.WatchedIff();
    connfd := LowestUnused(inheritedFds.table.Keys + {server.listenfd});
    ghost var host := server.Host();
    ghost var offers := Offers(server.listenfd, ComeAndGo(server.listenfd, connfd, pastEnd) + later);
    OneClientLosesListener(host, connfd, pastEnd, later);
    turns, log := server.Serve(ComeAndGo(server.listenfd, connfd, pastEnd) + later);
    forall k | 2 <= k < |log|
      ensures turns[k].arrivals == []
    {
      LostForGood(host, [], offers, 1, k);
    }
  }
}

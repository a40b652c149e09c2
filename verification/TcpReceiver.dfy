/** socket/external/engine/net_api/receiver/tcp_receiver.h: messages collected through the acceptor. */
module TcpReceiver {
  import opened Bytes
  import opened Lists
  import opened Poll
  import opened Posix
  import opened MultiplexAcceptor

  /** What one call of `poll` reports, and what the ready sockets then hold. */
  datatype Turn = Turn(revents: nat -> int, data: nat -> seq<Byte>)

  /** The messages of one session, in the order of the list. */
  function OfSession(messages: seq<Message>, fd: nat): seq<Message> {
    if messages == [] then []
    else (if messages[0].fd == fd then [messages[0]] else []) + OfSession(messages[1..], fd)
  }

  lemma {:induction false} OfSessionConcat(a: seq<Message>, b: seq<Message>, fd: nat)
    ensures OfSession(a + b, fd) == OfSession(a, fd) + OfSession(b, fd)
  {
    if a == [] {
      assert a + b == b;
    } else {
      assert (a + b)[1..] == a[1..] + b;
      OfSessionConcat(a[1..], b, fd);
      var first := if a[0].fd == fd then [a[0]] else [];
      var x, y := OfSession(a[1..], fd), OfSession(b, fd);
      assert OfSession(a + b, fd) == first + OfSession(a[1..] + b, fd);
      assert first + (x + y) == (first + x) + y;
    }
  }

  /** What one round reads from one session: its data once, if its client entry was ready. */
  function ReadOf(entries: seq<PollFd>, data: nat -> seq<Byte>, fd: nat): seq<Message> {
    if (exists k <- ReadyFrom(entries, 0) :: k > 0 && entries[k].fd == fd) then [Message(fd, data(fd))] else []
  }

  /** A round delivers each ready client session's data exactly once. */
  lemma {:induction false} MailOfSession(entries: seq<PollFd>, indices: seq<nat>, data: nat -> seq<Byte>, fd: nat)
    requires NoDup(Names(entries))
    requires forall a :: 0 <= a < |indices| ==> indices[a] < |entries|
    requires forall a, b :: 0 <= a < b < |indices| ==> indices[a] < indices[b]
    ensures OfSession(Mail(entries, indices, data), fd)
            == if (exists k <- indices :: k > 0 && entries[k].fd == fd) then [Message(fd, data(fd))] else []
  {
    if indices != [] {
      var k, rest := indices[0], indices[1..];
      MailOfSession(entries, rest, data, fd);
      OfSessionConcat(if k == 0 then []
        else [Message(entries[k].fd, data(entries[k].fd))], Mail(entries, rest, data), fd);
      if k > 0 && entries[k].fd == fd {
        forall j | j in rest
          ensures entries[j].fd != fd
        {
          assert Names(entries)[j] != Names(entries)[k];
        }
        assert k in indices;
      } else {
        assert forall j :: j in indices <==> j == k || j in rest;
      }
    }
  }

  /** What consecutive rounds read from one session. */
  function ReadsOf(entries: seq<seq<PollFd>>, turns: seq<Turn>, fd: nat): seq<Message>
    requires |entries| <= |turns|
  {
    if entries == [] then []
    else ReadOf(entries[0], turns[0].data, fd) + ReadsOf(entries[1..], turns[1..], fd)
  }

  /** In every session's messages the reads appear in the order in which they were made. */
  lemma {:induction false} SessionOrder(rounds: seq<seq<Message>>, entries: seq<seq<PollFd>>, turns: seq<Turn>, fd: nat)
    requires |rounds| == |entries| <= |turns|
    requires forall k :: 0 <= k < |rounds| ==> Collected(rounds[k], entries[k], turns[k])
    ensures OfSession(Flatten(rounds), fd) == ReadsOf(entries, turns, fd)
  {
    if rounds != [] {
      assert Collected(rounds[0], entries[0], turns[0]);
      OfSessionConcat(rounds[0], Flatten(rounds[1..]), fd);
      MailOfSession(entries[0], ReadyFrom(entries[0], 0), turns[0].data, fd);
      SessionOrder(rounds[1..], entries[1..], turns[1..], fd);
    }
  }

  /** What a round leaves to be polled: a newcomer has joined if the listener was among the ready. */
  ghost function PollSetAfter(inherited: set<nat>, entries: seq<PollFd>): seq<PollFd> {
    entries + if 0 in ReadyFrom(entries, 0) then [PollFd(LowestUnused(inherited + Elems(Names(entries))), 0)] else []
  }

  /** The poll set before round k, when the rounds so far polled `entries`. */
  ghost function PollSetAt(inherited: set<nat>, start: seq<PollFd>, entries: seq<seq<PollFd>>, k: nat): seq<PollFd>
    requires k <= |entries|
  {
    if k == 0 then start else PollSetAfter(inherited, entries[k - 1])
  }

  /** Round k has polled what the one before left, as its turn reported it. */
  ghost predicate PolledAt(inherited: set<nat>, start: seq<PollFd>, entries: seq<seq<PollFd>>, turns: seq<Turn>, k: nat)
    requires k < |entries| <= |turns|
  {
    entries[k] == Reported(PollSetAt(inherited, start, entries, k), turns[k].revents)
  }

  ghost predicate PolledInTurn(inherited: set<nat>, start: seq<PollFd>, entries: seq<seq<PollFd>>, turns: seq<Turn>) {
    |entries| <= |turns| && forall k :: 0 <= k < |entries| ==> PolledAt(inherited, start, entries, turns, k)
  }

  /** What a round collected: the data of every ready client entry, in entry order. */
  ghost predicate Collected(round: seq<Message>, entries: seq<PollFd>, turn: Turn) {
    && entries != [] && NoDup(Names(entries))
    && (forall e <- entries :: e.revents == turn.revents(e.fd))
    && round == Mail(entries, ReadyFrom(entries, 0), turn.data)
  }

  lemma {:induction false} MailLength(entries: seq<PollFd>, indices: seq<nat>, data: nat -> seq<Byte>, low: nat)
    requires low <= |entries| && entries != []
    requires forall a :: 0 <= a < |indices| ==> low <= indices[a] < |entries|
    requires forall a, b :: 0 <= a < b < |indices| ==> indices[a] < indices[b]
    ensures |Mail(entries, indices, data)| <= |entries| - if low == 0 then 1 else low
  {
    if indices != [] {
      MailLength(entries, indices[1..], data, indices[0] + 1);
    }
  }

  /** Before the last of the rounds there were not enough messages yet. */
  ghost predicate NotEarlier(initial: seq<Message>, rounds: seq<seq<Message>>, expected: nat) {
    forall k :: 0 < k < |rounds| ==> |initial + Flatten(rounds[..k])| < expected
  }

  lemma NothingYet(initial: seq<Message>, expected: nat, inherited: set<nat>, start: seq<PollFd>, turns: seq<Turn>)
    ensures NotEarlier(initial, [], expected) && PolledInTurn(inherited, start, [], turns)
    ensures initial + Flatten([]) == initial
  {
  }

  lemma PolledAppend(inherited: set<nat>, start: seq<PollFd>, entries: seq<seq<PollFd>>, turns: seq<Turn>,
      polled: seq<PollFd>)
    requires PolledInTurn(inherited, start, entries, turns) && |entries| < |turns|
    requires polled == Reported(PollSetAt(inherited, start, entries, |entries|), turns[|entries|].revents)
    ensures PolledInTurn(inherited, start, entries + [polled], turns)
    ensures PollSetAt(inherited, start, entries + [polled], |entries| + 1) == PollSetAfter(inherited, polled)
  {
    forall k | 0 <= k <= |entries|
      ensures PolledAt(inherited, start, entries + [polled], turns, k)
    {
      assert k < |entries| ==> PolledAt(inherited, start, entries, turns, k);
      assert PollSetAt(inherited, start, entries + [polled], k) == PollSetAt(inherited, start, entries, k);
    }
  }

  lemma NotEarlierAppend(initial: seq<Message>, rounds: seq<seq<Message>>, expected: nat, round: seq<Message>)
    requires NotEarlier(initial, rounds, expected)
    requires rounds != [] ==> |initial + Flatten(rounds)| < expected
    ensures NotEarlier(initial, rounds + [round], expected)
  {
    forall k | 0 < k < |rounds| + 1
      ensures |initial + Flatten((rounds + [round])[..k])| < expected
    {
      assert (rounds + [round])[..k] == rounds[..k];
      assert k == |rounds| ==> rounds[..k] == rounds;
    }
  }

  class Receiver {
    const messages: Inbox
    const acceptor: Acceptor

    ghost predicate Valid()
      reads this, acceptor, acceptor.kernel
    {
      acceptor.Valid() && acceptor.clientRequestHandler == Client(messages)
    }

    constructor (kernel: Kernel, listener: nat)
      requires kernel.Holds({listener})
      ensures Valid() && fresh(messages) && fresh(acceptor) && acceptor.kernel == kernel && messages.messages == []
    {
      var inbox := new Inbox();
      messages := inbox;
      acceptor := new Acceptor(kernel, listener, inbox);
    }

    /** The body of the loop: one poll, and the messages of every client session it reports. */
    method ReceiveOnce(turn: Turn) returns (polled: seq<PollFd>, round: seq<Message>)
      requires Valid()
      modifies acceptor, acceptor.kernel`fds, messages
      ensures Valid() && Collected(round, polled, turn) && |round| <= |polled| - 1
      ensures polled == Reported(old(acceptor.clientPollFdSet), turn.revents)
      ensures acceptor.clientPollFdSet == PollSetAfter(acceptor.kernel.inherited, polled)
      ensures messages.messages == old(messages.messages) + round
    {
      hide Descriptors.Owned, Acceptor.Parallel, Acceptor.Bound;
      var known := |messages.messages|;
      polled := Reported(acceptor.clientPollFdSet, turn.revents);
      ReportedShape(acceptor, turn);
      KernelKeys(acceptor);
      var left, dispatched := acceptor.PollRound(turn.revents, turn.data);
      round := messages.messages[known..];
      MailLength(polled, dispatched, turn.data, 0);
    }

    /**
     * `receive`: poll and handle until enough messages are there. The environment provides
     * `turns`; `finished` says the loop ended of itself. `entries` and `rounds` record what each
     * turn polled, from the acceptor's poll set on, and what it collected.
     */
    method Receive(expected: nat, turns: seq<Turn>)
        returns (finished: bool, entries: seq<seq<PollFd>>, rounds: seq<seq<Message>>)
      requires Valid()
      modifies acceptor, acceptor.kernel`fds, messages
      ensures Valid()
      ensures |rounds| == |entries| <= |turns|
      ensures forall k :: 0 <= k < |rounds| ==> Collected(rounds[k], entries[k], turns[k])
      ensures var inherited, start := acceptor.kernel.inherited, old(acceptor.clientPollFdSet);
              && PolledInTurn(inherited, start, entries, turns)
              && acceptor.clientPollFdSet == PollSetAt(inherited, start, entries, |entries|)
      ensures messages.messages == old(messages.messages) + Flatten(rounds)
      ensures NotEarlier(old(messages.messages), rounds, expected)
      ensures finished ==>
        && rounds != [] && expected <= |messages.messages|
        && |messages.messages| <= Larger(expected - 1, old(|messages.messages|)) + |entries[|entries| - 1]| - 1
      ensures !finished ==> |rounds| == |turns| && (rounds != [] ==> |messages.messages| < expected)
    {
      hide Descriptors.Owned, Acceptor.Parallel, Acceptor.Bound, Collected, PollSetAfter, PolledInTurn, NotEarlier,
        NoDup, Flatten;
      NothingYet(messages.messages, expected, acceptor.kernel.inherited, acceptor.clientPollFdSet, turns);
      finished, entries, rounds := false, [], [];
      ghost var initial, start := messages.messages, acceptor.clientPollFdSet;
      while |rounds| < |turns|
        invariant Valid() && !finished && |rounds| == |entries| <= |turns|
        invariant forall k :: 0 <= k < |rounds| ==> Collected(rounds[k], entries[k], turns[k])
        invariant PolledInTurn(acceptor.kernel.inherited, start, entries, turns)
        invariant acceptor.clientPollFdSet == PollSetAt(acceptor.kernel.inherited, start, entries, |entries|)
        invariant messages.messages == initial + Flatten(rounds)
        invariant NotEarlier(initial, rounds, expected)
        invariant rounds != [] ==> |messages.messages| < expected
        decreases |turns| - |rounds|
      {
        var polled, round := ReceiveOnce(turns[|rounds|]);
        FlattenAppend(rounds, round);
        NotEarlierAppend(initial, rounds, expected, round);
        PolledAppend(acceptor.kernel.inherited, start, entries, turns, polled);
        entries, rounds := entries + [polled], rounds + [round];
        if |messages.messages| >= expected {
          finished := true;
          return;
        }
      }
    }
  }

  function Larger(a: int, b: int): int {
    if a > b then a else b
  }

  lemma KernelKeys(acceptor: Acceptor)
    requires acceptor.Valid()
    ensures acceptor.kernel.fds.table.Keys == acceptor.kernel.inherited + Elems(Names(acceptor.clientPollFdSet))
  {
  }

  lemma ReportedShape(acceptor: Acceptor, turn: Turn)
    requires acceptor.Valid()
    ensures var entries := Reported(acceptor.clientPollFdSet, turn.revents);
            Collected(Mail(entries, ReadyFrom(entries, 0), turn.data), entries, turn)
  {
  }
}

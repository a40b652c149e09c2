/**
 * One pass of the echo servers' event loop, seen from outside: which clients are served, in which
 * order, and which stay. The loops themselves erase from the list they are indexing; this is the
 * recursive form they are proved against.
 */
module ReadinessScan {
  import opened Bytes
  import opened Lists

  /** What the kernel answers when the server reads from a client, and then writes back to it. */
  datatype Reply =
    | ReadError
    | EndOfStream
    | Received(bytes: seq<Byte>, writeOk: bool)

  datatype Event =
    | Echoed(fd: nat, bytes: seq<Byte>)
    | Departed(fd: nat)
    | StopRequested(fd: nat)

  /** The text that asks a server to stop: "stop\r\n". */
  const STOP: seq<Byte> := [115, 116, 111, 112, 13, 10]

  datatype Handled = Exit | Serve(event: Event)

  /** What `handleRequest` does with one client. */
  function Handle(fd: nat, reply: Reply): Handled {
    match reply
    case ReadError => Exit
    case EndOfStream => Serve(Departed(fd))
    case Received(bytes, writeOk) =>
      var text := CutAtNul(bytes);
      if text == STOP then Serve(StopRequested(fd))
      else if writeOk then Serve(Echoed(fd, text))
      else Exit
  }

  /** What a C string made of the bytes holds: everything before the first NUL. */
  ghost predicate IsText(text: seq<Byte>, bytes: seq<Byte>) {
    text <= bytes && 0 !in text && (|text| < |bytes| ==> bytes[|text|] == 0)
  }

  /** A reply after which the process leaves: a read error, or a write that fails of any text but "stop\r\n". */
  ghost predicate Fatal(reply: Reply) {
    reply.ReadError? || (reply.Received? && !reply.writeOk && !IsText([115, 116, 111, 112, 13, 10], reply.bytes))
  }

  /** The event that a reply calls for: the text that came in is sent back, unless it is "stop\r\n". */
  ghost predicate Answers(e: Event, reply: Reply) {
    match e
    case Departed(_) => reply.EndOfStream?
    case StopRequested(_) => reply.Received? && IsText([115, 116, 111, 112, 13, 10], reply.bytes)
    case Echoed(_, text) =>
      && reply.Received? && reply.writeOk && IsText(text, reply.bytes)
      && text != [115, 116, 111, 112, 13, 10]
  }

  lemma OneText(a: seq<Byte>, b: seq<Byte>, bytes: seq<Byte>)
    requires IsText(a, bytes) && IsText(b, bytes)
    ensures a == b
  {
  }

  /** A request is answered as its reply calls for, and in no other way; or the process leaves. */
  lemma HandleMeans(fd: nat, reply: Reply)
    ensures Handle(fd, reply).Exit? <==> Fatal(reply)
    ensures Handle(fd, reply).Serve? ==> Handle(fd, reply).event.fd == fd && Answers(Handle(fd, reply).event, reply)
    ensures Handle(fd, reply).Serve? ==> (Handle(fd, reply).event.Departed? <==> reply.EndOfStream?)
    ensures forall e: Event :: e.fd == fd && Answers(e, reply) ==> Handle(fd, reply) == Serve(e)
  {
    hide CutAtNul;
    if reply.Received? {
      var text := CutAtNul(reply.bytes);
      assert IsText(text, reply.bytes);
      forall other | IsText(other, reply.bytes)
        ensures other == text
      {
        OneText(other, text, reply.bytes);
      }
    }
  }

  /**
   * How one request ends: what is served and whether the process leaves, for a descriptor that is in
   * the client list (`known`) or not.
   */
  ghost predicate Responds(fd: nat, reply: Reply, known: bool, served: seq<Event>, exits: bool) {
    if Fatal(reply) || (reply.EndOfStream? && !known) then exits && served == []
    else !exits && |served| == 1 && served[0].fd == fd && Answers(served[0], reply)
  }

  /** `kept` is the client list afterwards; `exited` says the process left through its error handler. */
  datatype Outcome = Outcome(kept: seq<nat>, events: seq<Event>, exited: bool)

  /**
   * The scan. A client that departs is erased, the index moves on all the same, and so the
   * client after it is passed over until the next round.
   */
  function Scan(cs: seq<nat>, ready: set<nat>, reply: nat -> Reply): Outcome {
    if cs == [] then Outcome([], [], false)
    else if cs[0] !in ready then Before([cs[0]], [], Scan(cs[1..], ready, reply))
    else
      match Handle(cs[0], reply(cs[0]))
      case Exit => Outcome(cs, [], true)
      case Serve(e) =>
        if e.Departed? then
          var passedOver := if |cs| > 1 then [cs[1]] else [];
          Before(passedOver, [e], Scan(cs[1 + |passedOver|..], ready, reply))
        else
          Before([cs[0]], [e], Scan(cs[1..], ready, reply))
  }

  /** The outcome of a scan that has already kept `kept` and seen `events`. */
  function Before(kept: seq<nat>, events: seq<Event>, rest: Outcome): Outcome {
    Outcome(kept + rest.kept, events + rest.events, rest.exited)
  }

  ghost predicate Served(events: seq<Event>, fd: nat) {
    exists e <- events :: e.fd == fd
  }

  ghost predicate Left(events: seq<Event>, fd: nat) {
    Departed(fd) in events
  }

  function Fds(events: seq<Event>): (r: seq<nat>)
    ensures |r| == |events|
    ensures forall k :: 0 <= k < |r| ==> r[k] == events[k].fd
  {
    seq(|events|, k requires 0 <= k < |events| => events[k].fd)
  }

  ghost function Gone(events: seq<Event>): set<nat> {
    set e | e in events && e.Departed? :: e.fd
  }

  /** `isRunning` is cleared by any "stop" seen during the scan; the scan itself goes on. */
  predicate Stops(events: seq<Event>) {
    exists e <- events :: e.StopRequested?
  }

  lemma StopsAppend(a: seq<Event>, b: seq<Event>)
    ensures Stops(a + b) == (Stops(a) || Stops(b))
  {
    assert forall e :: e in a + b <==> e in a || e in b;
  }

  /** The elements of s that belong to `keep`, in the order of s. */
  ghost function Only(s: seq<nat>, keep: set<nat>): seq<nat> {
    if s == [] then [] else (if s[0] in keep then [s[0]] else []) + Only(s[1..], keep)
  }

  lemma {:induction false} OnlyAgrees(s: seq<nat>, a: set<nat>, b: set<nat>)
    requires forall x <- s :: x in a <==> x in b
    ensures Only(s, a) == Only(s, b)
  {
    if s != [] {
      OnlyAgrees(s[1..], a, b);
    }
  }

  // ---- What one scan guarantees ----

  /** Every event belongs to a listed, ready client and answers what that client has sent. */
  lemma EventsComeFromReadyClients(cs: seq<nat>, ready: set<nat>, reply: nat -> Reply)
    ensures forall e <- Scan(cs, ready, reply).events ::
              e.fd in cs && e.fd in ready && Answers(e, reply(e.fd)) && !Fatal(reply(e.fd))
  {
    hide Scan, Handle, Fatal, Answers;
    EventsAreHandled(cs, ready, reply);
    forall e | e in Scan(cs, ready, reply).events
      ensures Answers(e, reply(e.fd)) && !Fatal(reply(e.fd))
    {
      HandleMeans(e.fd, reply(e.fd));
    }
  }

  /** Every event is what handling a listed, ready client produces. */
  lemma {:induction false} EventsAreHandled(cs: seq<nat>, ready: set<nat>, reply: nat -> Reply)
    ensures forall e <- Scan(cs, ready, reply).events ::
              e.fd in cs && e.fd in ready && Handle(e.fd, reply(e.fd)) == Serve(e)
  {
    if cs != [] {
      EventsAreHandled(cs[1..], ready, reply);
      if |cs| > 1 {
        EventsAreHandled(cs[2..], ready, reply);
      }
    }
  }

  lemma {:induction false} OnlyNoDup(s: seq<nat>, keep: set<nat>)
    requires NoDup(s)
    ensures NoDup(Only(s, keep)) && forall x <- Only(s, keep) :: x in s && x in keep
    ensures keep == {} ==> Only(s, keep) == []
  {
    if s != [] {
      OnlyNoDup(s[1..], keep);
    }
  }

  lemma {:induction false} OnlyAll(s: seq<nat>, keep: set<nat>)
    requires forall x <- s :: x in keep
    ensures Only(s, keep) == s
  {
    if s != [] {
      OnlyAll(s[1..], keep);
    }
  }

  lemma FdsCons(e: Event, later: seq<Event>)
    ensures Fds([e] + later) == [e.fd] + Fds(later)
    ensures Elems(Fds([e] + later)) == {e.fd} + Elems(Fds(later))
    ensures Gone([e] + later) == (if e.Departed? then {e.fd} else {}) + Gone(later)
  {
    assert Fds([e] + later) == [e.fd] + Fds(later);
  }

  lemma FdsWithin(events: seq<Event>, cs: seq<nat>)
    requires forall e <- events :: e.fd in cs
    ensures Elems(Fds(events)) <= Elems(cs) && Gone(events) <= Elems(cs)
  {
  }

  /** How the scan's first step stands to the list: what it examined, what it keeps, what is left. */
  ghost predicate StepShape(cs: seq<nat>, t: seq<nat>, first: seq<Event>, front: seq<nat>) {
    && cs != []
    && (first == [] || (|first| == 1 && first[0].fd == cs[0]))
    && if first != [] && first[0].Departed?
       then t == cs[if |cs| > 1 then 2 else 1..] && front == cs[1..|cs| - |t|]
       else t == cs[1..] && front == [cs[0]]
  }

  /** How one step of the scan extends the outcome of the rest. */
  lemma ScanStep(cs: seq<nat>, ready: set<nat>, reply: nat -> Reply)
      returns (t: seq<nat>, first: seq<Event>, front: seq<nat>)
    requires cs != []
    requires cs[0] in ready ==> Handle(cs[0], reply(cs[0])).Serve?
    ensures StepShape(cs, t, first, front)
    ensures var r, later := Scan(cs, ready, reply), Scan(t, ready, reply);
            r.events == first + later.events && r.exited == later.exited && r.kept == front + later.kept
  {
    first := if cs[0] in ready then [Handle(cs[0], reply(cs[0])).event] else [];
    if first != [] && first[0].Departed? {
      t := cs[if |cs| > 1 then 2 else 1..];
      front := cs[1..|cs| - |t|];
    } else {
      t, front := cs[1..], [cs[0]];
    }
  }

  /** The order of service is the order of the list, and no client is served twice. */
  lemma {:induction false} ServedInListOrder(cs: seq<nat>, ready: set<nat>, reply: nat -> Reply)
    requires NoDup(cs)
    ensures var fds := Fds(Scan(cs, ready, reply).events);
            fds == Only(cs, Elems(fds)) && NoDup(fds)
  {
    var events := Scan(cs, ready, reply).events;
    OnlyNoDup(cs, Elems(Fds(events)));
    if cs != [] && (cs[0] in ready ==> Handle(cs[0], reply(cs[0])).Serve?) {
      var t, first, front := ScanStep(cs, ready, reply);
      ServedInListOrder(t, ready, reply);
      EventsAreHandled(t, ready, reply);
      PrependServed(cs, t, first, front, Scan(t, ready, reply).events);
    } else {
      assert Elems(Fds(events)) == {};
    }
  }

  lemma PrependServed(cs: seq<nat>, t: seq<nat>, first: seq<Event>, front: seq<nat>, later: seq<Event>)
    requires NoDup(cs) && StepShape(cs, t, first, front)
    requires forall e <- later :: e.fd in t
    requires Fds(later) == Only(t, Elems(Fds(later)))
    ensures Fds(first + later) == Only(cs, Elems(Fds(first + later)))
  {
    var served, servedLater := Elems(Fds(first + later)), Elems(Fds(later));
    FdsAppend(first, later);
    assert served == (if first == [] then {} else {cs[0]}) + servedLater;
    assert servedLater <= Elems(t) by {
      FdsWithin(later, t);
    }
    assert cs[0] !in Elems(t);
    OnlyPrepend(cs, t, if first == [] then [] else [cs[0]], served, servedLater);
  }

  /** Selecting from a list whose first one or two elements are treated apart. */
  lemma OnlyPrepend(cs: seq<nat>, t: seq<nat>, front: seq<nat>, keep: set<nat>, keepLater: set<nat>)
    requires cs != [] && |t| < |cs| <= |t| + 2 && t == cs[|cs| - |t|..]
    requires forall x <- t :: x in keep <==> x in keepLater
    requires front == (if cs[0] in keep then [cs[0]] else [])
                      + (if |cs| == |t| + 2 && cs[1] in keep then [cs[1]] else [])
    ensures Only(cs, keep) == front + Only(t, keepLater)
  {
    var head := cs[..|cs| - |t|];
    assert cs == head + t;
    SplitOnly(head, t, keep, keepLater);
    OnlyShort(head, keep);
  }

  lemma OnlyShort(s: seq<nat>, keep: set<nat>)
    requires 1 <= |s| <= 2
    ensures Only(s, keep) == (if s[0] in keep then [s[0]] else []) + (if |s| == 2 && s[1] in keep then [s[1]] else [])
  {
    assert s[1..] == [] || Only(s[1..], keep) == if s[1] in keep then [s[1]] else [];
  }

  lemma {:induction false} SplitOnly(s: seq<nat>, t: seq<nat>, keep: set<nat>, keepLater: set<nat>)
    requires forall x <- t :: x in keep <==> x in keepLater
    ensures Only(s + t, keep) == Only(s, keep) + Only(t, keepLater)
  {
    if s == [] {
      assert s + t == t;
      OnlyAgrees(t, keep, keepLater);
    } else {
      assert (s + t)[1..] == s[1..] + t;
      SplitOnly(s[1..], t, keep, keepLater);
      var a := if s[0] in keep then [s[0]] else [];
      var x, y := Only(s[1..], keep), Only(t, keepLater);
      assert Only(s + t, keep) == a + Only(s[1..] + t, keep);
      assert a + (x + y) == (a + x) + y;
    }
  }

  lemma FdsAppend(first: seq<Event>, later: seq<Event>)
    requires |first| <= 1
    ensures Fds(first + later) == (if first == [] then [] else [first[0].fd]) + Fds(later)
    ensures Elems(Fds(first + later)) == (if first == [] then {} else {first[0].fd}) + Elems(Fds(later))
  {
    if first == [] {
      assert first + later == later;
    } else {
      assert first + later == [first[0]] + later;
      FdsCons(first[0], later);
    }
  }

  /** Exactly the clients that departed are erased; the others keep their order. */
  lemma {:induction false} SurvivorsKeepOrder(cs: seq<nat>, ready: set<nat>, reply: nat -> Reply)
    requires NoDup(cs)
    ensures var r := Scan(cs, ready, reply);
            r.kept == Only(cs, Elems(cs) - Gone(r.events))
  {
    if cs != [] && (cs[0] in ready ==> Handle(cs[0], reply(cs[0])).Serve?) {
      var t, first, front := ScanStep(cs, ready, reply);
      SurvivorsKeepOrder(t, ready, reply);
      EventsAreHandled(t, ready, reply);
      PrependKept(cs, t, first, front, Scan(t, ready, reply).events);
    } else {
      OnlyAll(cs, Elems(cs) - Gone(Scan(cs, ready, reply).events));
    }
  }

  lemma PrependKept(cs: seq<nat>, t: seq<nat>, first: seq<Event>, front: seq<nat>, later: seq<Event>)
    requires NoDup(cs) && StepShape(cs, t, first, front)
    requires forall e <- later :: e.fd in t
    ensures Only(cs, Elems(cs) - Gone(first + later)) == front + Only(t, Elems(t) - Gone(later))
  {
    var kept, keptLater := Elems(cs) - Gone(first + later), Elems(t) - Gone(later);
    GoneAppend(first, later);
    assert Gone(later) <= Elems(t) by {
      FdsWithin(later, t);
    }
    assert cs[0] in Elems(cs) && cs[0] !in Elems(t);
    if |cs| == |t| + 2 {
      assert cs[1] in Elems(cs) && cs[1] !in Elems(t);
    }
    OnlyPrepend(cs, t, front, kept, keptLater);
  }

  lemma GoneAppend(first: seq<Event>, later: seq<Event>)
    requires |first| <= 1
    ensures Gone(first + later) == (if first != [] && first[0].Departed? then {first[0].fd} else {}) + Gone(later)
  {
    if first == [] {
      assert first + later == later;
    } else {
      assert first + later == [first[0]] + later;
      FdsCons(first[0], later);
    }
  }

  /** In a completed scan the head, if ready, has been served. */
  lemma HeadServed(cs: seq<nat>, ready: set<nat>, reply: nat -> Reply)
    requires cs != [] && !Scan(cs, ready, reply).exited
    ensures cs[0] in ready ==> Handle(cs[0], reply(cs[0])).Serve? && Served(Scan(cs, ready, reply).events, cs[0])
  {
    hide CutAtNul;
    if cs[0] in ready {
      assert Scan(cs, ready, reply).events[0].fd == cs[0];
    }
  }

  /**
   * In a completed scan a ready client is passed over exactly when the client just before it
   * departed.
   */
  lemma {:induction false} PassedOverIffPredecessorLeft(cs: seq<nat>, ready: set<nat>, reply: nat -> Reply, i: nat)
    requires NoDup(cs) && i < |cs| && cs[i] in ready
    requires !Scan(cs, ready, reply).exited
    ensures var events := Scan(cs, ready, reply).events;
            !Served(events, cs[i]) <==> i > 0 && Left(events, cs[i - 1])
  {
    hide Scan, Handle;
    HeadServed(cs, ready, reply);
    if i > 0 {
      var t, first, front := ScanStep(cs, ready, reply);
      var gone, later := |cs| - |t|, Scan(t, ready, reply).events;
      EventsAreHandled(t, ready, reply);
      if i >= gone {
        assert t[i - gone] == cs[i];
        PassedOverIffPredecessorLeft(t, ready, reply, i - gone);
      }
      PassedOverLater(cs, t, first, front, later, i);
    }
  }

  lemma PassedOverLater(cs: seq<nat>, t: seq<nat>, first: seq<Event>, front: seq<nat>, later: seq<Event>, i: nat)
    requires NoDup(cs) && StepShape(cs, t, first, front) && 0 < i < |cs|
    requires forall e <- later :: e.fd in t
    requires var k := i - (|cs| - |t|);
             k >= 0 ==> (!Served(later, cs[i]) <==> k > 0 && Left(later, t[k - 1]))
    ensures !Served(first + later, cs[i]) <==> Left(first + later, cs[i - 1])
  {
    var k := i - (|cs| - |t|);
    assert forall e :: e in first + later <==> e in first || e in later;
    assert forall j :: |cs| - |t| <= j < |cs| ==> cs[j] == t[j - (|cs| - |t|)];
    if k < 0 {
      assert first[0] == Departed(cs[0]) && i == 1;
      assert cs[1] !in t;
    } else if k == 0 {
      assert cs[i - 1] !in t;
      if Served(later, cs[i]) {
        ServedAppend(first, later, cs[i]);
      }
    } else if Served(later, cs[i]) {
      ServedAppend(first, later, cs[i]);
    }
  }

  /** The scan reaches the client at index i and leaves the process there. */
  ghost predicate LeavesAt(cs: seq<nat>, ready: set<nat>, reply: nat -> Reply, events: seq<Event>, i: nat) {
    && i < |cs| && cs[i] in ready && Fatal(reply(cs[i]))
    && !(i > 0 && Left(events, cs[i - 1]))
  }

  /**
   * The process leaves during the scan exactly when there is a ready client, not passed over, whose
   * reply is fatal; then all that was served stands before that client.
   */
  lemma LeavesIffFatal(cs: seq<nat>, ready: set<nat>, reply: nat -> Reply)
    requires NoDup(cs)
    ensures var r := Scan(cs, ready, reply);
            && (r.exited <==> exists i: nat :: LeavesAt(cs, ready, reply, r.events, i))
            && (r.exited ==>
                  exists i: nat :: LeavesAt(cs, ready, reply, r.events, i) && forall e <- r.events :: e.fd in cs[..i])
  {
    hide Scan, Handle, Fatal, NoDup;
    var r := Scan(cs, ready, reply);
    if r.exited {
      var i := FatalIndex(cs, ready, reply);
    } else if i: nat :| LeavesAt(cs, ready, reply, r.events, i) {
      PassedOverIffPredecessorLeft(cs, ready, reply, i);
      EventsAreHandled(cs, ready, reply);
      HandleMeans(cs[i], reply(cs[i]));
      assert false;
    }
  }

  lemma HeadExits(cs: seq<nat>, ready: set<nat>, reply: nat -> Reply)
    ensures cs == [] ==> !Scan(cs, ready, reply).exited
    ensures cs != [] && cs[0] in ready && Handle(cs[0], reply(cs[0])).Exit? ==>
              Scan(cs, ready, reply) == Outcome(cs, [], true)
  {
    hide Handle;
  }

  lemma {:induction false} FatalIndex(cs: seq<nat>, ready: set<nat>, reply: nat -> Reply) returns (i: nat)
    requires NoDup(cs) && Scan(cs, ready, reply).exited
    ensures var events := Scan(cs, ready, reply).events;
            LeavesAt(cs, ready, reply, events, i) && forall e <- events :: e.fd in cs[..i]
  {
    hide Scan, Handle, Fatal, Answers;
    HeadExits(cs, ready, reply);
    HandleMeans(cs[0], reply(cs[0]));
    if cs[0] in ready && Handle(cs[0], reply(cs[0])).Exit? {
      i := 0;
    } else {
      var t, first, front := ScanStep(cs, ready, reply);
      var later := Scan(t, ready, reply).events;
      var j := FatalIndex(t, ready, reply);
      i := |cs| - |t| + j;
      assert t[j] == cs[i] && t[..j] == cs[|cs| - |t|..i];
      EventsAreHandled(t, ready, reply);
      ShiftedFatal(cs, t, ready, reply, first, front, later, j);
    }
  }

  lemma ShiftedFatal(cs: seq<nat>, t: seq<nat>, ready: set<nat>, reply: nat -> Reply, first: seq<Event>,
      front: seq<nat>, later: seq<Event>, j: nat)
    requires NoDup(cs) && StepShape(cs, t, first, front)
    requires forall e <- later :: e.fd in t
    requires LeavesAt(t, ready, reply, later, j) && forall e <- later :: e.fd in t[..j]
    ensures var i := |cs| - |t| + j;
            LeavesAt(cs, ready, reply, first + later, i) && forall e <- first + later :: e.fd in cs[..i]
  {
    hide Fatal;
    var i := |cs| - |t| + j;
    assert t[j] == cs[i];
    forall e | e in first + later
      ensures e.fd in cs[..i]
    {
      if e in first {
        assert cs[..i][0] == cs[0];
      } else {
        var k :| 0 <= k < j && t[k] == e.fd;
        assert cs[..i][|cs| - |t| + k] == e.fd;
      }
    }
  }

  /** x stands before position i of the list. */
  ghost predicate Ahead(list: seq<nat>, x: nat, i: nat) {
    exists j: nat :: j < i && j < |list| && list[j] == x
  }

  lemma AheadPrepend(front: seq<nat>, list: seq<nat>, x: nat, i: nat, bound: nat)
    requires Ahead(list, x, i) && |front| + i <= bound
    ensures Ahead(front + list, x, bound)
  {
    var j: nat :| j < i && j < |list| && list[j] == x;
    assert (front + list)[|front| + j] == x;
  }

  lemma ServedAppend(first: seq<Event>, later: seq<Event>, fd: nat)
    requires Served(later, fd)
    ensures Served(first + later, fd)
  {
    var e :| e in later && e.fd == fd;
    assert e in first + later;
  }

  /** A ready client is served now, or stands strictly nearer the head afterwards. */
  lemma {:induction false} ServedOrNearer(cs: seq<nat>, ready: set<nat>, reply: nat -> Reply, i: nat)
    requires i < |cs| && cs[i] in ready
    requires !Scan(cs, ready, reply).exited
    ensures var r := Scan(cs, ready, reply);
            Served(r.events, cs[i]) || Ahead(r.kept, cs[i], i)
  {
    var t, first, front := ScanStep(cs, ready, reply);
    var gone := |cs| - |t|;
    if i == 0 {
      assert Scan(cs, ready, reply).events[0].fd == cs[0];
    } else if i < gone {
      assert Scan(cs, ready, reply).kept[0] == cs[1];
    } else {
      var later := Scan(t, ready, reply);
      ServedOrNearer(t, ready, reply, i - gone);
      assert t[i - gone] == cs[i];
      if Served(later.events, cs[i]) {
        ServedAppend(first, later.events, cs[i]);
      } else {
        AheadPrepend(front, later.kept, cs[i], i - gone, i);
      }
    }
  }

  /** A newcomer that was not in the ready set is never touched by the scan of its own round. */
  lemma {:induction false} NewcomerUntouched(cs: seq<nat>, newcomer: nat, ready: set<nat>, reply: nat -> Reply)
    requires newcomer !in ready
    ensures var r := Scan(cs, ready, reply);
            Scan(cs + [newcomer], ready, reply) == r.(kept := r.kept + [newcomer])
  {
    var all := cs + [newcomer];
    if cs == [] {
      assert all == [newcomer];
    } else if cs[0] in ready && reply(cs[0]).EndOfStream? {
      if |cs| > 1 {
        assert all[2..] == cs[2..] + [newcomer];
        NewcomerUntouched(cs[2..], newcomer, ready, reply);
        var later := Scan(cs[2..], ready, reply);
        assert [cs[1]] + (later.kept + [newcomer]) == ([cs[1]] + later.kept) + [newcomer];
      } else {
        assert all == [cs[0], newcomer] && Scan(all[2..], ready, reply) == Outcome([], [], false);
      }
    } else {
      assert all[1..] == cs[1..] + [newcomer];
      NewcomerUntouched(cs[1..], newcomer, ready, reply);
      var later := Scan(cs[1..], ready, reply);
      assert [cs[0]] + (later.kept + [newcomer]) == ([cs[0]] + later.kept) + [newcomer];
    }
  }

  /** With nobody ready the scan does nothing. */
  lemma {:induction false} IdleScan(cs: seq<nat>, ready: set<nat>, reply: nat -> Reply)
    requires forall c <- cs :: c !in ready
    ensures Scan(cs, ready, reply) == Outcome(cs, [], false)
  {
    if cs != [] {
      IdleScan(cs[1..], ready, reply);
      assert cs == [cs[0]] + cs[1..];
    }
  }

  /** A scan looks at the ready set only through the listed clients. */
  lemma {:induction false} SameReadySets(cs: seq<nat>, a: set<nat>, b: set<nat>, reply: nat -> Reply)
    requires forall c <- cs :: c in a <==> c in b
    ensures Scan(cs, a, reply) == Scan(cs, b, reply)
  {
    if cs != [] {
      SameReadySets(cs[1..], a, b, reply);
      if |cs| > 1 {
        SameReadySets(cs[2..], a, b, reply);
      }
    }
  }

  // ---- The loop that erases from the list it is indexing ----

  function Todo(list: seq<nat>, i: nat): seq<nat> {
    if i <= |list| then list[i..] else []
  }

  /** The loop stands at index i of `list`, has seen `events`, and will reach what Scan promises. */
  ghost predicate Progress(all: seq<nat>, ready: set<nat>, reply: nat -> Reply, list: seq<nat>, i: nat,
      events: seq<Event>) {
    && i <= |list| + 1
    && Scan(all, ready, reply)
       == Before(list[..|list| - |Todo(list, i)|], events, Scan(Todo(list, i), ready, reply))
  }

  lemma ProgressStart(all: seq<nat>, ready: set<nat>, reply: nat -> Reply)
    ensures Progress(all, ready, reply, all, 0, [])
  {
    var r := Scan(all, ready, reply);
    assert Todo(all, 0) == all && [] + r.kept == r.kept && [] + r.events == r.events;
  }

  lemma BeforeBefore(kept: seq<nat>, events: seq<Event>, front: seq<nat>, first: seq<Event>, rest: Outcome)
    ensures Before(kept, events, Before(front, first, rest)) == Before(kept + front, events + first, rest)
  {
    assert kept + (front + rest.kept) == (kept + front) + rest.kept;
    assert events + (first + rest.events) == (events + first) + rest.events;
  }

  lemma ScanHead(cs: seq<nat>, ready: set<nat>, reply: nat -> Reply, first: seq<Event>)
    requires cs != []
    requires var h := Handle(cs[0], reply(cs[0]));
             cs[0] in ready ==> h.Serve? && !h.event.Departed?
    requires first == if cs[0] in ready then [Handle(cs[0], reply(cs[0])).event] else []
    ensures Scan(cs, ready, reply) == Before([cs[0]], first, Scan(cs[1..], ready, reply))
  {
    hide Handle;
  }

  lemma ProgressStays(all: seq<nat>, ready: set<nat>, reply: nat -> Reply, list: seq<nat>, i: nat,
      events: seq<Event>, first: seq<Event>)
    requires Progress(all, ready, reply, list, i, events) && i < |list|
    requires var h := Handle(list[i], reply(list[i]));
             list[i] in ready ==> h.Serve? && !h.event.Departed?
    requires first == if list[i] in ready then [Handle(list[i], reply(list[i])).event] else []
    ensures Progress(all, ready, reply, list, i + 1, events + first)
  {
    hide Handle, Scan;
    var later := Scan(list[i + 1..], ready, reply);
    assert list[i..][1..] == list[i + 1..];
    ScanHead(list[i..], ready, reply, first);
    BeforeBefore(list[..i], events, [list[i]], first, later);
    assert list[..i] + [list[i]] == list[..i + 1];
  }

  lemma ProgressErases(all: seq<nat>, ready: set<nat>, reply: nat -> Reply, list: seq<nat>, i: nat, events: seq<Event>)
    requires Progress(all, ready, reply, list, i, events) && i < |list|
    requires list[i] in ready && Handle(list[i], reply(list[i])) == Serve(Departed(list[i]))
    ensures Progress(all, ready, reply, EraseAt(list, i), i + 1, events + [Departed(list[i])])
  {
    hide Handle;
    var shorter, now := EraseAt(list, i), list[i..];
    var t := Todo(shorter, i + 1);
    var passedOver := if |now| > 1 then [now[1]] else [];
    assert t == now[1 + |passedOver|..];
    assert Scan(now, ready, reply) == Before(passedOver, [Departed(list[i])], Scan(t, ready, reply));
    BeforeBefore(list[..i], events, passedOver, [Departed(list[i])], Scan(t, ready, reply));
    assert list[..i] + passedOver == shorter[..|shorter| - |t|];
  }

  lemma ProgressExits(all: seq<nat>, ready: set<nat>, reply: nat -> Reply, list: seq<nat>, i: nat, events: seq<Event>)
    requires Progress(all, ready, reply, list, i, events) && i < |list|
    requires list[i] in ready && Handle(list[i], reply(list[i])).Exit?
    ensures Scan(all, ready, reply) == Outcome(list, events, true)
  {
    assert list[..i] + list[i..] == list;
  }

  lemma ProgressEnds(all: seq<nat>, ready: set<nat>, reply: nat -> Reply, list: seq<nat>, i: nat, events: seq<Event>)
    requires Progress(all, ready, reply, list, i, events) && i >= |list|
    ensures Scan(all, ready, reply) == Outcome(list, events, false)
  {
    assert Todo(list, i) == [] && list[..|list|] == list;
  }
}

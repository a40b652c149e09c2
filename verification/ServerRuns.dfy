/** Whole runs of an echo server: one scan after another, with arrivals in between. */
module ServerRuns {
  import opened Bytes
  import opened Lists
  import opened Posix
  import opened ReadinessScan

  /** What one loop iteration sees: who is ready, who has just been accepted, what the sockets answer. */
  datatype Turn = Turn(ready: set<nat>, arrivals: seq<nat>, reply: nat -> Reply)

  /** The outcomes of consecutive iterations; the loop ends at a "stop" or when the process exits. */
  function Play(cs: seq<nat>, turns: seq<Turn>): (log: seq<Outcome>)
    ensures |log| <= |turns|
    decreases turns
  {
    if turns == [] then []
    else
      var r := Scan(cs + turns[0].arrivals, turns[0].ready, turns[0].reply);
      [r] + if Ends(r) then [] else Play(r.kept, turns[1..])
  }

  predicate Ends(r: Outcome) {
    r.exited || Stops(r.events)
  }

  /** The client list at the head of iteration k. */
  function ListAt(cs: seq<nat>, log: seq<Outcome>, k: nat): seq<nat>
    requires k <= |log|
  {
    if k == 0 then cs else log[k - 1].kept
  }

  /**
   * Bounded waiting: a client at index i that is reported ready for as long as it is listed is
   * served within i + 1 iterations, whoever arrives or departs.
   */
  lemma {:induction false} BoundedWaiting(cs: seq<nat>, turns: seq<Turn>, i: nat)
    requires i < |cs| && i < |Play(cs, turns)|
    requires forall k :: 0 <= k <= i ==> !Play(cs, turns)[k].exited
    requires forall k :: 0 <= k <= i && cs[i] in ListAt(cs, Play(cs, turns), k) ==> cs[i] in turns[k].ready
    ensures exists k :: 0 <= k <= i && Served(Play(cs, turns)[k].events, cs[i])
    decreases turns
  {
    var log := Play(cs, turns);
    var all := cs + turns[0].arrivals;
    assert cs[i] in ListAt(cs, log, 0) && all[i] == cs[i];
    assert !log[0].exited && log[0] == Scan(all, turns[0].ready, turns[0].reply);
    ServedOrNearer(all, turns[0].ready, turns[0].reply, i);
    if !Served(log[0].events, cs[i]) {
      var kept, later := log[0].kept, Play(log[0].kept, turns[1..]);
      var j: nat :| j < i && j < |kept| && kept[j] == cs[i];
      assert log == [log[0]] + later;
      forall k | 0 <= k <= j
        ensures !later[k].exited
        ensures kept[j] in ListAt(kept, later, k) ==> kept[j] in turns[1..][k].ready
      {
        assert later[k] == log[k + 1];
        assert ListAt(kept, later, k) == ListAt(cs, log, k + 1);
      }
      BoundedWaiting(kept, turns[1..], j);
      var k :| 0 <= k <= j && Served(later[k].events, kept[j]);
      assert log[k + 1] == later[k];
    }
  }

  /** A schedule that makes the client at index i wait: each time, its current predecessor departs. */
  ghost function Starve(cs: seq<nat>, i: nat): (turns: seq<Turn>)
    requires i < |cs|
    ensures |turns| == i + 1
    decreases i
  {
    if i == 0 then [Turn({cs[0]}, [], _ => EndOfStream)]
    else [Turn({cs[i - 1], cs[i]}, [], _ => EndOfStream)] + Starve(EraseAt(cs, i - 1), i - 1)
  }

  lemma {:induction false} PredecessorLeaves(cs: seq<nat>, i: nat, reply: nat -> Reply)
    requires NoDup(cs) && 0 < i < |cs|
    requires forall fd :: reply(fd) == EndOfStream
    ensures Scan(cs, {cs[i - 1], cs[i]}, reply) == Outcome(EraseAt(cs, i - 1), [Departed(cs[i - 1])], false)
  {
    hide Scan, Handle, EraseAt;
    if i == 1 {
      HeadLeaves(cs, reply);
    } else {
      PredecessorLeaves(cs[1..], i - 1, reply);
      ScanHead(cs, {cs[i - 1], cs[i]}, reply, []);
      ErasedTail(cs, i - 1);
    }
  }

  lemma ErasedTail(cs: seq<nat>, k: nat)
    requires 0 < k < |cs|
    ensures [cs[0]] + EraseAt(cs[1..], k - 1) == EraseAt(cs, k)
  {
  }

  lemma HeadLeaves(cs: seq<nat>, reply: nat -> Reply)
    requires NoDup(cs) && |cs| > 1 && reply(cs[0]) == EndOfStream
    ensures Scan(cs, {cs[0], cs[1]}, reply) == Outcome(EraseAt(cs, 0), [Departed(cs[0])], false)
  {
    IdleScan(cs[2..], {cs[0], cs[1]}, reply);
    assert [cs[1]] + cs[2..] == EraseAt(cs, 0);
  }

  /** The log of a run in which the client c is ready every time and served only in the last iteration. */
  ghost predicate ServedLast(log: seq<Outcome>, turns: seq<Turn>, c: nat) {
    && |log| == |turns| > 0
    && (forall k :: 0 <= k < |log| ==> !log[k].exited && c in turns[k].ready)
    && (forall k :: 0 <= k < |log| - 1 ==> !Served(log[k].events, c))
    && Served(log[|log| - 1].events, c)
  }

  lemma ServedLastPrepend(first: Outcome, turn: Turn, log: seq<Outcome>, turns: seq<Turn>, c: nat)
    requires ServedLast(log, turns, c)
    requires !first.exited && c in turn.ready && !Served(first.events, c)
    ensures ServedLast([first] + log, [turn] + turns, c)
  {
  }

  /** The bound is exact: for every list and every index there is a run that needs all i + 1 iterations. */
  lemma {:induction false} BoundIsTight(cs: seq<nat>, i: nat)
    requires NoDup(cs) && i < |cs|
    ensures |Starve(cs, i)| == i + 1 && ServedLast(Play(cs, Starve(cs, i)), Starve(cs, i), cs[i])
    decreases i
  {
    if i == 0 {
      StarvedAtHead(cs);
    } else {
      var fewer := EraseAt(cs, i - 1);
      ErasePreservesNoDup(cs, i - 1);
      BoundIsTight(fewer, i - 1);
      StarvedOnce(cs, i, Starve(fewer, i - 1));
    }
  }

  lemma StarvedAtHead(cs: seq<nat>)
    requires NoDup(cs) && cs != []
    ensures ServedLast(Play(cs, Starve(cs, 0)), Starve(cs, 0), cs[0])
  {
    var turn := Turn({cs[0]}, [], _ => EndOfStream);
    OneReady(cs, turn.reply);
    var r := Scan(cs, {cs[0]}, turn.reply);
    assert r.events[0].fd == cs[0];
    assert cs + [] == cs && Play(cs, [turn]) == [r];
  }

  lemma StarvedOnce(cs: seq<nat>, i: nat, rest: seq<Turn>)
    requires NoDup(cs) && 0 < i < |cs| && rest == Starve(EraseAt(cs, i - 1), i - 1)
    requires ServedLast(Play(EraseAt(cs, i - 1), rest), rest, cs[i])
    ensures ServedLast(Play(cs, Starve(cs, i)), Starve(cs, i), cs[i])
  {
    var turn := Turn({cs[i - 1], cs[i]}, [], _ => EndOfStream);
    var fewer := EraseAt(cs, i - 1);
    PredecessorLeaves(cs, i, turn.reply);
    var first := Outcome(fewer, [Departed(cs[i - 1])], false);
    assert !Ends(first) && !Served(first.events, cs[i]);
    PlayCons(cs, turn, rest);
    assert Starve(cs, i) == [turn] + rest;
    assert Play(cs, [turn] + rest) == [first] + Play(fewer, rest);
    ServedLastPrepend(first, turn, Play(fewer, rest), rest, cs[i]);
  }

  lemma PlayCons(cs: seq<nat>, turn: Turn, rest: seq<Turn>)
    requires turn.arrivals == []
    ensures var r := Scan(cs, turn.ready, turn.reply);
            Play(cs, [turn] + rest) == [r] + if Ends(r) then [] else Play(r.kept, rest)
  {
    assert cs + [] == cs;
    assert ([turn] + rest)[1..] == rest;
  }

  lemma OneReady(cs: seq<nat>, reply: nat -> Reply)
    requires NoDup(cs) && cs != [] && reply(cs[0]) == EndOfStream
    ensures var r := Scan(cs, {cs[0]}, reply); !r.exited && r.events == [Departed(cs[0])]
  {
    IdleScan(if |cs| > 1 then cs[2..] else [], {cs[0]}, reply);
  }

  /** A run that has not ended goes on with one more iteration. */
  lemma {:induction false} PlayAppend(cs: seq<nat>, turns: seq<Turn>, turn: Turn)
    requires |Play(cs, turns)| == |turns|
    requires turns != [] ==> !Ends(Play(cs, turns)[|turns| - 1])
    ensures var log := Play(cs, turns);
            Play(cs, turns + [turn])
            == log + [Scan(ListAt(cs, log, |turns|) + turn.arrivals, turn.ready, turn.reply)]
    decreases turns
  {
    if turns == [] {
      assert turns + [turn] == [turn];
    } else {
      var r := Scan(cs + turns[0].arrivals, turns[0].ready, turns[0].reply);
      var later := Play(r.kept, turns[1..]);
      assert (turns + [turn])[1..] == turns[1..] + [turn];
      assert Play(cs, turns) == [r] + later;
      PlayAppend(r.kept, turns[1..], turn);
    }
  }

  // ---- The run that the kernel's offers determine ----

  /**
   * What the kernel offers in one iteration: whether `select` or `poll` succeeds, which descriptors
   * it reports, whether `accept` succeeds and what the sockets answer. `keepsListener` is false if an
   * iteration that empties the client list would leave the listener unwatched.
   */
  datatype Offer = Offer(ok: bool, ready: nat -> bool, acceptOk: bool, reply: nat -> Reply, keepsListener: bool)

  /** The descriptors of a server that are not clients. */
  datatype Host = Host(inherited: set<nat>, listenfd: nat)

  ghost function ReadyClients(cs: seq<nat>, offer: Offer): set<nat> {
    set c | c in cs && offer.ready(c)
  }

  /** The turn a server makes of an offer, unless it has to exit; a deaf server does not see its listener. */
  ghost function TurnOf(host: Host, cs: seq<nat>, deaf: bool, offer: Offer): Option<Turn> {
    if !offer.ok then None
    else if deaf || !offer.ready(host.listenfd) then Some(Turn(ReadyClients(cs, offer), [], offer.reply))
    else if !offer.acceptOk then None
    else
      var newcomer := LowestUnused(host.inherited + {host.listenfd} + Elems(cs));
      Some(Turn(ReadyClients(cs, offer), [newcomer], offer.reply))
  }

  /** The iteration over the list `all` emptied it, and the listener went with it. */
  ghost predicate Loses(offer: Offer, all: seq<nat>, r: Outcome) {
    r.kept == [] && all != [] && !offer.keepsListener
  }

  ghost function Run(host: Host, cs: seq<nat>, deaf: bool, offers: seq<Offer>): (turns: seq<Turn>)
    ensures |turns| <= |offers|
    decreases offers
  {
    if offers == [] then []
    else
      match TurnOf(host, cs, deaf, offers[0])
      case None => []
      case Some(turn) =>
        var r := Scan(cs + turn.arrivals, turn.ready, turn.reply);
        [turn] + if Ends(r) then []
                 else Run(host, r.kept, deaf || Loses(offers[0], cs + turn.arrivals, r), offers[1..])
  }

  ghost predicate LosesAt(cs: seq<nat>, offers: seq<Offer>, turns: seq<Turn>, log: seq<Outcome>, k: nat) {
    && k < |log| && k < |turns| && k < |offers|
    && Loses(offers[k], ListAt(cs, log, k) + turns[k].arrivals, log[k])
  }

  /** The listener has been lost before iteration k. */
  ghost predicate LostBefore(cs: seq<nat>, offers: seq<Offer>, turns: seq<Turn>, log: seq<Outcome>, k: nat) {
    exists j: nat :: j < k && LosesAt(cs, offers, turns, log, j)
  }

  lemma LostBeforeShift(cs: seq<nat>, offers: seq<Offer>, turns: seq<Turn>, log: seq<Outcome>, k: nat)
    requires offers != [] && turns != [] && log != []
    ensures LostBefore(cs, offers, turns, log, k + 1)
            <==> LosesAt(cs, offers, turns, log, 0) || LostBefore(log[0].kept, offers[1..], turns[1..], log[1..], k)
  {
    forall j: nat
      ensures LosesAt(log[0].kept, offers[1..], turns[1..], log[1..], j) <==> LosesAt(cs, offers, turns, log, j + 1)
    {
      if j < |log| - 1 {
        assert ListAt(log[0].kept, log[1..], j) == ListAt(cs, log, j + 1);
      }
    }
    if j: nat :| j < k + 1 && LosesAt(cs, offers, turns, log, j) && j > 0 {
      assert LosesAt(log[0].kept, offers[1..], turns[1..], log[1..], j - 1);
    }
  }

  lemma LostBeforeAppend(cs: seq<nat>, offers: seq<Offer>, turns: seq<Turn>, log: seq<Outcome>, turn: Turn, r: Outcome)
    requires |turns| == |log| < |offers|
    ensures LostBefore(cs, offers, turns + [turn], log + [r], |turns| + 1)
            <==> LostBefore(cs, offers, turns, log, |turns|)
                 || Loses(offers[|turns|], ListAt(cs, log, |log|) + turn.arrivals, r)
  {
    var n := |turns|;
    assert ListAt(cs, log + [r], n) == ListAt(cs, log, n);
    forall j: nat | j < n
      ensures LosesAt(cs, offers, turns + [turn], log + [r], j) <==> LosesAt(cs, offers, turns, log, j)
    {
      assert ListAt(cs, log + [r], j) == ListAt(cs, log, j);
    }
    assert LosesAt(cs, offers, turns + [turn], log + [r], n)
      <==> Loses(offers[n], ListAt(cs, log, n) + turn.arrivals, r);
  }

  /** Iteration k of a run is the turn its offer calls for, and the run is no shorter than it must be. */
  ghost predicate TurnAt(host: Host, cs: seq<nat>, deaf: bool, offers: seq<Offer>, turns: seq<Turn>,
      log: seq<Outcome>, k: nat)
    requires |turns| == |log| <= |offers| && k <= |turns|
  {
    var list := ListAt(cs, log, k);
    var deafNow := deaf || LostBefore(cs, offers, turns, log, k);
    if k < |turns| then
      && TurnOf(host, list, deafNow, offers[k]) == Some(turns[k])
      && log[k] == Scan(list + turns[k].arrivals, turns[k].ready, turns[k].reply)
      && (k + 1 < |turns| ==> !Ends(log[k]))
    else
      k < |offers| ==> (log != [] && Ends(log[k - 1])) || TurnOf(host, list, deafNow, offers[k]).None?
  }

  lemma {:induction false} RunPlaysTurns(host: Host, cs: seq<nat>, deaf: bool, offers: seq<Offer>, k: nat)
    requires k <= |Run(host, cs, deaf, offers)|
    ensures var turns := Run(host, cs, deaf, offers);
            var log := Play(cs, turns);
            |log| == |turns| && TurnAt(host, cs, deaf, offers, turns, log, k)
    decreases offers
  {
    hide TurnOf, Scan, Loses;
    var turns := Run(host, cs, deaf, offers);
    var log := Play(cs, turns);
    if turns != [] {
      var turn := turns[0];
      var r := Scan(cs + turn.arrivals, turn.ready, turn.reply);
      var deafNext := deaf || Loses(offers[0], cs + turn.arrivals, r);
      assert log[0] == r;
      if !Ends(r) {
        var later := Run(host, r.kept, deafNext, offers[1..]);
        assert turns[1..] == later && log[1..] == Play(r.kept, later);
        RunPlaysTurns(host, r.kept, deafNext, offers[1..], if k == 0 then 0 else k - 1);
        if k > 0 {
          LostBeforeShift(cs, offers, turns, log, k - 1);
          assert LosesAt(cs, offers, turns, log, 0) <==> Loses(offers[0], cs + turn.arrivals, r);
          assert ListAt(r.kept, log[1..], k - 1) == ListAt(cs, log, k);
        }
      }
    }
  }

  /** The server hears its listener in iteration k, and a connection waits there. */
  ghost predicate Hears(host: Host, cs: seq<nat>, deaf: bool, offers: seq<Offer>, turns: seq<Turn>,
      log: seq<Outcome>, k: nat)
    requires k < |offers|
  {
    offers[k].ready(host.listenfd) && !deaf && !LostBefore(cs, offers, turns, log, k)
  }

  /**
   * What a run is. Iteration k has found select and accept succeed, and scans the list it found with
   * the newcomer at its end, the listed clients that are reported ready and the answers of their
   * sockets. The run goes on unless the process left or somebody said "stop", and it ends before its
   * offers do only so, or where select or accept failed.
   */
  lemma RunIsDetermined(host: Host, cs: seq<nat>, deaf: bool, offers: seq<Offer>, k: nat)
    requires k <= |Run(host, cs, deaf, offers)|
    ensures var turns := Run(host, cs, deaf, offers);
            var log := Play(cs, turns);
            && |log| == |turns| <= |offers|
            && var list := ListAt(cs, log, k);
            && (k < |turns| ==>
                  && offers[k].ok && (Hears(host, cs, deaf, offers, turns, log, k) ==> offers[k].acceptOk)
                  && turns[k].ready == (set c | c in list && offers[k].ready(c)) && turns[k].reply == offers[k].reply
                  && turns[k].arrivals == (if Hears(host, cs, deaf, offers, turns, log, k)
                                           then [LowestUnused(host.inherited + {host.listenfd} + Elems(list))] else [])
                  && log[k] == Scan(list + turns[k].arrivals, turns[k].ready, turns[k].reply)
                  && (k + 1 < |turns| ==> !log[k].exited && forall e <- log[k].events :: !e.StopRequested?))
            && (k == |turns| < |offers| ==>
                  || (k > 0 && (log[k - 1].exited || exists e <- log[k - 1].events :: e.StopRequested?))
                  || !offers[k].ok
                  || (Hears(host, cs, deaf, offers, turns, log, k) && !offers[k].acceptOk))
  {
    hide Run, Play, Scan, LostBefore;
    RunPlaysTurns(host, cs, deaf, offers, k);
  }

  /**
   * A connection that waits in iteration k is accepted in it exactly when no earlier iteration has
   * lost the listener; it gets the lowest number that is not in use.
   */
  lemma AcceptedIffListenerKept(host: Host, cs: seq<nat>, offers: seq<Offer>, k: nat)
    requires k < |Run(host, cs, false, offers)|
    ensures var turns := Run(host, cs, false, offers);
            var log := Play(cs, turns);
            && |log| == |turns|
            && (turns[k].arrivals != [] <==> offers[k].ready(host.listenfd) && !LostBefore(cs, offers, turns, log, k))
            && (turns[k].arrivals != [] ==>
                  turns[k].arrivals == [LowestUnused(host.inherited + {host.listenfd} + Elems(ListAt(cs, log, k)))])
  {
    hide LostBefore;
    RunPlaysTurns(host, cs, false, offers, k);
  }

  /** A lost listener is lost for good: every later iteration finds nothing ready and changes nothing. */
  lemma {:induction false} LostForGood(host: Host, cs: seq<nat>, offers: seq<Offer>, j: nat, k: nat)
    requires j < k < |Run(host, cs, false, offers)|
    requires LosesAt(cs, offers, Run(host, cs, false, offers), Play(cs, Run(host, cs, false, offers)), j)
    ensures var turns := Run(host, cs, false, offers);
            var log := Play(cs, turns);
            && |log| == |turns| && turns[k] == Turn({}, [], offers[k].reply) && log[k] == Outcome([], [], false)
    decreases k
  {
    hide LosesAt;
    var turns := Run(host, cs, false, offers);
    var log := Play(cs, turns);
    RunPlaysTurns(host, cs, false, offers, k);
    if k > j + 1 {
      LostForGood(host, cs, offers, j, k - 1);
    } else {
      assert log[j].kept == [] by { LostListIsEmpty(cs, offers, turns, log, j); }
    }
    assert LostBefore(cs, offers, turns, log, k);
    assert ListAt(cs, log, k) == [];
    assert turns[k].ready == {};
  }

  lemma LostListIsEmpty(cs: seq<nat>, offers: seq<Offer>, turns: seq<Turn>, log: seq<Outcome>, j: nat)
    requires LosesAt(cs, offers, turns, log, j)
    ensures log[j].kept == []
  {
  }

  /** A deaf server without clients sees nothing and does nothing. */
  lemma {:induction false} LostRun(host: Host, offers: seq<Offer>)
    requires forall k :: 0 <= k < |offers| ==> offers[k].ok
    ensures var log := Play([], Run(host, [], true, offers));
            |log| == |offers| && forall k :: 0 <= k < |log| ==> log[k] == Outcome([], [], false)
    decreases offers
  {
    if offers != [] {
      var turn, r, later := Unfold(host, [], true, offers);
      assert turn == Some(Turn(ReadyClients([], offers[0]), [], offers[0].reply));
      assert [] + turn.value.arrivals == [];
      assert r == Outcome([], [], false) && !Ends(r);
      LostRun(host, offers[1..]);
    }
  }

  /** The connections a run has accepted. */
  function Arrivals(turns: seq<Turn>): nat {
    if turns == [] then 0 else Arrivals(turns[..|turns| - 1]) + |turns[|turns| - 1].arrivals|
  }

  lemma ArrivalsAppend(turns: seq<Turn>, turn: Turn)
    ensures Arrivals(turns + [turn]) == Arrivals(turns) + |turn.arrivals|
  {
    assert (turns + [turn])[..|turns|] == turns;
  }

  /** No ready client starves: at index i it is served within i + 1 iterations. */
  lemma NoClientStarves(host: Host, cs: seq<nat>, deaf: bool, offers: seq<Offer>, i: nat)
    requires i < |cs| && i < |Run(host, cs, deaf, offers)|
    requires var log := Play(cs, Run(host, cs, deaf, offers));
             forall k :: 0 <= k <= i && k < |log| ==> !log[k].exited && offers[k].ready(cs[i])
    ensures var log := Play(cs, Run(host, cs, deaf, offers));
            exists k :: 0 <= k <= i && k < |log| && Served(log[k].events, cs[i])
  {
    hide LostBefore;
    var turns := Run(host, cs, deaf, offers);
    var log := Play(cs, turns);
    RunPlaysTurns(host, cs, deaf, offers, 0);
    forall k | 0 <= k <= i && cs[i] in ListAt(cs, log, k)
      ensures cs[i] in turns[k].ready
    {
      RunPlaysTurns(host, cs, deaf, offers, k);
    }
    BoundedWaiting(cs, turns, i);
  }

  // ---- A loop that plays the run ----

  /** Some way into the run: what has been played, the client list now, and whether the listener is lost. */
  ghost predicate RunSoFar(host: Host, cs: seq<nat>, deaf: bool, offers: seq<Offer>,
                           turns: seq<Turn>, log: seq<Outcome>, now: seq<nat>, deafNow: bool) {
    && |turns| == |log| <= |offers| && log == Play(cs, turns) && now == ListAt(cs, log, |log|)
    && (deafNow <==> deaf || LostBefore(cs, offers, turns, log, |turns|))
    && Run(host, cs, deaf, offers)
       == turns + if log != [] && Ends(log[|log| - 1]) then [] else Run(host, now, deafNow, offers[|turns|..])
  }

  lemma RunStarts(host: Host, cs: seq<nat>, deaf: bool, offers: seq<Offer>)
    ensures RunSoFar(host, cs, deaf, offers, [], [], cs, deaf) && Arrivals([]) == 0
  {
    hide Run;
    assert offers[0..] == offers;
    assert [] + Run(host, cs, deaf, offers) == Run(host, cs, deaf, offers);
  }

  lemma RestOfRun(host: Host, offers: seq<Offer>, k: nat, now: seq<nat>, deafNow: bool, turn: Turn, r: Outcome)
    requires k < |offers| && TurnOf(host, now, deafNow, offers[k]) == Some(turn)
    requires r == Scan(now + turn.arrivals, turn.ready, turn.reply)
    ensures Run(host, now, deafNow, offers[k..])
            == [turn] + if Ends(r) then []
                        else Run(host, r.kept, deafNow || Loses(offers[k], now + turn.arrivals, r), offers[k + 1..])
  {
    hide TurnOf, Scan, Loses, Ends, Run, Play;
    var rest := offers[k..];
    assert rest[0] == offers[k] && rest[1..] == offers[k + 1..];
    var offered, outcome, later := Unfold(host, now, deafNow, rest);
  }

  lemma NextOfRun(host: Host, cs: seq<nat>, deaf: bool, offers: seq<Offer>, turns: seq<Turn>, now: seq<nat>,
      deafNow: bool, turn: Turn, r: Outcome)
    requires |turns| < |offers| && TurnOf(host, now, deafNow, offers[|turns|]) == Some(turn)
    requires Run(host, cs, deaf, offers) == turns + Run(host, now, deafNow, offers[|turns|..])
    requires r == Scan(now + turn.arrivals, turn.ready, turn.reply)
    ensures var deafNext := deafNow || Loses(offers[|turns|], now + turn.arrivals, r);
            Run(host, cs, deaf, offers)
            == turns + [turn] + if Ends(r) then [] else Run(host, r.kept, deafNext, offers[|turns| + 1..])
  {
    hide Run, TurnOf, Scan, Loses, Ends, Play;
    RestOfRun(host, offers, |turns|, now, deafNow, turn, r);
    var deafNext := deafNow || Loses(offers[|turns|], now + turn.arrivals, r);
    var later := if Ends(r) then [] else Run(host, r.kept, deafNext, offers[|turns| + 1..]);
    assert turns + ([turn] + later) == (turns + [turn]) + later;
  }

  lemma RunGoesOn(host: Host, cs: seq<nat>, deaf: bool, offers: seq<Offer>, turns: seq<Turn>, log: seq<Outcome>,
      now: seq<nat>, deafNow: bool, turn: Turn, r: Outcome)
    requires RunSoFar(host, cs, deaf, offers, turns, log, now, deafNow)
    requires |turns| < |offers| && (log != [] ==> !Ends(log[|log| - 1]))
    requires TurnOf(host, now, deafNow, offers[|turns|]) == Some(turn)
    requires r == Scan(now + turn.arrivals, turn.ready, turn.reply)
    ensures RunSoFar(host, cs, deaf, offers, turns + [turn], log + [r], r.kept,
                     deafNow || Loses(offers[|turns|], now + turn.arrivals, r))
    ensures Arrivals(turns + [turn]) == Arrivals(turns) + |turn.arrivals|
  {
    hide Run, TurnOf, Scan, Loses, LostBefore, Ends, Play, Arrivals;
    NextOfRun(host, cs, deaf, offers, turns, now, deafNow, turn, r);
    PlayAppend(cs, turns, turn);
    ArrivalsAppend(turns, turn);
    LostBeforeAppend(cs, offers, turns, log, turn, r);
    assert (log + [r])[|log|] == r && |log + [r]| == |turns + [turn]| == |turns| + 1;
  }

  lemma RunEnds(host: Host, cs: seq<nat>, deaf: bool, offers: seq<Offer>, turns: seq<Turn>, log: seq<Outcome>,
                now: seq<nat>, deafNow: bool)
    requires RunSoFar(host, cs, deaf, offers, turns, log, now, deafNow)
    requires (log != [] && Ends(log[|log| - 1])) || |turns| == |offers|
             || TurnOf(host, now, deafNow, offers[|turns|]).None?
    ensures turns == Run(host, cs, deaf, offers)
  {
    hide TurnOf, LostBefore;
  }

  lemma RunFacts(host: Host, cs: seq<nat>, deaf: bool, offers: seq<Offer>, turns: seq<Turn>, log: seq<Outcome>,
                 now: seq<nat>, deafNow: bool)
    requires RunSoFar(host, cs, deaf, offers, turns, log, now, deafNow)
    ensures |turns| == |log| <= |offers| && log == Play(cs, turns) && now == ListAt(cs, log, |log|)
    ensures deafNow <==> deaf || LostBefore(cs, offers, turns, log, |turns|)
  {
  }

  // ---- Two servers on the same offers ----

  /** The same offers, but for what becomes of the listener when the list is emptied. */
  ghost predicate SameOffer(a: Offer, b: Offer) {
    && a.ok == b.ok && a.acceptOk == b.acceptOk && a.reply == b.reply
    && forall fd: nat :: a.ready(fd) == b.ready(fd)
  }

  ghost predicate AllAccepted(host: Host, offers: seq<Offer>, turns: seq<Turn>) {
    forall k :: 0 <= k < |turns| && k < |offers| && offers[k].ready(host.listenfd) ==> turns[k].arrivals != []
  }

  lemma AllAcceptedShift(host: Host, offers: seq<Offer>, turns: seq<Turn>)
    requires offers != [] && turns != []
    ensures AllAccepted(host, offers, turns)
            <==> && (offers[0].ready(host.listenfd) ==> turns[0].arrivals != [])
                 && AllAccepted(host, offers[1..], turns[1..])
  {
    if AllAccepted(host, offers[1..], turns[1..]) {
      forall k | 0 < k < |turns| && k < |offers| && offers[k].ready(host.listenfd)
        ensures turns[k].arrivals != []
      {
        assert offers[1..][k - 1].ready(host.listenfd);
      }
    }
  }

  /** A deaf server logs nothing where the other one accepts a connection, or fails to. */
  lemma DeafMisses(host: Host, a: seq<Offer>, b: seq<Offer>)
    requires a != [] && b != [] && SameOffer(a[0], b[0]) && a[0].ok && a[0].ready(host.listenfd)
    ensures var mine, others := Run(host, [], true, a), Run(host, [], false, b);
            mine != [] && mine[0].arrivals == [] && Play([], mine) != Play([], others)
  {
    var mine, others := Run(host, [], true, a), Run(host, [], false, b);
    assert mine[0] == Turn(ReadyClients([], a[0]), [], a[0].reply);
    assert Play([], mine)[0].kept == [];
    if b[0].acceptOk {
      var newcomer := others[0].arrivals[0];
      assert others[0].arrivals == [newcomer] && others[0].ready == {};
      IdleScan([newcomer], {}, b[0].reply);
      assert [] + [newcomer] == [newcomer];
      assert Play([], others)[0].kept == [newcomer];
    }
  }

  lemma SameTurn(host: Host, cs: seq<nat>, deaf: bool, a: Offer, b: Offer)
    requires SameOffer(a, b) && !(a.ok && deaf && a.ready(host.listenfd))
    ensures TurnOf(host, cs, deaf, a) == TurnOf(host, cs, false, b)
    ensures var t := TurnOf(host, cs, deaf, a); t.Some? && a.ready(host.listenfd) ==> t.value.arrivals != []
    ensures var t := TurnOf(host, cs, deaf, a); t.Some? && deaf ==> t.value.arrivals == []
  {
    assert ReadyClients(cs, a) == ReadyClients(cs, b);
  }

  /** The first iteration of a run, and of its log. */
  lemma Unfold(host: Host, cs: seq<nat>, deaf: bool, offers: seq<Offer>)
      returns (turn: Option<Turn>, r: Outcome, later: seq<Turn>)
    requires offers != []
    ensures turn == TurnOf(host, cs, deaf, offers[0])
    ensures var turns := Run(host, cs, deaf, offers);
            && (turn.None? ==> turns == [] == later)
            && (turn.Some? ==>
                  && r == Scan(cs + turn.value.arrivals, turn.value.ready, turn.value.reply)
                  && var deafNext := deaf || Loses(offers[0], cs + turn.value.arrivals, r);
                  && later == (if Ends(r) then [] else Run(host, r.kept, deafNext, offers[1..]))
                  && turns == [turn.value] + later
                  && Play(cs, turns) == [r] + if Ends(r) then [] else Play(r.kept, later))
  {
    hide TurnOf, Scan, Loses;
    turn, r, later := TurnOf(host, cs, deaf, offers[0]), Outcome([], [], false), [];
    if turn.Some? {
      r := Scan(cs + turn.value.arrivals, turn.value.ready, turn.value.reply);
      if !Ends(r) {
        later := Run(host, r.kept, deaf || Loses(offers[0], cs + turn.value.arrivals, r), offers[1..]);
      }
      assert ([turn.value] + later)[1..] == later;
    }
  }

  lemma NothingToAccept(host: Host, offers: seq<Offer>, turns: seq<Turn>)
    ensures turns == [] ==> AllAccepted(host, offers, turns)
  {
  }

  lemma LossFacts(a: Offer, b: Offer, all: seq<nat>, r: Outcome)
    ensures Loses(a, all, r) ==> r.kept == []
    ensures b.keepsListener ==> !Loses(b, all, r)
  {
  }

  /**
   * A server that may lose its listener logs what one that cannot logs, exactly if it accepts
   * whenever a connection waits.
   */
  lemma {:induction false} AgreeWhileAccepting(host: Host, cs: seq<nat>, deaf: bool, a: seq<Offer>, b: seq<Offer>)
    requires |a| == |b| && forall k :: 0 <= k < |a| ==> SameOffer(a[k], b[k]) && b[k].keepsListener
    requires deaf ==> cs == []
    ensures var mine, others := Run(host, cs, deaf, a), Run(host, cs, false, b);
            && (AllAccepted(host, a, mine) ==> mine == others)
            && (Play(cs, mine) == Play(cs, others) ==> AllAccepted(host, a, mine))
    decreases a
  {
    hide Ends, TurnOf, Scan, Run, Play, SameOffer, Loses, AllAccepted, ReadyClients;
    var mine, others := Run(host, cs, deaf, a), Run(host, cs, false, b);
    if a == [] {
      assert |mine| == |others| == 0;
      NothingToAccept(host, a, mine);
    } else {
      assert SameOffer(a[0], b[0]);
      if a[0].ok && deaf && a[0].ready(host.listenfd) {
        DeafMisses(host, a, b);
        AllAcceptedShift(host, a, mine);
      } else {
        SameTurn(host, cs, deaf, a[0], b[0]);
        var turn, r, later := Unfold(host, cs, deaf, a);
        var bTurn, bR, bLater := Unfold(host, cs, false, b);
        if turn.None? {
          NothingToAccept(host, a, mine);
        } else {
          AllAcceptedShift(host, a, mine);
          assert mine[1..] == later;
          LossFacts(a[0], b[0], cs + turn.value.arrivals, r);
          if Ends(r) {
            NothingToAccept(host, a[1..], later);
          } else {
            if deaf {
              assert cs + turn.value.arrivals == [];
              IdleScan([], turn.value.ready, turn.value.reply);
            }
            AgreeWhileAccepting(host, r.kept, deaf || Loses(a[0], cs + turn.value.arrivals, r), a[1..], b[1..]);
            assert Play(cs, mine)[1..] == Play(r.kept, later) && Play(cs, others)[1..] == Play(r.kept, bLater);
          }
        }
      }
    }
  }

  /**
   * Fed the same offers, a server that can lose its listener logs what a server that cannot logs if
   * and only if no connection waits in an iteration after the listener was lost.
   */
  lemma SameRunIff(host: Host, cs: seq<nat>, a: seq<Offer>, b: seq<Offer>)
    requires |a| == |b| && forall k :: 0 <= k < |a| ==> SameOffer(a[k], b[k]) && b[k].keepsListener
    ensures var mine, others := Run(host, cs, false, a), Run(host, cs, false, b);
            var log := Play(cs, mine);
            && (log == Play(cs, others) <==>
                  forall k :: 0 <= k < |mine| && LostBefore(cs, a, mine, log, k) ==> !a[k].ready(host.listenfd))
            && (log == Play(cs, others) ==> mine == others)
  {
    hide LostBefore, Run;
    var mine := Run(host, cs, false, a);
    var log := Play(cs, mine);
    AgreeWhileAccepting(host, cs, false, a, b);
    forall k | 0 <= k < |mine|
      ensures mine[k].arrivals != [] <==> a[k].ready(host.listenfd) && !LostBefore(cs, a, mine, log, k)
    {
      AcceptedIffListenerKept(host, cs, a, k);
    }
  }
}

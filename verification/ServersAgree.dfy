/**
 * The `select` server and the `poll` server behave alike, iteration by iteration and over whole runs,
 * as long as no connection waits for a listener that the `select` server has lost.
 */
module ServersAgree {
  import opened Posix
  import opened ReadinessScan
  import opened ServerRuns
  import S = SelectServer
  import P = PollServer
  import Poll

  /** The same clients in the same order, on the same descriptors. */
  ghost predicate Corresponding(s: S.Server, p: P.Server)
    reads s, p
  {
    && s.Valid() && p.Valid()
    && s.inherited == p.inherited && s.listenfd == p.listenfd
    && s.clients == p.Connected()
    && s.isRunning == p.isRunning && s.exited == p.exited
  }

  /** The same events offered to both, the poll server's being exactly POLLRDNORM. */
  ghost predicate SameInput(si: S.Input, pi: P.Input) {
    && si.selectOk == pi.pollOk && si.acceptOk == pi.acceptOk && si.reply == pi.reply
    && forall fd: nat :: fd in si.ready <==> pi.revents(fd) == Poll.POLLRDNORM
  }

  lemma SameOffers(listenfd: nat, si: S.Input, pi: P.Input)
    requires SameInput(si, pi)
    ensures SameOffer(S.OfferOf(listenfd, si), P.OfferOf(pi)) && P.OfferOf(pi).keepsListener
  {
  }

  /** One iteration serves the same clients, in the same order, and leaves the servers corresponding. */
  method SameRound(s: S.Server, p: P.Server, si: S.Input, pi: P.Input)
      returns (ok: bool, turn: Turn, events: seq<Event>, pOk: bool, pTurn: Turn, pEvents: seq<Event>)
    requires Corresponding(s, p) && SameInput(si, pi) && s.isRunning && !s.exited && s.Watched()
    modifies s, p
    ensures Corresponding(s, p) && ok == pOk
    ensures var offered := TurnOf(s.Host(), old(s.clients), false, P.OfferOf(pi));
            if offered.None? then !ok && s.exited
            else
              && ok && turn == pTurn == offered.value && events == pEvents
              && Scan(old(s.clients) + turn.arrivals, turn.ready, turn.reply) == Outcome(s.clients, events, s.exited)
              && s.isRunning == !Stops(events)
  {
    hide Descriptors.Owned, Scan, TurnOf;
    s.WatchedIff();
    SameOffers(s.listenfd, si, pi);
    SameTurn(s.Host(), s.clients, false, S.OfferOf(s.listenfd, si), P.OfferOf(pi));
    ok, turn, events := s.Round(si);
    pOk, pTurn, pEvents := p.Round(pi);
  }

  /**
   * Whole runs. Fed corresponding inputs the two servers log the same, iteration by iteration, and
   * end corresponding, if and only if no connection waits in an iteration after the one in which
   * the `select` server lost its listener.
   */
  method SameRun(s: S.Server, p: P.Server, si: seq<S.Input>, pi: seq<P.Input>)
      returns (turns: seq<Turn>, log: seq<Outcome>, pTurns: seq<Turn>, pLog: seq<Outcome>)
    requires Corresponding(s, p) && s.isRunning && !s.exited && s.Watched()
    requires |si| == |pi| && forall k :: 0 <= k < |si| ==> SameInput(si[k], pi[k])
    modifies s, p
    ensures turns == Run(s.Host(), old(s.clients), false, S.Offers(s.listenfd, si))
            && log == Play(old(s.clients), turns)
    ensures pTurns == Run(s.Host(), old(s.clients), false, P.Offers(pi)) && pLog == Play(old(s.clients), pTurns)
    ensures |turns| == |log| <= |si| && |pTurns| == |pLog| <= |pi|
    ensures s.Valid() && s.clients == ListAt(old(s.clients), log, |log|)
    ensures p.Valid() && p.Connected() == ListAt(old(s.clients), pLog, |pLog|)
    ensures !s.isRunning <==> log != [] && Stops(log[|log| - 1].events)
    ensures !p.isRunning <==> pLog != [] && Stops(pLog[|pLog| - 1].events)
    ensures s.exited <==> (log != [] && log[|log| - 1].exited) || (s.isRunning && |turns| < |si|)
    ensures p.exited <==> (pLog != [] && pLog[|pLog| - 1].exited) || (p.isRunning && |pTurns| < |pi|)
    ensures s.fds.serial == old(s.fds.serial) + Arrivals(turns)
    ensures p.fds.serial == old(p.fds.serial) + Arrivals(pTurns)
    ensures s.Watched() <==> !LostBefore(old(s.clients), S.Offers(s.listenfd, si), turns, log, |log|)
    ensures log == pLog
            <==> forall k :: 0 <= k < |log| && LostBefore(old(s.clients), S.Offers(s.listenfd, si), turns, log, k)
                   ==> s.listenfd !in si[k].ready
    ensures log == pLog ==> turns == pTurns && Corresponding(s, p)
  {
    hide Descriptors.Owned, Run, Play, LostBefore, Stops, Arrivals;
    ghost var cs, offers := s.clients, S.Offers(s.listenfd, si);
    forall k | 0 <= k < |si|
      ensures SameOffer(offers[k], P.Offers(pi)[k]) && P.Offers(pi)[k].keepsListener
    {
      SameOffers(s.listenfd, si[k], pi[k]);
    }
    SameRunIff(s.Host(), cs, offers, P.Offers(pi));
    turns, log := s.Serve(si);
    pTurns, pLog := p.Serve(pi);
    assert forall k :: 0 <= k < |log| ==> (offers[k].ready(s.listenfd) <==> s.listenfd in si[k].ready);
  }
}

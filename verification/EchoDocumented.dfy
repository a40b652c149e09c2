/**
 * Any number of clients under the documented `ReadFrom`, which tries again until data arrives:
 * nobody fails, and the frames a client waits for always find it reading.
 */
module EchoDocumented {
  import opened EchoProtocol
  import opened EchoSafety
  import opened EchoAnswers

  /** The client that has been put at most one frame into its FIFO is still reading it. */
  lemma StillReading(cfg: Config, s: State, steps: seq<Step>, c: nat)
    requires Inv(cfg, s) && AllPaced(s, steps) && Patient(steps) && s.Alive() && c < |s.clients|
    requires HasWriter(s.table, c) && |s.clients[c].History()| <= 1
    ensures s.clients[c].Reads()
  {
    hide GoodHistory, Pending;
    assert ClientInv(cfg, s, c) && Paced(s, c, EagerRead(c) in steps);
  }

  /**
   * For any number of clients, in every interleaving: no client ends in "Connection is failure",
   * and the first two frames the server writes to a client (the greeting and an echo) are
   * delivered, provided a pipe holds two frames.
   */
  lemma NobodyFails(cfg: Config, table: map<nat, Target>, steps: seq<Step>, writeOk: bool)
    requires cfg.Valid() && cfg.capacity >= 2 && NoPrivate(table)
    requires Run(cfg, Initial(cfg, table), steps).Some?
    requires Patient(steps)
    ensures var s := Run(cfg, Initial(cfg, table), steps).value;
            && (forall c <- s.clients :: !c.phase.Failed?)
            && (s.server.Greeting? || s.server.Echoing? ==>
                  && s.server.fd in s.connections
                  && forall c :: 0 <= c < |s.clients| && s.server.fd in s.table && s.table[s.server.fd] == Private(c)
                                 && |s.clients[c].History()| <= 1 ==>
                       var t := Next(cfg, s, ServerStep(writeOk));
                       && t.Some? && t.value.Alive() && |t.value.clients| == |s.clients|
                       && t.value.clients[c].History()
                          == s.clients[c].History() + [if s.server.Greeting? then SuccessFrame() else s.server.frame])
  {
    hide Run, FrameOf, SuccessFrame, ClientInv, ClientFrame;
    InitialInv(cfg, table);
    RunKeepsPace(cfg, Initial(cfg, table), steps);
    var s := Run(cfg, Initial(cfg, table), steps).value;
    forall c | 0 <= c < |s.clients|
      ensures !s.clients[c].phase.Failed?
    {
      assert Paced(s, c, EagerRead(c) in steps);
    }
    if s.server.Greeting? || s.server.Echoing? {
      forall c | 0 <= c < |s.clients| && s.server.fd in s.table && s.table[s.server.fd] == Private(c)
                 && |s.clients[c].History()| <= 1
        ensures var t := Next(cfg, s, ServerStep(writeOk));
                && t.Some? && t.value.Alive() && |t.value.clients| == |s.clients|
                && t.value.clients[c].History()
                   == s.clients[c].History() + [if s.server.Greeting? then SuccessFrame() else s.server.frame]
      {
        FirstWritesArrive(cfg, s, steps, c, writeOk);
      }
    }
  }

  lemma FirstWritesArrive(cfg: Config, s: State, steps: seq<Step>, c: nat, writeOk: bool)
    requires Inv(cfg, s) && AllPaced(s, steps) && Patient(steps) && cfg.capacity >= 2
             && (s.server.Greeting? || s.server.Echoing?)
    requires c < |s.clients| && s.server.fd in s.table && s.table[s.server.fd] == Private(c)
    requires |s.clients[c].History()| <= 1
    ensures var t := Next(cfg, s, ServerStep(writeOk));
            && t.Some? && t.value.Alive() && |t.value.clients| == |s.clients|
            && t.value.clients[c].History()
               == s.clients[c].History() + [if s.server.Greeting? then SuccessFrame() else s.server.frame]
  {
    hide SuccessFrame, ClientInv, ServerInv, AllPaced;
    assert HasWriter(s.table, c);
    StillReading(cfg, s, steps, c);
  }
}

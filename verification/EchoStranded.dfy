/** Clients whose connection request is gone although nobody has served them, and nobody ever will. */
module EchoStranded {
  import opened Lists
  import opened PackageCodec
  import opened EchoProtocol
  import opened EchoSafety

  /** Client c awaits its status, nobody writes to it, and its request is neither queued nor held. */
  ghost predicate Stranded(cfg: Config, s: State, c: nat) {
    Inv(cfg, s) && c < |s.clients| && s.clients[c].phase.AwaitStatus? && Fresh(s, c) && Pending(cfg, s, c) == 0
  }

  lemma PutLeavesStranded(cfg: Config, s: State, c: nat, d: nat, f: Frame, phase: ClientPhase)
    requires Stranded(cfg, s, c) && d < |s.clients| && d != c && Put(cfg, s, d, f, phase).Some?
    requires f != NewFrame(cfg, c)
    ensures var t := Put(cfg, s, d, f, phase).value;
            |t.clients| == |s.clients| && t.clients[c] == s.clients[c] && Fresh(t, c) && Pending(cfg, t, c) == 0
  {
    hide NewFrame, Inv;
  }

  lemma ClientLeavesStranded(cfg: Config, s: State, c: nat, d: nat)
    requires Stranded(cfg, s, c) && d < |s.clients| && NextClient(cfg, s, d).Some?
    ensures var t := NextClient(cfg, s, d).value;
            && |t.clients| == |s.clients| && t.clients[c] == s.clients[c] && Fresh(t, c) && Pending(cfg, t, c) == 0
  {
    hide FrameOf, NewFrame, MessageFrame, CloseFrame, KindOf, DataOf, ClientInv, ServerInv, Put, HasWriter;
    NewFrameUnique(cfg, c);
    NewFrameIs(cfg, d);
    var phase := s.clients[d].phase;
    if d != c {
      if phase.Linked? {
        PutLeavesStranded(cfg, s, c, d, NewFrame(cfg, d), AwaitStatus);
      } else if phase.Connected? {
        PutLeavesStranded(cfg, s, c, d, MessageFrame(cfg, d), AwaitEcho);
      } else if phase.Answered? {
        PutLeavesStranded(cfg, s, c, d, CloseFrame(), Closing);
      }
    }
  }

  lemma EagerLeavesStranded(cfg: Config, s: State, c: nat, d: nat)
    requires Stranded(cfg, s, c) && d < |s.clients| && NextEager(s, d).Some?
    ensures var t := NextEager(s, d).value;
            && |t.clients| == |s.clients| && t.clients[c] == s.clients[c] && Fresh(t, c) && Pending(cfg, t, c) == 0
  {
    hide NewFrame, KindOf, DataOf, Inv;
  }

  lemma SendLeavesStranded(cfg: Config, s: State, c: nat, fd: nat, f: Frame, phase: ServerPhase, writeOk: bool)
    requires Stranded(cfg, s, c) && !s.server.Connecting? && !phase.Connecting?
    ensures var t := Send(cfg, s, fd, f, phase, writeOk);
            && |t.clients| == |s.clients| && t.clients[c] == s.clients[c] && Fresh(t, c) && Pending(cfg, t, c) == 0
  {
    hide NewFrame, Inv;
  }

  lemma ReadLeavesStranded(cfg: Config, s: State, c: nat, writeOk: bool)
    requires Stranded(cfg, s, c) && (s.server.Accepting? || s.server.Session?) && NextServer(cfg, s, writeOk).Some?
    ensures var t := NextServer(cfg, s, writeOk).value;
            && |t.clients| == |s.clients| && t.clients[c] == s.clients[c] && Fresh(t, c) && Pending(cfg, t, c) == 0
  {
    hide NewFrame, ClientInv, KindOf, DataOf, Admit, ClientFrame;
    AdmitsNewcomers(cfg, s.public[0], s.connections);
    MultisetSplit(s.public);
    var t := NextServer(cfg, s, writeOk).value;
    assert HasWriter(t.table, c) ==> HasWriter(s.table, c);
  }

  lemma OpenLeavesStranded(cfg: Config, s: State, c: nat, writeOk: bool)
    requires Stranded(cfg, s, c) && s.server.Connecting?
    ensures NextServer(cfg, s, writeOk).Some?
    ensures var t := NextServer(cfg, s, writeOk).value;
            && |t.clients| == |s.clients| && t.clients[c] == s.clients[c] && Fresh(t, c) && Pending(cfg, t, c) == 0
  {
    hide NewFrame, ClientInv, ServerInv;
    var d := RequesterReads(cfg, s);
    var t := NextServer(cfg, s, writeOk).value;
    assert HasWriter(t.table, c) ==> HasWriter(s.table, c);
  }

  lemma ServerLeavesStranded(cfg: Config, s: State, c: nat, writeOk: bool)
    requires Stranded(cfg, s, c) && NextServer(cfg, s, writeOk).Some?
    ensures var t := NextServer(cfg, s, writeOk).value;
            && |t.clients| == |s.clients| && t.clients[c] == s.clients[c] && Fresh(t, c) && Pending(cfg, t, c) == 0
  {
    hide NewFrame, Inv, Send, KindOf, Admit, SuccessFrame;
    match s.server {
      case Accepting => ReadLeavesStranded(cfg, s, c, writeOk);
      case Session(_) => ReadLeavesStranded(cfg, s, c, writeOk);
      case Connecting(_) => OpenLeavesStranded(cfg, s, c, writeOk);
      case Greeting(fd) => SendLeavesStranded(cfg, s, c, fd, SuccessFrame(), Session(fd), writeOk);
      case Echoing(fd, f) => SendLeavesStranded(cfg, s, c, fd, f, Accepting, writeOk);
      case _ =>
    }
  }

  lemma StepLeavesStranded(cfg: Config, s: State, c: nat, step: Step)
    requires Stranded(cfg, s, c) && Next(cfg, s, step).Some?
    ensures Stranded(cfg, Next(cfg, s, step).value, c)
  {
    hide NextClient, NextEager, NextServer, Inv, Fresh, Pending;
    StepKeepsInv(cfg, s, step);
    match step {
      case ClientStep(d) => ClientLeavesStranded(cfg, s, c, d);
      case EagerRead(d) => EagerLeavesStranded(cfg, s, c, d);
      case ServerStep(writeOk) => ServerLeavesStranded(cfg, s, c, writeOk);
    }
  }

  /** A stranded client is stranded for good: no continuation of the run, whatever its reads, serves it. */
  lemma {:induction false} StrandedForGood(cfg: Config, start: State, steps: seq<Step>, more: seq<Step>, c: nat)
    requires Run(cfg, start, steps).Some? && Stranded(cfg, Run(cfg, start, steps).value, c)
    requires Run(cfg, start, steps + more).Some?
    ensures Stranded(cfg, Run(cfg, start, steps + more).value, c)
    decreases |more|
  {
    hide Next, Stranded;
    if more == [] {
      assert steps + more == steps;
    } else {
      var before, last := more[..|more| - 1], more[|more| - 1];
      assert (steps + more)[..|steps + more| - 1] == steps + before;
      StrandedForGood(cfg, start, steps, before, c);
      StepLeavesStranded(cfg, Run(cfg, start, steps + before).value, c, last);
    }
  }
}

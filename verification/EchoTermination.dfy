/**
 * Every run of the echo protocol, with any number of clients and any interleaving, is finite, if reads
 * that find nothing and are tried again are not counted.
 */
module EchoTermination {
  import opened PackageCodec
  import opened EchoProtocol

  /** How many steps a client can still take. */
  function ClientRank(p: ClientPhase): nat {
    match p
    case Start => 10
    case FifoMade => 9
    case ReadEndOpen => 8
    case Linked => 7
    case AwaitStatus => 6
    case Connected => 5
    case AwaitEcho => 4
    case Answered => 3
    case Closing => 2
    case Unlinked => 1
    case _ => 0
  }

  /** How many steps the server can take before it needs another frame or has ended. */
  function ServerRank(p: ServerPhase): nat {
    match p
    case Connecting(_) => 6
    case Greeting(_) => 5
    case Session(_) => 4
    case Opening => 3
    case Echoing(_, _) => 3
    case Accepting => 2
    case Leaving => 1
    case _ => 0
  }

  function TotalRank(clients: seq<Client>): nat {
    if clients == [] then 0 else ClientRank(clients[0].phase) + TotalRank(clients[1..])
  }

  /** A step of a client outweighs the frame it may put; a frame outweighs what the server does with it. */
  function Measure(s: State): nat {
    6 * TotalRank(s.clients) + 5 * |s.public| + ServerRank(s.server)
  }

  lemma {:induction false} TotalRankUpdate(clients: seq<Client>, c: nat, client: Client)
    requires c < |clients|
    ensures TotalRank(clients[c := client])
            == TotalRank(clients) - ClientRank(clients[c].phase) + ClientRank(client.phase)
  {
    if c > 0 {
      assert clients[c := client][1..] == clients[1..][c - 1 := client];
      TotalRankUpdate(clients[1..], c - 1, client);
    } else {
      assert clients[c := client][1..] == clients[1..];
    }
  }

  /** A step that changes one client's phase, and nothing at the server. */
  lemma MoveDecreases(s: State, t: State, c: nat, client: Client)
    requires c < |s.clients| && t.clients == s.clients[c := client] && t.server == s.server
    requires |t.public| <= |s.public| + 1 && ClientRank(client.phase) < ClientRank(s.clients[c].phase)
    ensures Measure(t) < Measure(s)
  {
    hide TotalRank;
    TotalRankUpdate(s.clients, c, client);
  }

  lemma ClientStepDecreases(cfg: Config, s: State, c: nat)
    requires c < |s.clients| && c < |cfg.names| && c < |cfg.messages|
    requires NextClient(cfg, s, c).Some?
    ensures Measure(NextClient(cfg, s, c).value) < Measure(s)
  {
    hide FrameOf, KindOf, DataOf, CloseFrame, TotalRank, Measure, Put;
    var phase, t := s.clients[c].phase, NextClient(cfg, s, c).value;
    if phase.Linked? {
      PutDecreases(cfg, s, c, FrameOf(NEW_CONNECTION, cfg.names[c]), AwaitStatus);
    } else if phase.Connected? {
      PutDecreases(cfg, s, c, FrameOf(MESSAGE, cfg.messages[c]), AwaitEcho);
    } else if phase.Answered? {
      PutDecreases(cfg, s, c, CloseFrame(), Closing);
    } else {
      MoveDecreases(s, t, c, t.clients[c]);
    }
  }

  lemma PutDecreases(cfg: Config, s: State, c: nat, f: Frame, phase: ClientPhase)
    requires c < |s.clients| && Put(cfg, s, c, f, phase).Some?
    requires ClientRank(phase) < ClientRank(s.clients[c].phase)
    ensures Measure(Put(cfg, s, c, f, phase).value) < Measure(s)
  {
    hide TotalRank, Measure;
    var t := Put(cfg, s, c, f, phase).value;
    MoveDecreases(s, t, c, t.clients[c]);
  }

  lemma EagerReadDecreases(s: State, c: nat)
    requires c < |s.clients| && NextEager(s, c).Some?
    ensures Measure(NextEager(s, c).value) < Measure(s)
  {
    hide KindOf, DataOf, TotalRank, Measure;
    var t := NextEager(s, c).value;
    MoveDecreases(s, t, c, t.clients[c]);
  }

  lemma SendKeepsRank(cfg: Config, s: State, fd: nat, f: Frame, phase: ServerPhase, writeOk: bool)
    ensures var t := Send(cfg, s, fd, f, phase, writeOk);
            && TotalRank(t.clients) == TotalRank(s.clients) && t.public == s.public
            && (t.server == phase || t.server == Crashed)
  {
    if fd in s.table && s.table[fd].Private? && s.table[fd].c < |s.clients| {
      var c := s.table[fd].c;
      var me := s.clients[c];
      TotalRankUpdate(s.clients, c, me.(inbox := me.inbox + [f]));
    }
  }

  lemma ServerStepDecreases(cfg: Config, s: State, writeOk: bool)
    requires NextServer(cfg, s, writeOk).Some?
    ensures Measure(NextServer(cfg, s, writeOk).value) < Measure(s)
  {
    hide FrameOf, Encode, Decode, TotalRank, Send;
    match s.server {
      case Greeting(fd) => SendKeepsRank(cfg, s, fd, SuccessFrame(), Session(fd), writeOk);
      case Echoing(fd, f) => SendKeepsRank(cfg, s, fd, f, Accepting, writeOk);
      case _ =>
    }
  }

  lemma StepDecreases(cfg: Config, s: State, step: Step)
    requires Next(cfg, s, step).Some?
    ensures Measure(Next(cfg, s, step).value) < Measure(s)
  {
    hide NextClient, NextEager, NextServer, Measure;
    match step {
      case ClientStep(c) => ClientStepDecreases(cfg, s, c);
      case EagerRead(c) => EagerReadDecreases(s, c);
      case ServerStep(writeOk) => ServerStepDecreases(cfg, s, writeOk);
    }
  }

  lemma {:induction false} RunDecreases(cfg: Config, s: State, steps: seq<Step>)
    requires Run(cfg, s, steps).Some?
    ensures |steps| + Measure(Run(cfg, s, steps).value) <= Measure(s)
  {
    hide Next, Measure;
    if steps != [] {
      var before := steps[..|steps| - 1];
      RunDecreases(cfg, s, before);
      StepDecreases(cfg, Run(cfg, s, before).value, steps[|steps| - 1]);
    }
  }

  lemma {:induction false} RankOfStarters(n: nat, clients: seq<Client>)
    requires |clients| == n && forall k :: 0 <= k < n ==> clients[k].phase == Start
    ensures TotalRank(clients) == 10 * n
  {
    if n > 0 {
      RankOfStarters(n - 1, clients[1..]);
    }
  }

  /**
   * With n clients no run has more than 60 n + 3 steps. A read that waits is one step, however often
   * the code has to try it; a client that waits for ever takes none. The calls with which a process
   * gives up its descriptors at the end are one step as well.
   */
  lemma RunsAreFinite(cfg: Config, table: map<nat, Target>, steps: seq<Step>)
    requires Run(cfg, Initial(cfg, table), steps).Some?
    ensures |steps| <= 60 * |cfg.names| + 3
  {
    RunDecreases(cfg, Initial(cfg, table), steps);
    RankOfStarters(|cfg.names|, Initial(cfg, table).clients);
  }
}

/**
 The network on chip with its queues, dispatchers and device threads: a master interface per CPU
 and a slave interface per device, queues of eight entries, and the messages that a thread has
 read and not yet written as its hand.  A thread that finds its destination full, or its source
 empty, waits; what it does between two waits is one step.
 */
module Network {
  import opened PoolModel
  import opened AddressMap
  import opened Options
  import opened Channels

  // Entries of a queue.
  const DEPTH: nat := 8

  // sending is the request that the CPU's own thread is putting; hand is the one that
  // dispatch_requests_thread has read.
  datatype Master = Master(sending: seq<Msg>, requests: seq<Msg>, hand: seq<Msg>, responses: seq<Msg>)

  // work is the request that request_thread is in the middle of, processing is m_bProcessing_rq,
  // hand the response that dispatch_responses_thread has read.
  datatype Slave = Slave(requests: seq<Msg>, work: seq<Msg>, processing: bool,
                         responses: seq<Msg>, hand: seq<Msg>, mem: Mem)

  datatype Net = Net(cfg: Config, cpus: seq<Cpu>, masters: seq<Master>, slaves: seq<Slave>)

  ghost predicate NetSized(n: Net) {
    |n.cpus| == |n.masters| == |n.cfg.maps| && |n.slaves| == |n.cfg.kinds|
  }

  // One step of one thread.  Start, Put and Continue are the CPU's; Fetch and Dispatch the request
  // dispatcher's; Accept, Perform and Answer the device's; Collect and Return the response
  // dispatcher's; Deliver is the response thread's.
  datatype Move =
    | Start(c: nat, addr: u32, write: bool, data: u32, io: bool)
    | Put(c: nat)
    | Fetch(c: nat)
    | Dispatch(c: nat)
    | Accept(s: nat)
    | Perform(s: nat)
    | Answer(s: nat)
    | Collect(s: nat)
    | Return(s: nat)
    | Deliver(c: nat)
    | Continue(c: nat)

  // Where the dispatcher sends a request; None where it stops the simulation.
  function Route(cfg: Config, c: nat, m: Msg): Option<Msg>
    requires c < |cfg.maps|
  {
    match Locate(cfg.maps[c], m.req.addr)
    case None => None
    case Some((slave, offset)) =>
      if slave < |cfg.kinds| then Some(m.(req := m.req.(slave := slave, offset := offset))) else None
  }

  predicate CanMove(n: Net, mv: Move)
    requires NetSized(n)
  {
    match mv
    case Start(c, addr, write, data, io) =>
      c < |n.cpus| && n.masters[c].sending == [] && CanIssue(n.cfg, c, n.cpus[c], addr, write, io)
    case Put(c) => c < |n.cpus| && n.masters[c].sending != [] && |n.masters[c].requests| < DEPTH
    case Fetch(c) => c < |n.cpus| && n.masters[c].hand == [] && n.masters[c].requests != []
    case Dispatch(c) =>
      && c < |n.cpus| && n.masters[c].hand != [] && Route(n.cfg, c, n.masters[c].hand[0]).Some?
      && |n.slaves[Route(n.cfg, c, n.masters[c].hand[0]).value.req.slave].requests| < DEPTH
    case Accept(s) => s < |n.slaves| && n.slaves[s].work == [] && n.slaves[s].requests != []
    case Perform(s) => s < |n.slaves| && n.slaves[s].work != [] && !n.slaves[s].work[0].served
    case Answer(s) =>
      s < |n.slaves| && n.slaves[s].work != [] && n.slaves[s].work[0].served && |n.slaves[s].responses| < DEPTH
    case Collect(s) => s < |n.slaves| && n.slaves[s].hand == [] && n.slaves[s].responses != []
    case Return(s) =>
      && s < |n.slaves| && n.slaves[s].hand != [] && n.slaves[s].hand[0].req.src < |n.masters|
      && |n.masters[n.slaves[s].hand[0].req.src].responses| < DEPTH
    case Deliver(c) => c < |n.cpus| && n.masters[c].responses != []
    case Continue(c) => c < |n.cpus| && CanResume(n.cpus[c])
  }

  function SetMaster(n: Net, c: nat, m: Master): Net
    requires c < |n.masters|
  {
    n.(masters := n.masters[c := m])
  }

  function SetSlave(n: Net, s: nat, sl: Slave): Net
    requires s < |n.slaves|
  {
    n.(slaves := n.slaves[s := sl])
  }

  function Started(n: Net, mv: Move): Request
    requires NetSized(n) && mv.Start? && CanMove(n, mv)
  {
    var (slave, offset) := Locate(n.cfg.maps[mv.c], mv.addr).value;
    NewRequest(mv.c, n.cpus[mv.c], mv.addr, slave, offset, mv.write, mv.data, mv.io)
  }

  function Moved(n: Net, mv: Move): Net
    requires NetSized(n) && CanMove(n, mv)
  {
    match mv
    case Start(c, _, _, _, _) =>
      var r := Started(n, mv);
      SetMaster(n, c, n.masters[c].(sending := [Msg(r, false, 0)])).(cpus := n.cpus[c := CpuIssue(n.cpus[c], r)])
    case Put(c) =>
      var m := n.masters[c];
      SetMaster(n, c, m.(sending := m.sending[1..], requests := m.requests + [m.sending[0]]))
    case Fetch(c) =>
      var m := n.masters[c];
      SetMaster(n, c, m.(hand := [m.requests[0]], requests := m.requests[1..]))
    case Dispatch(c) =>
      var m := n.masters[c];
      var x := Route(n.cfg, c, m.hand[0]).value;
      var s := x.req.slave;
      SetSlave(SetMaster(n, c, m.(hand := m.hand[1..])), s,
               n.slaves[s].(requests := n.slaves[s].requests + [x]))
    case Accept(s) =>
      // A request that arrives while another is processed is dropped.
      var sl := n.slaves[s];
      SetSlave(n, s, sl.(requests := sl.requests[1..], processing := true,
                         work := if sl.processing then [] else [sl.requests[0]]))
    case Perform(s) =>
      var sl := n.slaves[s];
      var (mem, v) := Access(n.cfg.kinds[s], sl.mem, sl.work[0].req);
      SetSlave(n, s, sl.(work := [Msg(sl.work[0].req, true, v)], mem := mem))
    case Answer(s) =>
      var sl := n.slaves[s];
      SetSlave(n, s, sl.(work := sl.work[1..], processing := false, responses := sl.responses + [sl.work[0]]))
    case Collect(s) =>
      var sl := n.slaves[s];
      SetSlave(n, s, sl.(hand := [sl.responses[0]], responses := sl.responses[1..]))
    case Return(s) =>
      var sl := n.slaves[s];
      var c := sl.hand[0].req.src;
      SetMaster(SetSlave(n, s, sl.(hand := sl.hand[1..])), c,
                n.masters[c].(responses := n.masters[c].responses + [sl.hand[0]]))
    case Deliver(c) =>
      // A response for another node is reported and ignored.
      var m := n.masters[c];
      var x := m.responses[0];
      SetMaster(n, c, m.(responses := m.responses[1..]))
      .(cpus := if x.req.src == c then n.cpus[c := CpuReceive(n.cpus[c], x)] else n.cpus)
    case Continue(c) =>
      n.(cpus := n.cpus[c := CpuResume(n.cfg, n.cpus[c])])
  }

  ghost predicate NetInit(n: Net) {
    && NetSized(n)
    && (forall c | 0 <= c < |n.cpus| ::
          && n.masters[c] == Master([], [], [], [])
          && n.cpus[c] == Cpu(n.cpus[c].unblocking, Initial(), Ready, [], [], {}))
    && (forall s | 0 <= s < |n.slaves| :: n.slaves[s] == Slave([], [], false, [], [], map[]))
  }

  // ---------- what every queue holds ----------

  // Requests on their way out of master c, and responses on their way to it.
  ghost predicate Outgoing(n: Net, c: nat, m: Msg) {
    m.req.src == c && Routed(n.cfg, m.req) && !m.served
  }

  ghost predicate MasterOk(n: Net, c: nat, m: Master) {
    && |m.sending| <= 1 && |m.hand| <= 1 && |m.requests| <= DEPTH && |m.responses| <= DEPTH
    && (forall x | x in m.sending :: Outgoing(n, c, x))
    && (forall x | x in m.requests :: Outgoing(n, c, x))
    && (forall x | x in m.hand :: Outgoing(n, c, x))
    && (forall x | x in m.responses :: Routed(n.cfg, x.req) && x.req.src == c && x.served)
  }

  ghost predicate SlaveOk(n: Net, s: nat, sl: Slave) {
    && |sl.work| <= 1 && |sl.hand| <= 1 && |sl.requests| <= DEPTH && |sl.responses| <= DEPTH
    && sl.processing == (sl.work != [])
    && (forall x | x in sl.requests :: Routed(n.cfg, x.req) && x.req.slave == s && !x.served)
    && (forall x | x in sl.work :: Routed(n.cfg, x.req) && x.req.slave == s)
    && (forall x | x in sl.responses :: Routed(n.cfg, x.req) && x.req.slave == s && x.served)
    && (forall x | x in sl.hand :: Routed(n.cfg, x.req) && x.req.slave == s && x.served)
  }

  ghost predicate NetOk(n: Net) {
    && NetSized(n)
    && (forall c | 0 <= c < |n.masters| :: MasterOk(n, c, n.masters[c]))
    && (forall s | 0 <= s < |n.slaves| :: SlaveOk(n, s, n.slaves[s]))
  }

  lemma InitNetOk(n: Net)
    requires NetInit(n)
    ensures NetOk(n)
  {
  }

  lemma SetMasterOk(n: Net, c: nat, m: Master)
    requires NetOk(n) && c < |n.masters| && MasterOk(n, c, m)
    ensures NetOk(SetMaster(n, c, m))
  {
    var n' := SetMaster(n, c, m);
    assert forall d | 0 <= d < |n'.masters| :: MasterOk(n, d, n'.masters[d]);
    assert forall d | 0 <= d < |n'.masters| :: MasterOk(n', d, n'.masters[d]);
    assert forall s | 0 <= s < |n'.slaves| :: SlaveOk(n, s, n'.slaves[s]);
  }

  lemma SetSlaveOk(n: Net, s: nat, sl: Slave)
    requires NetOk(n) && s < |n.slaves| && SlaveOk(n, s, sl)
    ensures NetOk(SetSlave(n, s, sl))
  {
    var n' := SetSlave(n, s, sl);
    assert forall d | 0 <= d < |n'.slaves| :: SlaveOk(n, d, n'.slaves[d]);
    assert forall d | 0 <= d < |n'.slaves| :: SlaveOk(n', d, n'.slaves[d]);
    assert forall c | 0 <= c < |n'.masters| :: MasterOk(n, c, n'.masters[c]);
  }

  lemma SetCpuOk(n: Net, cpus: seq<Cpu>)
    requires NetOk(n) && |cpus| == |n.cpus|
    ensures NetOk(n.(cpus := cpus))
  {
    var n' := n.(cpus := cpus);
    assert forall c | 0 <= c < |n'.masters| :: MasterOk(n, c, n'.masters[c]);
    assert forall s | 0 <= s < |n'.slaves| :: SlaveOk(n, s, n'.slaves[s]);
  }

  // The route of a request that is under way is the one it was issued for.
  lemma RouteIsKnown(n: Net, c: nat, m: Msg)
    requires c < |n.cfg.maps| && Outgoing(n, c, m)
    ensures Route(n.cfg, c, m) == Some(m)
  {
  }

  lemma MasterMoveKeepsOk(n: Net, mv: Move)
    requires NetOk(n) && CanMove(n, mv) && (mv.Put? || mv.Fetch? || mv.Deliver?)
    ensures NetOk(Moved(n, mv))
  {
    var m := Moved(n, mv).masters[mv.c];
    SetMasterOk(n, mv.c, m);
    SetCpuOk(SetMaster(n, mv.c, m), Moved(n, mv).cpus);
  }

  lemma StartKeepsOk(n: Net, mv: Move)
    requires NetOk(n) && CanMove(n, mv) && mv.Start?
    ensures NetOk(Moved(n, mv))
  {
    var m := n.masters[mv.c].(sending := [Msg(Started(n, mv), false, 0)]);
    SetMasterOk(n, mv.c, m);
    SetCpuOk(SetMaster(n, mv.c, m), Moved(n, mv).cpus);
  }

  lemma SlaveMoveKeepsOk(n: Net, mv: Move)
    requires NetOk(n) && CanMove(n, mv) && (mv.Accept? || mv.Perform? || mv.Answer? || mv.Collect?)
    ensures NetOk(Moved(n, mv))
  {
    SetSlaveOk(n, mv.s, Moved(n, mv).slaves[mv.s]);
  }

  lemma MoveKeepsOk(n: Net, mv: Move)
    requires NetOk(n) && CanMove(n, mv)
    ensures NetOk(Moved(n, mv))
  {
    match mv
    case Start(c, _, _, _, _) => StartKeepsOk(n, mv);
    case Dispatch(c) => DispatchKeepsOk(n, c);
    case Return(s) => ReturnKeepsOk(n, s);
    case Continue(c) => SetCpuOk(n, Moved(n, mv).cpus);
    case Put(_) => MasterMoveKeepsOk(n, mv);
    case Fetch(_) => MasterMoveKeepsOk(n, mv);
    case Deliver(_) => MasterMoveKeepsOk(n, mv);
    case _ => SlaveMoveKeepsOk(n, mv);
  }

  lemma DispatchKeepsOk(n: Net, c: nat)
    requires NetOk(n) && CanMove(n, Dispatch(c))
    ensures NetOk(Moved(n, Dispatch(c)))
  {
    var m := n.masters[c];
    var x := m.hand[0];
    RouteIsKnown(n, c, x);
    var n1 := SetMaster(n, c, m.(hand := m.hand[1..]));
    SetMasterOk(n, c, m.(hand := m.hand[1..]));
    var s := x.req.slave;
    assert SlaveOk(n1, s, n1.slaves[s]);
    SetSlaveOk(n1, s, n.slaves[s].(requests := n.slaves[s].requests + [x]));
  }

  lemma ReturnKeepsOk(n: Net, s: nat)
    requires NetOk(n) && CanMove(n, Return(s))
    ensures NetOk(Moved(n, Return(s)))
  {
    var sl := n.slaves[s];
    var n1 := SetSlave(n, s, sl.(hand := sl.hand[1..]));
    SetSlaveOk(n, s, sl.(hand := sl.hand[1..]));
    var c := sl.hand[0].req.src;
    assert MasterOk(n1, c, n1.masters[c]);
    SetMasterOk(n1, c, n.masters[c].(responses := n.masters[c].responses + [sl.hand[0]]));
  }

  // ---------- runs ----------

  ghost predicate NetLegal(n: Net, moves: seq<Move>)
    decreases |moves|
  {
    NetSized(n) && (moves == [] || (CanMove(n, moves[0]) && NetLegal(Moved(n, moves[0]), moves[1..])))
  }

  ghost function NetAfter(n: Net, moves: seq<Move>): Net
    requires NetLegal(n, moves)
    decreases |moves|
  {
    if moves == [] then n else NetAfter(Moved(n, moves[0]), moves[1..])
  }

  lemma {:induction false} NetRunKeepsOk(n: Net, moves: seq<Move>)
    requires NetOk(n) && NetLegal(n, moves)
    ensures NetOk(NetAfter(n, moves))
    decreases |moves|
  {
    if moves != [] {
      MoveKeepsOk(n, moves[0]);
      NetRunKeepsOk(Moved(n, moves[0]), moves[1..]);
    }
  }
}

/**
 The limit of the request pool: with five slaves to post to, a CPU can fill all queues and use up its
 hundred requests, so that four slaves are as many as it may post to.
 */
module NetworkLimit {
  import opened AddressMap
  import opened Options
  import opened PoolModel
  import opened Channels
  import opened Network
  import opened NetworkGuarantees

  // One CPU and five memories of eight bytes each; the regions from number k on.
  function Regions(k: nat): seq<Region>
    requires k <= 5
    decreases 5 - k
  {
    if k == 5 then [] else [Region(k, 8 * k, 8 * k + 8, 0)] + Regions(k + 1)
  }

  function FiveMemories(): Config { Config([Regions(0)], [Memory, Memory, Memory, Memory, Memory]) }

  lemma {:induction false} DecodedFrom(k: nat, s: nat)
    requires k <= s < 5
    ensures Decode(Regions(k), 8 * s) == Some((s, 0))
    decreases s - k
  {
    assert Regions(k)[1..] == Regions(k + 1);
    if k < s {
      DecodedFrom(k + 1, s);
    }
  }

  lemma Located(s: nat)
    requires s < 5
    ensures Locate(FiveMemories().maps[0], 8 * s) == Some((s, 0)) && IsWord(8 * s, 0)
  {
    hide Regions, Decode;
    DecodedFrom(0, s);
  }

  // ---------- how full everything is ----------

  // work is 1 before and 2 after the device has performed its request.
  datatype Load = Load(requests: nat, work: nat, responses: nat, hand: nat)

  // free requests of the pool, the queues of the master, whose requests are all for slave to, and the
  // slaves.
  datatype Fill = Fill(free: nat, sending: nat, requests: nat, hand: nat, responses: nat, to: nat, loads: seq<Load>)

  function LoadOf(sl: Slave): Load {
    Load(|sl.requests|, if sl.work == [] then 0 else if sl.work[0].served then 2 else 1, |sl.responses|, |sl.hand|)
  }

  ghost predicate CpuHas(cpu: Cpu, f: Fill) {
    && cpu.phase.Ready? && cpu.unblocking && |cpu.pool.free| == f.free
    && forall r | r in cpu.issued :: r.slave < 5
  }

  ghost predicate MasterHas(m: Master, f: Fill) {
    && |m.sending| == f.sending && |m.requests| == f.requests && |m.hand| == f.hand && |m.responses| == f.responses
    && forall x | x in m.sending + m.requests + m.hand :: x.req.slave == f.to
  }

  ghost predicate Has(n: Net, f: Fill) {
    && NetOk(n) && n.cfg == FiveMemories() && |n.cpus| == 1 && |f.loads| == 5 && f.to < 5
    && CpuHas(n.cpus[0], f) && MasterHas(n.masters[0], f)
    && forall s | 0 <= s < 5 :: LoadOf(n.slaves[s]) == f.loads[s]
  }

  // The moves, as far as they matter for that.
  predicate CanGo(f: Fill, mv: Move) {
    && |f.loads| == 5
    && match mv
       case Start(c, addr, write, _, io) =>
         && c == 0 && addr % 8 == 0 && addr / 8 < 5 && write && !io && f.free > 0
         && f.sending == 0 && (f.to == addr / 8 || f.requests == f.hand == 0)
       case Put(c) => c == 0 && f.sending == 1 && f.requests < DEPTH
       case Fetch(c) => c == 0 && f.hand == 0 && f.requests > 0
       case Dispatch(c) => c == 0 && f.hand == 1 && f.to < 5 && f.loads[f.to].requests < DEPTH
       case Accept(s) => s < 5 && f.loads[s].work == 0 && f.loads[s].requests > 0
       case Perform(s) => s < 5 && f.loads[s].work == 1
       case Answer(s) => s < 5 && f.loads[s].work == 2 && f.loads[s].responses < DEPTH
       case Collect(s) => s < 5 && f.loads[s].hand == 0 && f.loads[s].responses > 0
       case Return(s) => s < 5 && f.loads[s].hand == 1 && f.responses < DEPTH
       case _ => false
  }

  function Gone(f: Fill, mv: Move): Fill
    requires CanGo(f, mv)
  {
    match mv
    case Start(_, addr, _, _, _) => f.(free := f.free - 1, sending := 1, to := addr / 8)
    case Put(_) => f.(sending := 0, requests := f.requests + 1)
    case Fetch(_) => f.(hand := 1, requests := f.requests - 1)
    case Dispatch(_) =>
      f.(hand := 0, loads := f.loads[f.to := f.loads[f.to].(requests := f.loads[f.to].requests + 1)])
    case Accept(s) => f.(loads := f.loads[s := f.loads[s].(requests := f.loads[s].requests - 1, work := 1)])
    case Perform(s) => f.(loads := f.loads[s := f.loads[s].(work := 2)])
    case Answer(s) => f.(loads := f.loads[s := f.loads[s].(work := 0, responses := f.loads[s].responses + 1)])
    case Collect(s) => f.(loads := f.loads[s := f.loads[s].(responses := f.loads[s].responses - 1, hand := 1)])
    case Return(s) => f.(responses := f.responses + 1, loads := f.loads[s := f.loads[s].(hand := 0)])
    case _ => f
  }

  lemma StartHas(n: Net, f: Fill, mv: Move)
    requires Has(n, f) && CanGo(f, mv) && mv.Start?
    ensures CanMove(n, mv) && Has(Moved(n, mv), Gone(f, mv))
  {
    assert mv.addr == 8 * (mv.addr / 8);
    Located(mv.addr / 8);
    assert n.masters[0].sending == [];
    hide Locate, NetOk;
    assert CanMove(n, mv);
    MoveKeepsOk(n, mv);
  }

  lemma MasterMoveHas(n: Net, f: Fill, mv: Move)
    requires Has(n, f) && CanGo(f, mv) && (mv.Put? || mv.Fetch?)
    ensures CanMove(n, mv) && Has(Moved(n, mv), Gone(f, mv))
  {
    assert NetSized(n);
    hide Locate, NetOk;
    assert CanMove(n, mv);
    MoveKeepsOk(n, mv);
  }

  lemma DispatchHas(n: Net, f: Fill, mv: Move)
    requires Has(n, f) && CanGo(f, mv) && mv.Dispatch?
    ensures CanMove(n, mv) && Has(Moved(n, mv), Gone(f, mv))
  {
    var x := n.masters[0].hand[0];
    assert x in n.masters[0].sending + n.masters[0].requests + n.masters[0].hand;
    assert MasterOk(n, 0, n.masters[0]) && Outgoing(n, 0, x);
    RouteIsKnown(n, 0, x);
    hide Locate, NetOk, Route;
    assert CanMove(n, mv);
    MoveKeepsOk(n, mv);
  }

  lemma SlaveMoveHas(n: Net, f: Fill, mv: Move)
    requires Has(n, f) && CanGo(f, mv) && (mv.Accept? || mv.Perform? || mv.Answer? || mv.Collect?)
    ensures CanMove(n, mv) && Has(Moved(n, mv), Gone(f, mv))
  {
    assert SlaveOk(n, mv.s, n.slaves[mv.s]) && LoadOf(n.slaves[mv.s]) == f.loads[mv.s];
    hide Locate, NetOk;
    assert CanMove(n, mv);
    MoveKeepsOk(n, mv);
  }

  lemma ReturnHas(n: Net, f: Fill, mv: Move)
    requires Has(n, f) && CanGo(f, mv) && mv.Return?
    ensures CanMove(n, mv) && Has(Moved(n, mv), Gone(f, mv))
  {
    assert SlaveOk(n, mv.s, n.slaves[mv.s]) && LoadOf(n.slaves[mv.s]) == f.loads[mv.s];
    assert n.slaves[mv.s].hand[0] in n.slaves[mv.s].hand;
    hide Locate, NetOk;
    assert CanMove(n, mv);
    MoveKeepsOk(n, mv);
  }

  lemma MoveHas(n: Net, f: Fill, mv: Move)
    requires Has(n, f) && CanGo(f, mv)
    ensures CanMove(n, mv) && Has(Moved(n, mv), Gone(f, mv))
  {
    hide Has, CanMove, Moved, Gone;
    match mv
    case Start(_, _, _, _, _) => StartHas(n, f, mv);
    case Put(_) => MasterMoveHas(n, f, mv);
    case Fetch(_) => MasterMoveHas(n, f, mv);
    case Dispatch(_) => DispatchHas(n, f, mv);
    case Return(_) => ReturnHas(n, f, mv);
    case _ => SlaveMoveHas(n, f, mv);
  }

  // ---------- ways to fill ----------

  ghost predicate Goes(f: Fill, moves: seq<Move>, f': Fill)
    decreases |moves|
  {
    if moves == [] then f == f' else CanGo(f, moves[0]) && Goes(Gone(f, moves[0]), moves[1..], f')
  }

  ghost predicate Leads(f: Fill, f': Fill) { exists moves :: Goes(f, moves, f') }

  lemma {:induction false} GoesHas(n: Net, f: Fill, moves: seq<Move>, f': Fill)
    requires Has(n, f) && Goes(f, moves, f')
    ensures NetLegal(n, moves) && Has(NetAfter(n, moves), f')
    decreases |moves|
  {
    SizedOfHas(n, f);
    hide Has, CanMove, Moved, Gone, CanGo, NetSized;
    if moves != [] {
      MoveHas(n, f, moves[0]);
      GoesHas(Moved(n, moves[0]), Gone(f, moves[0]), moves[1..], f');
    }
  }

  lemma SizedOfHas(n: Net, f: Fill)
    requires Has(n, f)
    ensures NetSized(n)
  {
  }

  lemma {:induction false} GoesOn(f: Fill, p: seq<Move>, f1: Fill, q: seq<Move>, f2: Fill)
    requires Goes(f, p, f1) && Goes(f1, q, f2)
    ensures Goes(f, p + q, f2)
    decreases |p|
  {
    hide CanGo, Gone;
    if p == [] {
      assert p + q == q;
    } else {
      assert (p + q)[1..] == p[1..] + q;
      GoesOn(Gone(f, p[0]), p[1..], f1, q, f2);
    }
  }

  lemma ThenOne(f: Fill, f1: Fill, mv: Move)
    requires Leads(f, f1) && CanGo(f1, mv)
    ensures Leads(f, Gone(f1, mv))
  {
    hide CanGo, Gone;
    var p :| Goes(f, p, f1);
    assert [mv][1..] == [];
    assert Goes(f1, [mv], Gone(f1, mv));
    GoesOn(f, p, f1, [mv], Gone(f1, mv));
  }

  lemma Stays(f: Fill)
    ensures Leads(f, f)
  {
    assert Goes(f, [], f);
  }

  // A write to slave s on its way into the queue of the slave, when nothing else is on its way.
  lemma Post(f: Fill, g: Fill, s: nat)
    requires Leads(f, g) && |g.loads| == 5 && s < 5 && g.free > 0 && g.loads[s].requests < DEPTH
    requires g.sending == g.requests == g.hand == 0
    ensures var l := g.loads[s];
      Leads(f, g.(free := g.free - 1, to := s, loads := g.loads[s := l.(requests := l.requests + 1)]))
  {
    hide Leads;
    ThenOne(f, g, Start(0, 8 * s, true, 0, false));
    var g1 := g.(free := g.free - 1, sending := 1, to := s);
    ThenOne(f, g1, Put(0));
    var g2 := g1.(sending := 0, requests := 1);
    ThenOne(f, g2, Fetch(0));
    ThenOne(f, g2.(requests := 0, hand := 1), Dispatch(0));
  }

  // The same, answered by the device.
  lemma PostAnswered(f: Fill, g: Fill, s: nat)
    requires Leads(f, g) && |g.loads| == 5 && s < 5 && g.free > 0
    requires g.loads[s].requests == 0 && g.loads[s].work == 0 && g.loads[s].responses < DEPTH
    requires g.sending == g.requests == g.hand == 0
    ensures var l := g.loads[s];
      Leads(f, g.(free := g.free - 1, to := s, loads := g.loads[s := l.(responses := l.responses + 1)]))
  {
    hide Leads;
    Post(f, g, s);
    var l := g.loads[s];
    var g1 := g.(free := g.free - 1, to := s, loads := g.loads[s := l.(requests := 1)]);
    ThenOne(f, g1, Accept(s));
    var g2 := g1.(loads := g1.loads[s := l.(work := 1)]);
    ThenOne(f, g2, Perform(s));
    var g3 := g2.(loads := g2.loads[s := l.(work := 2)]);
    ThenOne(f, g3, Answer(s));
    assert Gone(g3, Answer(s)).loads == g.loads[s := l.(responses := l.responses + 1)];
  }

  lemma {:induction false} PostMany(f: Fill, g: Fill, s: nat, k: nat)
    requires Leads(f, g) && |g.loads| == 5 && s < 5 && g.free >= k && g.loads[s].requests + k <= DEPTH && g.to == s
    requires g.sending == g.requests == g.hand == 0
    ensures Leads(f, g.(free := g.free - k, loads := g.loads[s := g.loads[s].(requests := g.loads[s].requests + k)]))
    decreases k
  {
    hide Leads;
    if k == 0 {
      assert g.loads[s := g.loads[s]] == g.loads;
    } else {
      var l := g.loads[s];
      Post(f, g, s);
      var g1 := g.(free := g.free - 1, loads := g.loads[s := l.(requests := l.requests + 1)]);
      PostMany(f, g1, s, k - 1);
      assert g1.loads[s := l.(requests := l.requests + k)] == g.loads[s := l.(requests := l.requests + k)];
    }
  }

  lemma {:induction false} PostAnsweredMany(f: Fill, g: Fill, s: nat, k: nat)
    requires Leads(f, g) && |g.loads| == 5 && s < 5 && g.free >= k && g.to == s
    requires g.loads[s].requests == 0 && g.loads[s].work == 0 && g.loads[s].responses + k <= DEPTH
    requires g.sending == g.requests == g.hand == 0
    ensures Leads(f, g.(free := g.free - k, loads := g.loads[s := g.loads[s].(responses := g.loads[s].responses + k)]))
    decreases k
  {
    hide Leads;
    if k == 0 {
      assert g.loads[s := g.loads[s]] == g.loads;
    } else {
      var l := g.loads[s];
      PostAnswered(f, g, s);
      var g1 := g.(free := g.free - 1, loads := g.loads[s := l.(responses := l.responses + 1)]);
      PostAnsweredMany(f, g1, s, k - 1);
      assert g1.loads[s := l.(responses := l.responses + k)] == g.loads[s := l.(responses := l.responses + k)];
    }
  }

  // Eighteen writes fill a slave: a response in the hand of its dispatcher, eight in its queue, one
  // with the device, and eight requests.
  lemma FillSlave(f: Fill, g: Fill, s: nat)
    requires Leads(f, g) && |g.loads| == 5 && s < 5 && g.free >= 18 && g.loads[s] == Load(0, 0, 0, 0)
    requires g.sending == g.requests == g.hand == 0
    ensures Leads(f, g.(free := g.free - 18, to := s, loads := g.loads[s := Load(8, 2, 8, 1)]))
  {
    hide Leads;
    PostAnswered(f, g, s);
    var g1 := g.(free := g.free - 1, to := s, loads := g.loads[s := Load(0, 0, 1, 0)]);
    ThenOne(f, g1, Collect(s));
    var g2 := g1.(loads := g.loads[s := Load(0, 0, 0, 1)]);
    assert Gone(g1, Collect(s)) == g2;
    PostAnsweredMany(f, g2, s, 8);
    var g3 := g2.(free := g.free - 9, loads := g.loads[s := Load(0, 0, 8, 1)]);
    assert g2.loads[s := Load(0, 0, 8, 1)] == g3.loads;
    Post(f, g3, s);
    var g4 := g3.(free := g.free - 10, loads := g.loads[s := Load(1, 0, 8, 1)]);
    assert g3.loads[s := Load(1, 0, 8, 1)] == g4.loads;
    ThenOne(f, g4, Accept(s));
    var g5 := g4.(loads := g.loads[s := Load(0, 1, 8, 1)]);
    assert Gone(g4, Accept(s)) == g5;
    ThenOne(f, g5, Perform(s));
    var g6 := g5.(loads := g.loads[s := Load(0, 2, 8, 1)]);
    assert Gone(g5, Perform(s)) == g6;
    PostMany(f, g6, s, 8);
    assert g6.loads[s := Load(8, 2, 8, 1)] == g.loads[s := Load(8, 2, 8, 1)];
  }

  // Writes that stay with the master.
  lemma {:induction false} HoldBack(f: Fill, g: Fill, k: nat)
    requires Leads(f, g) && |g.loads| == 5 && g.free >= k && g.requests + k <= DEPTH && g.sending == 0 && g.to < 5
    ensures Leads(f, g.(free := g.free - k, requests := g.requests + k))
    decreases k
  {
    hide Leads;
    if k > 0 {
      ThenOne(f, g, Start(0, 8 * g.to, true, 0, false));
      var g1 := g.(free := g.free - 1, sending := 1);
      ThenOne(f, g1, Put(0));
      HoldBack(f, g1.(sending := 0, requests := g.requests + 1), k - 1);
    }
  }

  // The first k slaves are full and the others empty.
  function Filled(k: nat): (r: seq<Load>)
    ensures |r| == 5 && forall s | 0 <= s < 5 :: r[s] == if s < k then Load(8, 2, 8, 1) else Load(0, 0, 0, 0)
  {
    seq(5, s => if s < k then Load(8, 2, 8, 1) else Load(0, 0, 0, 0))
  }

  function Quiet(k: nat): Fill
    requires k <= 5
  {
    Fill(100 - 18 * k, 0, 0, 0, 0, if k == 0 then 0 else k - 1, Filled(k))
  }

  lemma {:induction false} FillSlaves(k: nat)
    requires k <= 5
    ensures Leads(Quiet(0), Quiet(k))
  {
    hide Leads;
    if k == 0 {
      Stays(Quiet(0));
    } else {
      FillSlaves(k - 1);
      FillSlave(Quiet(0), Quiet(k - 1), k - 1);
      assert Filled(k - 1)[k - 1 := Load(8, 2, 8, 1)] == Filled(k);
    }
  }

  // One step of the last slave.
  lemma LastSlave(f: Fill, g: Fill, l: Load, mv: Move, l': Load)
    requires g.loads == Filled(5)[4 := l] && Leads(f, g) && CanGo(g, mv)
    requires (mv.Accept? || mv.Perform? || mv.Answer? || mv.Collect?) && mv.s == 4 && Gone(g, mv).loads[4] == l'
    ensures Leads(f, g.(loads := Filled(5)[4 := l']))
  {
    hide Leads;
    ThenOne(f, g, mv);
    assert Gone(g, mv).loads == Filled(5)[4 := l'];
  }

  // All slaves are full; then the master's hand and its queue,
  lemma FillMaster()
    ensures Leads(Quiet(0), Fill(1, 0, 8, 1, 0, 4, Filled(5)))
  {
    FillSlaves(5);
    hide Leads, Filled;
    HoldBack(Quiet(0), Quiet(5), 1);
    ThenOne(Quiet(0), Fill(9, 0, 1, 0, 0, 4, Filled(5)), Fetch(0));
    HoldBack(Quiet(0), Fill(9, 0, 0, 1, 0, 4, Filled(5)), 8);
  }

  // and then one response goes back and all queues move on by one.
  lemma UsedUp()
    ensures Leads(Quiet(0), Fill(0, 0, 8, 1, 1, 4, Filled(5)))
  {
    FillMaster();
    hide Leads;
    ThenOne(Quiet(0), Fill(1, 0, 8, 1, 0, 4, Filled(5)), Return(4));
    var g := Fill(1, 0, 8, 1, 1, 4, Filled(5)[4 := Load(8, 2, 8, 0)]);
    LastSlave(Quiet(0), g, Load(8, 2, 8, 0), Collect(4), Load(8, 2, 7, 1));
    LastSlave(Quiet(0), g.(loads := Filled(5)[4 := Load(8, 2, 7, 1)]), Load(8, 2, 7, 1), Answer(4), Load(8, 0, 8, 1));
    LastSlave(Quiet(0), g.(loads := Filled(5)[4 := Load(8, 0, 8, 1)]), Load(8, 0, 8, 1), Accept(4), Load(7, 1, 8, 1));
    LastSlave(Quiet(0), g.(loads := Filled(5)[4 := Load(7, 1, 8, 1)]), Load(7, 1, 8, 1), Perform(4), Load(7, 2, 8, 1));
    LastRequest();
  }

  lemma LastRequest()
    requires Leads(Quiet(0), Fill(1, 0, 8, 1, 1, 4, Filled(5)[4 := Load(7, 2, 8, 1)]))
    ensures Leads(Quiet(0), Fill(0, 0, 8, 1, 1, 4, Filled(5)))
  {
    hide Leads;
    var g := Fill(1, 0, 8, 1, 1, 4, Filled(5)[4 := Load(7, 2, 8, 1)]);
    ThenOne(Quiet(0), g, Dispatch(0));
    assert Gone(g, Dispatch(0)).loads == Filled(5);
    ThenOne(Quiet(0), Fill(1, 0, 8, 0, 1, 4, Filled(5)), Fetch(0));
    HoldBack(Quiet(0), Fill(1, 0, 7, 1, 1, 4, Filled(5)), 1);
  }

  // ---------- the run ----------

  function Empty(): Net {
    var sl := Slave([], [], false, [], [], map[]);
    Net(FiveMemories(), [Cpu(true, Initial(), Ready, [], [], {})], [Master([], [], [], [])], [sl, sl, sl, sl, sl])
  }

  lemma EmptyHas()
    ensures NetInit(Empty()) && Has(Empty(), Quiet(0))
  {
    InitNetOk(Empty());
    hide NetOk;
  }

  lemma NothingLeft(n: Net, f: Fill)
    requires Has(n, f) && f.free == 0 && f.sending == 0
    ensures |n.cpus| == 1 && |n.masters| == 1 && PostsTo(n.cpus[0], {0, 1, 2, 3, 4})
    ensures n.cpus[0].phase.Ready? && n.masters[0].sending == [] && n.cpus[0].pool.free == []
  {
    hide MasterOk, SlaveOk;
  }

  // A CPU that posts to five slaves is about to issue, with no request left.
  lemma PoolRunsOut() returns (moves: seq<Move>)
    ensures NetInit(Empty()) && NetLegal(Empty(), moves)
    ensures var b := NetAfter(Empty(), moves);
      && |b.cpus| == 1 && |b.masters| == 1 && PostsTo(b.cpus[0], {0, 1, 2, 3, 4})
      && b.cpus[0].phase.Ready? && b.masters[0].sending == [] && b.cpus[0].pool.free == []
  {
    EmptyHas();
    UsedUp();
    var f := Fill(0, 0, 8, 1, 1, 4, Filled(5));
    moves :| Goes(Quiet(0), moves, f);
    hide Has, NetLegal, NetAfter, NetInit, Empty, Goes, PostsTo, Quiet, Filled;
    GoesHas(Empty(), Quiet(0), moves, f);
    NothingLeft(NetAfter(Empty(), moves), f);
  }
}

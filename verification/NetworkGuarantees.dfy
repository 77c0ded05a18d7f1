/**
 What the wrappers rely on, for every run of the network with its queues: responses meet their
 requests, fences, locks, and a request pool that never runs out.
 */
module NetworkGuarantees {
  import opened PoolModel
  import opened Channels
  import opened ChannelOrder
  import opened ChannelRuns
  import opened MutualExclusion
  import opened Network
  import opened NetworkRefinement

  // ---------- exactly once ----------

  // The response that arrives at a master is its own and finds its request busy and not done: the
  // branches for a wrong source and for an unknown tid are never taken.
  lemma ResponseMeetsRequest(n: Net, moves: seq<Move>, c: nat)
    requires NetInit(n) && NetLegal(n, moves)
    requires NetSized(NetAfter(n, moves)) && CanMove(NetAfter(n, moves), Deliver(c))
    ensures var b := NetAfter(n, moves);
      var r := b.masters[c].responses[0].req;
      var busy := b.cpus[c].pool.busy;
      var k := Find(busy, r.tid);
      r.src == c && k < |busy| && busy[k] == Entry(r.tid, r.write, false, NO_DATA)
  {
    var steps := NetworkRefinesChannels(n, moves);
    var b, a := NetAfter(n, moves), After(Start0(n), steps);
    FlightIsFromCpu(a, c);
    var st := DeliverIsReceive(b, a, c);
    assert CpuOk(a.cfg, c, a.cpus[c], a.flight[c], a.log);
    ReceiveFinds(a.cpus[c], a.flight[c], st.i);
  }

  ghost predicate DifferentTids(q: seq<Msg>) { forall i, j | 0 <= i < j < |q| :: q[i].req.tid != q[j].req.tid }

  lemma {:induction false} OfDifferent(q: seq<Msg>, c: nat, s: nat)
    requires DifferentTids(q)
    ensures DifferentTids(Of(q, c, s))
  {
    if q != [] {
      var rest := Of(q[1..], c, s);
      OfDifferent(q[1..], c, s);
      OfIsIn(q[1..], c, s);
      assert forall j | 0 <= j < |rest| :: rest[j] in rest;
    }
  }

  lemma FlightTids(cpu: Cpu, fl: seq<Msg>)
    requires PoolOk(cpu, fl)
    ensures DifferentTids(fl)
  {
    forall i, j | 0 <= i < j < |fl|
      ensures fl[i].req.tid != fl[j].req.tid
    {
      ReceiveFinds(cpu, fl, i);
      ReceiveFinds(cpu, fl, j);
    }
  }

  // The tids of the busy requests that are not done.
  ghost predicate Awaited(cpu: Cpu, tid: nat) {
    exists k :: 0 <= k < |cpu.pool.busy| && cpu.pool.busy[k].tid == tid && !cpu.pool.busy[k].done
  }

  ghost predicate UnderWay(n: Net, c: nat, s: nat, tid: nat)
    requires c < |n.masters| && s < |n.slaves|
  {
    exists m :: m in Path(n.masters[c], n.slaves[s], c, s) && m.req.tid == tid
  }

  lemma AwaitedIsInFlight(cpu: Cpu, fl: seq<Msg>, tid: nat)
    requires PoolOk(cpu, fl)
    ensures Awaited(cpu, tid) <==> exists m :: m in fl && m.req.tid == tid
  {
    if Awaited(cpu, tid) {
      var k :| 0 <= k < |cpu.pool.busy| && cpu.pool.busy[k].tid == tid && !cpu.pool.busy[k].done;
      BusyOfAt(fl, |fl| - 1 - k);
      assert fl[|fl| - 1 - k] in fl;
    }
    forall m | m in fl && m.req.tid == tid
      ensures Awaited(cpu, tid)
    {
      var i :| 0 <= i < |fl| && fl[i] == m;
      ReceiveFinds(cpu, fl, i);
    }
  }

  lemma PathsTids(fl: seq<Msg>, c: nat, s: nat)
    requires DifferentTids(fl)
    ensures DifferentTids(Of(fl, c, s))
    ensures forall m | m in Of(fl, c, s) :: m in fl && Mine(m, c, s)
  {
    OfDifferent(fl, c, s);
    OfIsIn(fl, c, s);
  }

  lemma InFlightIsUnderWay(n: Net, a: Sys, c: nat, m: Msg)
    requires Refines(n, a) && c < |n.masters| && m in a.flight[c]
    ensures m.req.slave < |n.slaves| && UnderWay(n, c, m.req.slave, m.req.tid)
  {
    var fl, s := a.flight[c], m.req.slave;
    assert CpuOk(a.cfg, c, a.cpus[c], fl, a.log);
    var i :| 0 <= i < |fl| && fl[i] == m;
    assert IssuedBy(c, a.cpus[c], fl[i].req) && Routed(a.cfg, fl[i].req);
    OfHas(fl, c, s, i);
    assert Matches(n, a, c, s);
  }

  lemma UnderWayIsInFlight(n: Net, a: Sys, c: nat, s: nat, tid: nat) returns (m: Msg)
    requires Refines(n, a) && c < |n.masters| && s < |n.slaves| && UnderWay(n, c, s, tid)
    ensures m in a.flight[c] && m.req.tid == tid && m.req.slave == s
  {
    assert Matches(n, a, c, s);
    OfIsIn(a.flight[c], c, s);
    m :| m in Path(n.masters[c], n.slaves[s], c, s) && m.req.tid == tid;
  }

  // A CPU waits for exactly the transactions that the queues, hands and devices hold for it: the
  // tids of its busy requests not done are those of the messages on its paths,
  lemma ExactlyTheAwaited(n: Net, moves: seq<Move>, c: nat, tid: nat)
    requires NetInit(n) && NetLegal(n, moves) && c < |NetAfter(n, moves).masters|
    ensures var b := NetAfter(n, moves);
      && NetSized(b)
      && (Awaited(b.cpus[c], tid) <==> exists s :: 0 <= s < |b.slaves| && UnderWay(b, c, s, tid))
  {
    var steps := NetworkRefinesChannels(n, moves);
    var b, a := NetAfter(n, moves), After(Start0(n), steps);
    assert CpuOk(a.cfg, c, a.cpus[c], a.flight[c], a.log);
    AwaitedIsInFlight(b.cpus[c], a.flight[c], tid);
    if Awaited(b.cpus[c], tid) {
      var m :| m in a.flight[c] && m.req.tid == tid;
      InFlightIsUnderWay(b, a, c, m);
    }
    if s :| 0 <= s < |b.slaves| && UnderWay(b, c, s, tid) {
      var m := UnderWayIsInFlight(b, a, c, s, tid);
    }
  }

  // and no two messages under way have the same tid, on one path or on two.
  lemma NoTidTwice(n: Net, moves: seq<Move>, c: nat, s: nat, t: nat, tid: nat)
    requires NetInit(n) && NetLegal(n, moves) && c < |NetAfter(n, moves).masters|
    requires s < |NetAfter(n, moves).slaves| && t < |NetAfter(n, moves).slaves|
    ensures var b := NetAfter(n, moves);
      && DifferentTids(Path(b.masters[c], b.slaves[s], c, s))
      && (UnderWay(b, c, s, tid) && UnderWay(b, c, t, tid) ==> s == t)
  {
    var steps := NetworkRefinesChannels(n, moves);
    var b, a := NetAfter(n, moves), After(Start0(n), steps);
    assert CpuOk(a.cfg, c, a.cpus[c], a.flight[c], a.log);
    FlightTids(b.cpus[c], a.flight[c]);
    assert Matches(b, a, c, s);
    PathsTids(a.flight[c], c, s);
    if UnderWay(b, c, s, tid) && UnderWay(b, c, t, tid) {
      var x := UnderWayIsInFlight(b, a, c, s, tid);
      var y := UnderWayIsInFlight(b, a, c, t, tid);
      SameTidSameMessage(a.flight[c], x, y);
    }
  }

  lemma SameTidSameMessage(fl: seq<Msg>, x: Msg, y: Msg)
    requires DifferentTids(fl) && x in fl && y in fl && x.req.tid == y.req.tid
    ensures x == y
  {
    var i :| 0 <= i < |fl| && fl[i] == x;
    var j :| 0 <= j < |fl| && fl[j] == y;
    assert !(i < j) && !(j < i);
  }

  // ---------- fences ----------

  // No transaction of CPU c is in any queue, hand or device.
  ghost predicate NothingUnderWay(n: Net, c: nat)
    requires c < |n.masters|
  {
    forall s | 0 <= s < |n.slaves| :: Path(n.masters[c], n.slaves[s], c, s) == []
  }

  // The posted-write fence: when a read or an I/O write leaves a CPU, or any access of a CPU whose
  // writes block, nothing of that CPU is under way; all that it issued before has been applied.
  lemma FenceOverNetwork(n: Net, moves: seq<Move>, mv: Move) returns (steps: seq<Step>)
    requires NetInit(n) && NetLegal(n, moves) && NetSized(NetAfter(n, moves))
    requires mv.Start? && CanMove(NetAfter(n, moves), mv)
    requires NetAfter(n, moves).cpus[mv.c].unblocking ==> !mv.write || mv.io
    ensures NothingUnderWay(NetAfter(n, moves), mv.c)
    ensures Legal(Start0(n), steps) && Refines(NetAfter(n, moves), After(Start0(n), steps))
    ensures forall r | r in NetAfter(n, moves).cpus[mv.c].issued :: Logged(After(Start0(n), steps).log, r)
  {
    steps := NetworkRefinesChannels(n, moves);
    var b, a := NetAfter(n, moves), After(Start0(n), steps);
    var c := mv.c;
    var cpu := a.cpus[c];
    assert CpuOk(a.cfg, c, cpu, a.flight[c], a.log);
    IssueAlone(a.cfg, c, cpu, a.flight[c], mv.write, mv.io);
    forall s | 0 <= s < |b.slaves|
      ensures Path(b.masters[c], b.slaves[s], c, s) == []
    {
      assert Matches(b, a, c, s);
    }
    forall r | r in cpu.issued
      ensures Logged(a.log, r)
    {
      var k :| 0 <= k < |cpu.issued| && cpu.issued[k] == r;
      LoggedUnder(cpu, a.flight[c], a.log, c, k);
    }
  }

  // ---------- locks ----------

  // The lock discipline, for the moves of the network.
  ghost predicate DisciplinedMove(n: Net, mv: Move)
    requires NetSized(n) && CanMove(n, mv)
  {
    mv.Start? && mv.write ==>
      var r := Started(n, mv);
      n.cfg.kinds[r.slave].Semaphore? ==> r.data == 0 && Holds(n.cpus[mv.c], Word(r.slave, r.offset))
  }

  ghost predicate DisciplinedMoves(n: Net, moves: seq<Move>)
    requires NetLegal(n, moves)
    decreases |moves|
  {
    moves == [] || (DisciplinedMove(n, moves[0]) && DisciplinedMoves(Moved(n, moves[0]), moves[1..]))
  }

  lemma SimulateLocked(n: Net, a: Sys, mv: Move) returns (a': Sys)
    requires Refines(n, a) && Locked(a) && CanMove(n, mv) && DisciplinedMove(n, mv)
    ensures Refines(Moved(n, mv), a') && Locked(a')
  {
    var steps := Simulate(n, a, mv);
    a' := After(a, steps);
    if steps != [] {
      assert steps == [steps[0]] && After(a, steps) == Next(a, steps[0]);
      StepKeepsLocks(a, steps[0]);
    }
  }

  lemma {:induction false} RunIsLocked(n: Net, a: Sys, moves: seq<Move>) returns (a': Sys)
    requires Refines(n, a) && Locked(a) && NetLegal(n, moves) && DisciplinedMoves(n, moves)
    ensures Refines(NetAfter(n, moves), a') && Locked(a')
    decreases |moves|
  {
    if moves == [] {
      a' := a;
    } else {
      var a1 := SimulateLocked(n, a, moves[0]);
      a' := RunIsLocked(Moved(n, moves[0]), a1, moves[1..]);
    }
  }

  // Mutual exclusion over the network: two CPUs never hold a semaphore word together, and while
  // one does the word is taken.
  lemma LocksExclude(n: Net, moves: seq<Move>, w: Word, c: nat, d: nat)
    requires NetInit(n) && NetLegal(n, moves) && DisciplinedMoves(n, moves) && WordOf(NetAfter(n, moves).cfg, w)
    requires c < |NetAfter(n, moves).cpus| && d < |NetAfter(n, moves).cpus| && c != d
    requires Holds(NetAfter(n, moves).cpus[c], w)
    ensures !Holds(NetAfter(n, moves).cpus[d], w)
    ensures w.slave < |NetAfter(n, moves).slaves| && Load(NetAfter(n, moves).slaves[w.slave].mem, w.offset) != 0
  {
    InitRefines(n);
    InitLocks(Start0(n));
    var a := RunIsLocked(n, Start0(n), moves);
    assert Counted(a, w);
    OneHolder(a, w, c, d);
  }

  // ---------- the request pool ----------

  // Transactions between CPU c and some slaves.
  function Count(q: seq<Msg>, c: nat, ts: set<nat>): nat {
    if q == [] then 0 else (if q[0].req.src == c && q[0].req.slave in ts then 1 else 0) + Count(q[1..], c, ts)
  }

  lemma {:induction false} CountSplit(q: seq<Msg>, c: nat, s: nat, ts: set<nat>)
    requires s in ts
    ensures Count(q, c, ts) == Count(q, c, ts - {s}) + |Of(q, c, s)|
  {
    if q != [] {
      CountSplit(q[1..], c, s, ts);
    }
  }

  lemma {:induction false} CountNone(q: seq<Msg>, c: nat)
    ensures Count(q, c, {}) == 0
  {
    if q != [] {
      CountNone(q[1..], c);
    }
  }

  lemma {:induction false} CountAtMost(q: seq<Msg>, c: nat, ts: set<nat>)
    ensures Count(q, c, ts) <= |q|
  {
    if q != [] {
      CountAtMost(q[1..], c, ts);
    }
  }

  lemma {:induction false} CountAll(q: seq<Msg>, c: nat, ts: set<nat>)
    requires forall i | 0 <= i < |q| :: q[i].req.src == c && q[i].req.slave in ts
    ensures Count(q, c, ts) == |q|
  {
    if q != [] {
      CountAll(q[1..], c, ts);
    }
  }

  // A slave interface has room for 18: two queues, two hands.
  lemma PathIsShort(m: Master, sl: Slave, c: nat, s: nat)
    requires |sl.requests| <= DEPTH && |sl.responses| <= DEPTH && |sl.work| <= 1 && |sl.hand| <= 1
    ensures |Path(m, sl, c, s)| <= |Of(m.responses + MasterPart(m), c, s)| + 18
  {
    OfConcat(m.responses, MasterPart(m), c, s);
    OfAtMost(SlavePart(sl), c, s);
  }

  lemma {:induction false} OfAtMost(q: seq<Msg>, c: nat, s: nat)
    ensures |Of(q, c, s)| <= |q|
  {
    if q != [] {
      OfAtMost(q[1..], c, s);
    }
  }

  lemma {:induction false} CountIsBounded(n: Net, a: Sys, c: nat, ts: set<nat>)
    requires NetOk(n) && Sized(a) && Same(n, a) && c < |n.masters| && forall s | s in ts :: s < |n.slaves|
    ensures Count(a.flight[c], c, ts)
            <= Count(n.masters[c].responses + MasterPart(n.masters[c]), c, ts) + 18 * |ts|
    decreases |ts|
  {
    var m := n.masters[c];
    if ts == {} {
      CountNone(a.flight[c], c);
    } else {
      var s :| s in ts;
      CountIsBounded(n, a, c, ts - {s});
      CountSplit(a.flight[c], c, s, ts);
      CountSplit(m.responses + MasterPart(m), c, s, ts);
      assert Matches(n, a, c, s) && SlaveOk(n, s, n.slaves[s]);
      PathIsShort(m, n.slaves[s], c, s);
    }
  }

  // All that a CPU posts without a fence goes to the slaves ts.
  ghost predicate PostsTo(cpu: Cpu, ts: set<nat>) {
    forall r | r in cpu.issued && r.posted && !r.fence :: r.slave in ts
  }

  lemma FlightIsShort(n: Net, a: Sys, c: nat, ts: set<nat>)
    requires Refines(n, a) && c < |n.masters| && (forall s | s in ts :: s < |n.slaves|)
    requires PostsTo(n.cpus[c], ts) && n.cpus[c].phase.Ready?
    ensures |a.flight[c]| <= 19 + 18 * |ts|
  {
    var fl, m := a.flight[c], n.masters[c];
    assert CpuOk(a.cfg, c, a.cpus[c], fl, a.log) && MasterOk(n, c, m);
    if fl != [] {
      forall i | 0 <= i < |fl[1..]|
        ensures fl[1..][i].req.src == c && fl[1..][i].req.slave in ts
      {
        assert IssuedBy(c, a.cpus[c], fl[i + 1].req);
      }
      CountAll(fl[1..], c, ts);
      CountIsBounded(n, a, c, ts);
      CountAtMost(m.responses + MasterPart(m), c, ts);
    }
  }

  // With at most four slaves that a CPU posts to, its pool has a free request whenever it is about
  // to issue: the exit for an empty pool is never taken, for the queues fill up first.
  lemma PoolNeverRunsOut(n: Net, moves: seq<Move>, c: nat, ts: set<nat>)
    requires NetInit(n) && NetLegal(n, moves) && c < |NetAfter(n, moves).cpus|
    requires NetAfter(n, moves).cpus[c].phase.Ready? && PostsTo(NetAfter(n, moves).cpus[c], ts)
    requires forall s | s in ts :: s < |NetAfter(n, moves).slaves|
    ensures |NetAfter(n, moves).cpus[c].pool.busy| <= 19 + 18 * |ts|
    ensures |ts| <= 4 ==> NetAfter(n, moves).cpus[c].pool.free != []
  {
    var steps := NetworkRefinesChannels(n, moves);
    var b, a := NetAfter(n, moves), After(Start0(n), steps);
    assert CpuOk(a.cfg, c, a.cpus[c], a.flight[c], a.log);
    FlightIsShort(b, a, c, ts);
  }
}

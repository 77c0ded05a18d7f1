/**
 What a semaphore does to its words, and what comes of it on the network: an access that has its way
 to itself, from the CPU to the device and back, and locks that are taken, refused, released and
 passed on by such accesses.
 */
module Semaphores {
  import opened AddressMap
  import opened Options
  import opened PoolModel
  import opened Channels
  import opened MutualExclusion
  import opened Network
  import opened NetworkGuarantees

  // ---------- the devices ----------

  ghost predicate SameBut(m: Mem, m': Mem, offset: nat) {
    forall o: nat | o != offset :: Load(m', o) == Load(m, o)
  }

  // A read of a semaphore is answered by 0 exactly if the word is free, and the word is taken once
  // afterwards; one that was taken before stays as it is.
  lemma SemaphoreRead(m: Mem, r: Request)
    requires !r.write
    ensures var (m', v) := Access(Semaphore, m, r);
      && (v == 0 <==> Load(m, r.offset) == 0)
      && Load(m', r.offset) == (if Load(m, r.offset) == 0 then 1 else Load(m, r.offset))
      && SameBut(m, m', r.offset)
  {
  }

  // A write of 0 frees the word, whatever it was, and any other write takes it.  A second write of 1
  // leaves 2, which a read answers by 1; otherwise a read answers the data of the last write.
  lemma SemaphoreWrite(m: Mem, r: Request)
    requires r.write
    ensures var m' := Access(Semaphore, m, r).0;
      && (Load(m', r.offset) == 0 <==> r.data == 0)
      && (r.data != 1 ==> Load(m', r.offset) == r.data)
      && (r.data == 1 ==> Load(m', r.offset) == if Load(m, r.offset) == 1 || Load(m, r.offset) == 2 then 2 else 1)
      && (forall q: Request | !q.write && q.offset == r.offset ::
            Access(Semaphore, m', q).1 == if r.data == 2 then 1 else r.data)
      && SameBut(m, m', r.offset)
  {
  }

  // A memory keeps what is written until the next write to the word, and a read changes nothing.
  lemma MemoryKeeps(m: Mem, r: Request)
    ensures var (m', v) := Access(Memory, m, r);
      && SameBut(m, m', r.offset)
      && (r.write ==> forall q: Request | !q.write && q.offset == r.offset :: Access(Memory, m', q).1 == r.data)
      && (!r.write ==> m' == m && v == Load(m, r.offset))
  {
  }

  // ---------- one move of the network ----------

  // A device that performs a read of a free word has a grant in work, and the word is taken.
  lemma PerformGrants(n: Net, s: nat, w: Word)
    requires NetSized(n) && CanMove(n, Perform(s)) && n.cfg.kinds[s].Semaphore?
    requires Targets(n.slaves[s].work[0].req, w) && w.slave == s && !n.slaves[s].work[0].req.write
    ensures var sl := Moved(n, Perform(s)).slaves[s];
      && sl.work != [] && sl.work[0].req == n.slaves[s].work[0].req && sl.work[0].served
      && (Token(sl.work[0], w) <==> Load(n.slaves[s].mem, w.offset) == 0)
      && Load(sl.mem, w.offset) != 0 && SameBut(n.slaves[s].mem, sl.mem, w.offset)
  {
    SemaphoreRead(n.slaves[s].mem, n.slaves[s].work[0].req);
  }

  // The CPU that goes on with a grant holds the word, and with any other answer it holds what it held.
  lemma ContinueHolds(n: Net, c: nat, w: Word)
    requires NetSized(n) && CanMove(n, Continue(c)) && WordOf(n.cfg, w) && Targets(n.cpus[c].phase.req, w)
    ensures Holds(Moved(n, Continue(c)).cpus[c], w) <==> Holds(n.cpus[c], w) || GrantArrived(n.cpus[c], w)
  {
  }

  // ---------- an access with its way to itself ----------

  // The network with a CPU, its interface and the interface of a device exchanged.
  function With(n: Net, c: nat, s: nat, cpu: Cpu, m: Master, sl: Slave): Net
    requires c < |n.cpus| && c < |n.masters| && s < |n.slaves|
  {
    n.(cpus := n.cpus[c := cpu], masters := n.masters[c := m], slaves := n.slaves[s := sl])
  }

  const IDLE: Master := Master([], [], [], [])

  // Nothing is on its way between the CPU and the device, whatever the others do.
  ghost predicate Alone(n: Net, c: nat, s: nat) {
    && NetSized(n) && c < |n.cpus| && s < |n.slaves|
    && n.cpus[c].phase.Ready? && n.cpus[c].pool.busy == [] && n.cpus[c].pool.free != []
    && n.masters[c] == IDLE && n.slaves[s] == Slave([], [], false, [], [], n.slaves[s].mem)
  }

  // A disciplined run.
  ghost predicate Goes(n: Net, moves: seq<Move>, n': Net)
    decreases |moves|
  {
    && NetSized(n)
    && if moves == [] then n == n'
       else CanMove(n, moves[0]) && DisciplinedMove(n, moves[0]) && Goes(Moved(n, moves[0]), moves[1..], n')
  }

  ghost predicate Leads(n: Net, n': Net) { exists moves :: Goes(n, moves, n') }

  lemma {:induction false} GoesIsRun(n: Net, moves: seq<Move>, n': Net)
    requires Goes(n, moves, n')
    ensures NetLegal(n, moves) && DisciplinedMoves(n, moves) && NetAfter(n, moves) == n'
    decreases |moves|
  {
    hide CanMove, Moved, DisciplinedMove;
    if moves != [] {
      GoesIsRun(Moved(n, moves[0]), moves[1..], n');
    }
  }

  lemma {:induction false} GoesOn(n: Net, p: seq<Move>, n1: Net, q: seq<Move>, n2: Net)
    requires Goes(n, p, n1) && Goes(n1, q, n2)
    ensures Goes(n, p + q, n2)
    decreases |p|
  {
    hide CanMove, Moved, DisciplinedMove;
    if p == [] {
      assert p + q == q;
    } else {
      assert (p + q)[1..] == p[1..] + q;
      GoesOn(Moved(n, p[0]), p[1..], n1, q, n2);
    }
  }

  lemma Stays(n: Net)
    requires NetSized(n)
    ensures Leads(n, n)
  {
    assert Goes(n, [], n);
  }

  lemma ThenAll(n: Net, n1: Net, n2: Net)
    requires Leads(n, n1) && Leads(n1, n2)
    ensures Leads(n, n2)
  {
    hide Goes;
    var p :| Goes(n, p, n1);
    var q :| Goes(n1, q, n2);
    GoesOn(n, p, n1, q, n2);
  }

  lemma ThenOne(n: Net, n1: Net, mv: Move)
    requires Leads(n, n1) && NetSized(n1) && CanMove(n1, mv) && DisciplinedMove(n1, mv) && NetSized(Moved(n1, mv))
    ensures Leads(n, Moved(n1, mv))
  {
    hide CanMove, Moved, DisciplinedMove;
    assert [mv][1..] == [];
    assert Goes(n1, [mv], Moved(n1, mv));
    ThenAll(n, n1, Moved(n1, mv));
  }

  // One move on the way, which changes nothing else.
  lemma Along(n: Net, c: nat, s: nat, cpu: Cpu, m: Master, sl: Slave, mv: Move, cpu': Cpu, m': Master, sl': Slave)
    requires NetSized(n) && c < |n.cpus| && s < |n.slaves|
    requires var n1 := With(n, c, s, cpu, m, sl);
      !mv.Start? && CanMove(n1, mv) && Moved(n1, mv) == With(n1, c, s, cpu', m', sl')
    requires Leads(n, With(n, c, s, cpu, m, sl))
    ensures Leads(n, With(n, c, s, cpu', m', sl'))
  {
    var n1 := With(n, c, s, cpu, m, sl);
    WithAgain(n, c, s, cpu, m, sl, cpu', m', sl');
    assert NetSized(n1) && NetSized(With(n, c, s, cpu', m', sl')) && DisciplinedMove(n1, mv);
    hide CanMove, Moved, With, Leads, NetSized, DisciplinedMove;
    ThenOne(n, n1, mv);
  }

  lemma WithAgain(n: Net, c: nat, s: nat, cpu: Cpu, m: Master, sl: Slave, cpu': Cpu, m': Master, sl': Slave)
    requires c < |n.cpus| && c < |n.masters| && s < |n.slaves|
    ensures With(With(n, c, s, cpu, m, sl), c, s, cpu', m', sl') == With(n, c, s, cpu', m', sl')
    ensures With(n, c, s, n.cpus[c], n.masters[c], n.slaves[s]) == n
  {
  }

  // The moves of the way, one by one.
  lemma MasterMoves(n: Net, c: nat, s: nat, x: Msg)
    requires NetSized(n) && c < |n.cpus| && s < |n.slaves|
    ensures n.masters[c] == Master([x], [], [], []) ==>
      CanMove(n, Put(c)) && Moved(n, Put(c)) == With(n, c, s, n.cpus[c], Master([], [x], [], []), n.slaves[s])
    ensures n.masters[c] == Master([], [x], [], []) ==>
      CanMove(n, Fetch(c)) && Moved(n, Fetch(c)) == With(n, c, s, n.cpus[c], Master([], [], [x], []), n.slaves[s])
  {
    assert [x][1..] == [] && [] + [x] == [x];
    assert n.slaves[s := n.slaves[s]] == n.slaves && n.cpus[c := n.cpus[c]] == n.cpus;
    hide AddressMap.Locate;
  }

  lemma DispatchMoves(n: Net, c: nat, s: nat, x: Msg)
    requires NetSized(n) && c < |n.cpus| && s < |n.slaves| && n.masters[c] == Master([], [], [x], [])
    requires Route(n.cfg, c, x) == Some(x) && x.req.slave == s && n.slaves[s].requests == []
    ensures CanMove(n, Dispatch(c))
    ensures Moved(n, Dispatch(c)) == With(n, c, s, n.cpus[c], IDLE, n.slaves[s].(requests := [x]))
  {
    hide Route;
    assert [x][1..] == [] && [] + [x] == [x];
    assert n.cpus[c := n.cpus[c]] == n.cpus;
  }

  lemma SlaveMoves(n: Net, c: nat, s: nat, x: Msg, mem: Mem)
    requires NetSized(n) && c < |n.cpus| && s < |n.slaves|
    ensures n.slaves[s] == Slave([x], [], false, [], [], mem) ==>
      CanMove(n, Accept(s))
      && Moved(n, Accept(s)) == With(n, c, s, n.cpus[c], n.masters[c], Slave([], [x], true, [], [], mem))
    ensures n.slaves[s] == Slave([], [x], true, [], [], mem) && x.served ==>
      CanMove(n, Answer(s))
      && Moved(n, Answer(s)) == With(n, c, s, n.cpus[c], n.masters[c], Slave([], [], false, [x], [], mem))
    ensures n.slaves[s] == Slave([], [], false, [x], [], mem) ==>
      CanMove(n, Collect(s))
      && Moved(n, Collect(s)) == With(n, c, s, n.cpus[c], n.masters[c], Slave([], [], false, [], [x], mem))
  {
    assert [x][1..] == [] && [] + [x] == [x];
    assert n.masters[c := n.masters[c]] == n.masters && n.cpus[c := n.cpus[c]] == n.cpus;
  }

  lemma PerformMoves(n: Net, c: nat, s: nat, x: Msg, mem: Mem)
    requires NetSized(n) && c < |n.cpus| && s < |n.slaves| && !x.served
    requires n.slaves[s] == Slave([], [x], true, [], [], mem)
    ensures CanMove(n, Perform(s))
    ensures var (mem', v) := Access(n.cfg.kinds[s], mem, x.req);
      Moved(n, Perform(s))
      == With(n, c, s, n.cpus[c], n.masters[c], Slave([], [Msg(x.req, true, v)], true, [], [], mem'))
  {
    hide Access;
    assert n.masters[c := n.masters[c]] == n.masters && n.cpus[c := n.cpus[c]] == n.cpus;
  }

  lemma ReturnMoves(n: Net, c: nat, s: nat, y: Msg, mem: Mem)
    requires NetSized(n) && c < |n.cpus| && s < |n.slaves| && y.req.src == c
    requires n.slaves[s] == Slave([], [], false, [], [y], mem) && n.masters[c] == IDLE
    ensures CanMove(n, Return(s))
    ensures Moved(n, Return(s))
            == With(n, c, s, n.cpus[c], Master([], [], [], [y]), Slave([], [], false, [], [], mem))
  {
    assert [y][1..] == [] && [] + [y] == [y];
    assert n.cpus[c := n.cpus[c]] == n.cpus;
  }

  // The CPU starts an access of the device.
  ghost predicate Asks(n: Net, c: nat, s: nat, mv: Move, r: Request) {
    && Alone(n, c, s) && mv.Start? && mv.c == c && CanMove(n, mv) && DisciplinedMove(n, mv)
    && r == Started(n, mv) && r.slave == s
  }

  // On its way out,
  lemma GoesOut(n: Net, c: nat, s: nat, mv: Move, r: Request)
    requires Asks(n, c, s, mv, r)
    ensures var x := Msg(r, false, 0);
      Leads(n, With(n, c, s, CpuIssue(n.cpus[c], r), IDLE, Slave([x], [], false, [], [], n.slaves[s].mem)))
  {
    var x, sl, cpu := Msg(r, false, 0), n.slaves[s], CpuIssue(n.cpus[c], r);
    Starts(n, c, s, mv, r);
    hide Leads, DisciplinedMove, CanMove, Moved, CpuIssue, Alone, Route;
    MasterMoves(With(n, c, s, cpu, Master([x], [], [], []), sl), c, s, x);
    Along(n, c, s, cpu, Master([x], [], [], []), sl, Put(c), cpu, Master([], [x], [], []), sl);
    MasterMoves(With(n, c, s, cpu, Master([], [x], [], []), sl), c, s, x);
    Along(n, c, s, cpu, Master([], [x], [], []), sl, Fetch(c), cpu, Master([], [], [x], []), sl);
    DispatchMoves(With(n, c, s, cpu, Master([], [], [x], []), sl), c, s, x);
    Along(n, c, s, cpu, Master([], [], [x], []), sl, Dispatch(c), cpu, IDLE, sl.(requests := [x]));
  }

  lemma Starts(n: Net, c: nat, s: nat, mv: Move, r: Request)
    requires Asks(n, c, s, mv, r)
    ensures var x := Msg(r, false, 0);
      && Leads(n, With(n, c, s, CpuIssue(n.cpus[c], r), Master([x], [], [], []), n.slaves[s]))
      && Route(n.cfg, c, x) == Some(x) && n.slaves[s] == Slave([], [], false, [], [], n.slaves[s].mem) && r.src == c
  {
    var x := Msg(r, false, 0);
    Stays(n);
    hide Leads, DisciplinedMove, AddressMap.Locate;
    assert n.slaves[s := n.slaves[s]] == n.slaves;
    assert Moved(n, mv) == With(n, c, s, CpuIssue(n.cpus[c], r), Master([x], [], [], []), n.slaves[s]);
    ThenOne(n, n, mv);
  }

  // through the device,
  lemma GoesThrough(n: Net, c: nat, s: nat, cpu: Cpu, r: Request, mem: Mem)
    requires NetSized(n) && c < |n.cpus| && s < |n.slaves| && r.src == c
    requires Leads(n, With(n, c, s, cpu, IDLE, Slave([Msg(r, false, 0)], [], false, [], [], mem)))
    ensures var (mem', v) := Access(n.cfg.kinds[s], mem, r);
      Leads(n, With(n, c, s, cpu, Master([], [], [], [Msg(r, true, v)]), Slave([], [], false, [], [], mem')))
  {
    var x := Msg(r, false, 0);
    var (mem', v) := Access(n.cfg.kinds[s], mem, r);
    var y := Msg(r, true, v);
    var s1, s2 := Slave([x], [], false, [], [], mem), Slave([], [x], true, [], [], mem);
    var s3, s4 := Slave([], [y], true, [], [], mem'), Slave([], [], false, [y], [], mem');
    var s5, s6 := Slave([], [], false, [], [y], mem'), Slave([], [], false, [], [], mem');
    hide Leads, CanMove, Moved, Access;
    SlaveMoves(With(n, c, s, cpu, IDLE, s1), c, s, x, mem);
    Along(n, c, s, cpu, IDLE, s1, Accept(s), cpu, IDLE, s2);
    PerformMoves(With(n, c, s, cpu, IDLE, s2), c, s, x, mem);
    Along(n, c, s, cpu, IDLE, s2, Perform(s), cpu, IDLE, s3);
    SlaveMoves(With(n, c, s, cpu, IDLE, s3), c, s, y, mem');
    Along(n, c, s, cpu, IDLE, s3, Answer(s), cpu, IDLE, s4);
    SlaveMoves(With(n, c, s, cpu, IDLE, s4), c, s, y, mem');
    Along(n, c, s, cpu, IDLE, s4, Collect(s), cpu, IDLE, s5);
    ReturnMoves(With(n, c, s, cpu, IDLE, s5), c, s, y, mem');
    Along(n, c, s, cpu, IDLE, s5, Return(s), cpu, Master([], [], [], [y]), s6);
  }

  // and back: what the CPU has then, with the same request free and none busy.
  function Answered(cfg: Config, cpu: Cpu, r: Request, v: nat): Cpu {
    var word := (r.slave, r.offset);
    cpu.(issued := cpu.issued + [r],
         returned := if r.posted then cpu.returned else cpu.returned + [Msg(r, true, v)],
         held := if r.write then cpu.held - {word}
                 else if Grants(cfg, Msg(r, true, v)) then cpu.held + {word} else cpu.held)
  }

  lemma CpuGoesRound(cfg: Config, cpu: Cpu, r: Request, v: nat)
    requires cpu.phase.Ready? && cpu.pool.busy == [] && cpu.pool.free != []
    requires r.tid == cpu.pool.free[0] && r.posted == (r.write && cpu.unblocking)
    ensures var cpu' := CpuReceive(CpuIssue(cpu, r), Msg(r, true, v));
      if r.posted then cpu' == Answered(cfg, cpu, r, v)
      else CanResume(cpu') && CpuResume(cfg, cpu') == Answered(cfg, cpu, r, v)
  {
    var tid, free := cpu.pool.free[0], cpu.pool.free;
    var entry := Entry(tid, r.write, false, NO_DATA);
    assert CpuIssue(cpu, r).pool == Pool(free[1..], [entry]);
    FirstIsFound([entry], tid);
    FirstIsFound([entry.(done := true, data := v)], tid);
    assert [entry][0 := entry.(done := true, data := v)] == [entry.(done := true, data := v)];
    assert [tid] + free[1..] == free;
    hide Find;
  }

  lemma FirstIsFound(busy: seq<PoolModel.Entry>, tid: nat)
    requires |busy| == 1 && busy[0].tid == tid
    ensures Find(busy, tid) == 0 && Without(busy, 0) == []
  {
  }

  // An access that has its way to itself ends, whatever the other CPUs and devices do, with what its
  // device makes of it: the word in the device, the answer in the CPU, and nothing on the way.
  lemma AccessAlone(n: Net, c: nat, s: nat, mv: Move, r: Request)
    requires Asks(n, c, s, mv, r)
    ensures var (mem, v) := Access(n.cfg.kinds[s], n.slaves[s].mem, r);
      var n' := With(n, c, s, Answered(n.cfg, n.cpus[c], r, v), IDLE, Slave([], [], false, [], [], mem));
      Leads(n, n') && Alone(n', c, s)
  {
    var (mem, v) := Access(n.cfg.kinds[s], n.slaves[s].mem, r);
    GoesOut(n, c, s, mv, r);
    var cpu, sl, y := CpuIssue(n.cpus[c], r), Slave([], [], false, [], [], mem), Msg(r, true, v);
    assert r.src == c && r.tid == n.cpus[c].pool.free[0] && r.posted == (r.write && n.cpus[c].unblocking);
    hide Leads, CanMove, Access, CpuIssue, DisciplinedMove;
    GoesThrough(n, c, s, cpu, r, n.slaves[s].mem);
    CpuGoesRound(n.cfg, n.cpus[c], r, v);
    GoesBack(n, c, s, cpu, y, sl);
  }

  lemma GoesBack(n: Net, c: nat, s: nat, cpu: Cpu, y: Msg, sl: Slave)
    requires NetSized(n) && c < |n.cpus| && s < |n.slaves| && y.req.src == c
    requires Leads(n, With(n, c, s, cpu, Master([], [], [], [y]), sl))
    ensures Leads(n, With(n, c, s, CpuReceive(cpu, y), IDLE, sl))
    ensures CanResume(CpuReceive(cpu, y)) ==>
      Leads(n, With(n, c, s, CpuResume(n.cfg, CpuReceive(cpu, y)), IDLE, sl))
  {
    hide Leads, CpuReceive, CpuResume, CanResume;
    DeliverMoves(With(n, c, s, cpu, Master([], [], [], [y]), sl), c, s, y);
    Along(n, c, s, cpu, Master([], [], [], [y]), sl, Deliver(c), CpuReceive(cpu, y), IDLE, sl);
    var cpu' := CpuReceive(cpu, y);
    if CanResume(cpu') {
      ContinueMoves(With(n, c, s, cpu', IDLE, sl), c, s);
      Along(n, c, s, cpu', IDLE, sl, Continue(c), CpuResume(n.cfg, cpu'), IDLE, sl);
    }
  }

  lemma DeliverMoves(n: Net, c: nat, s: nat, y: Msg)
    requires NetSized(n) && c < |n.cpus| && s < |n.slaves| && y.req.src == c
    requires n.masters[c] == Master([], [], [], [y])
    ensures CanMove(n, Deliver(c))
    ensures Moved(n, Deliver(c)) == With(n, c, s, CpuReceive(n.cpus[c], y), IDLE, n.slaves[s])
  {
    hide CpuReceive;
    assert [y][1..] == [] && n.slaves[s := n.slaves[s]] == n.slaves;
  }

  lemma ContinueMoves(n: Net, c: nat, s: nat)
    requires NetSized(n) && c < |n.cpus| && s < |n.slaves| && CanResume(n.cpus[c])
    ensures CanMove(n, Continue(c))
    ensures Moved(n, Continue(c)) == With(n, c, s, CpuResume(n.cfg, n.cpus[c]), n.masters[c], n.slaves[s])
  {
    hide CpuResume, CanResume;
    assert n.slaves[s := n.slaves[s]] == n.slaves && n.masters[c := n.masters[c]] == n.masters;
  }

  // ---------- locks ----------

  // The CPU can name the word.
  ghost predicate Names(n: Net, c: nat, addr: u32, w: Word) {
    && NetSized(n) && c < |n.cpus| && WordOf(n.cfg, w)
    && AddressMap.Locate(n.cfg.maps[c], addr) == Some((w.slave, w.offset)) && IsWord(addr, w.offset)
  }

  // Nothing else has changed: the other CPUs and interfaces, the other devices, the other words.
  ghost predicate Beside(n: Net, n': Net, c: nat, w: Word)
    requires NetSized(n) && w.slave < |n.slaves|
  {
    && NetSized(n') && n'.cfg == n.cfg && |n'.cpus| == |n.cpus|
    && (forall d | 0 <= d < |n.cpus| && d != c :: n'.cpus[d] == n.cpus[d] && n'.masters[d] == n.masters[d])
    && (forall s | 0 <= s < |n.slaves| && s != w.slave :: n'.slaves[s] == n.slaves[s])
    && SameBut(n.slaves[w.slave].mem, n'.slaves[w.slave].mem, w.offset)
  }

  ghost predicate IsFree(n: Net, w: Word)
    requires w.slave < |n.slaves|
  {
    Load(n.slaves[w.slave].mem, w.offset) == 0
  }

  // The CPU reads the word and goes on: it holds the word if it was free, and is told so; otherwise it
  // holds what it held.  The word is taken in any case.
  lemma ReadLock(n: Net, c: nat, addr: u32, w: Word) returns (n': Net)
    requires Names(n, c, addr, w) && Alone(n, c, w.slave)
    ensures Leads(n, n') && Beside(n, n', c, w) && Alone(n', c, w.slave) && !IsFree(n', w)
    ensures Holds(n'.cpus[c], w) <==> Holds(n.cpus[c], w) || IsFree(n, w)
    ensures |n'.cpus[c].returned| == |n.cpus[c].returned| + 1
    ensures n'.cpus[c].returned[|n.cpus[c].returned|].value == 0 <==> IsFree(n, w)
  {
    var mv := Start(c, addr, false, 0, false);
    var r := Started(n, mv);
    SemaphoreRead(n.slaves[w.slave].mem, r);
    var (mem, v) := Access(Semaphore, n.slaves[w.slave].mem, r);
    n' := With(n, c, w.slave, Answered(n.cfg, n.cpus[c], r, v), IDLE, Slave([], [], false, [], [], mem));
    assert Asks(n, c, w.slave, mv, r);
    hide Leads, Access, AddressMap.Locate;
    AccessAlone(n, c, w.slave, mv, r);
  }

  // The holder writes 0, waiting for the answer or not: the word is free and it does not hold it any
  // more.
  lemma FreeLock(n: Net, c: nat, addr: u32, w: Word) returns (n': Net)
    requires Names(n, c, addr, w) && Alone(n, c, w.slave) && Holds(n.cpus[c], w)
    ensures Leads(n, n') && Beside(n, n', c, w) && Alone(n', c, w.slave) && IsFree(n', w)
    ensures !Holds(n'.cpus[c], w)
  {
    var mv := Start(c, addr, true, 0, false);
    var r := Started(n, mv);
    SemaphoreWrite(n.slaves[w.slave].mem, r);
    var (mem, v) := Access(Semaphore, n.slaves[w.slave].mem, r);
    n' := With(n, c, w.slave, Answered(n.cfg, n.cpus[c], r, v), IDLE, Slave([], [], false, [], [], mem));
    assert Asks(n, c, w.slave, mv, r);
    hide Leads, Access, AddressMap.Locate;
    AccessAlone(n, c, w.slave, mv, r);
  }

  lemma LeadsIsRun(n: Net, n': Net) returns (moves: seq<Move>)
    requires Leads(n, n')
    ensures NetLegal(n, moves) && DisciplinedMoves(n, moves) && NetAfter(n, moves) == n'
  {
    moves :| Goes(n, moves, n');
    hide Goes, NetLegal, DisciplinedMoves, NetAfter;
    GoesIsRun(n, moves, n');
  }

  // From the start of every network one CPU can take a lock that two of them can name, by a disciplined
  // run; the other one is refused then, until the first one has released it, and gets it after that.
  lemma LockIsPassedOn(n: Net, c: nat, d: nat, addr: u32, addr': u32, w: Word)
    returns (n1: Net, n2: Net, n3: Net, n4: Net, moves: seq<Move>)
    requires NetInit(n) && c != d && Names(n, c, addr, w) && Names(n, d, addr', w)
    ensures Beside(n, n1, c, w) && Beside(n1, n2, d, w) && Beside(n2, n3, c, w) && Beside(n3, n4, d, w)
    ensures Leads(n, n1) && Holds(n1.cpus[c], w)
    ensures Leads(n1, n2) && !Holds(n2.cpus[d], w) && n2.cpus[c] == n1.cpus[c]
    ensures |n2.cpus[d].returned| == 1 && n2.cpus[d].returned[0].value != 0
    ensures Leads(n2, n3) && !Holds(n3.cpus[c], w) && IsFree(n3, w)
    ensures Leads(n3, n4) && !Holds(n4.cpus[c], w) && Holds(n4.cpus[d], w) && !IsFree(n4, w)
    ensures NetLegal(n, moves) && DisciplinedMoves(n, moves) && NetAfter(n, moves) == n4
  {
    assert Alone(n, c, w.slave) && Alone(n, d, w.slave) && IsFree(n, w);
    hide Leads, AddressMap.Locate, NetLegal, DisciplinedMoves, NetAfter;
    n1 := ReadLock(n, c, addr, w);
    n2 := ReadLock(n1, d, addr', w);
    n3 := FreeLock(n2, c, addr, w);
    n4 := ReadLock(n3, d, addr', w);
    ThenAll(n, n1, n2);
    ThenAll(n, n2, n3);
    ThenAll(n, n3, n4);
    moves := LeadsIsRun(n, n4);
  }
}

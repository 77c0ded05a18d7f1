/**
 The order in which the devices of the network serve, for every run: each transaction once, program
 order where the wrappers wait for it, and the reads that follow from it.  Then the locks: the count
 of their tokens in the queues, and the data that they guard.
 */
module NetworkOrder {
  import opened Channels
  import opened ChannelOrder
  import opened ChannelRuns
  import opened MutualExclusion
  import opened GuardedData
  import opened Network
  import opened NetworkRefinement
  import opened NetworkGuarantees

  // ---------- the order of service ----------

  // The request waits somewhere between CPU c and a slave.
  ghost predicate OnItsWay(n: Net, c: nat, r: Request)
    requires c < |n.masters|
  {
    exists s, m :: 0 <= s < |n.slaves| && m in Path(n.masters[c], n.slaves[s], c, s) && m.req == r && !m.served
  }

  // Every request that a CPU has issued is on its way, or one device has performed it once.
  lemma PerformedOnce(n: Net, moves: seq<Move>, c: nat, i: nat)
    requires NetInit(n) && NetLegal(n, moves)
    requires c < |NetAfter(n, moves).cpus| && i < |NetAfter(n, moves).cpus[c].issued|
    ensures var b, log := NetAfter(n, moves), Services(n, moves);
      var r := b.cpus[c].issued[i];
      && c < |b.masters| && (OnItsWay(b, c, r) <==> !Logged(log, r))
      && forall j, k | 0 <= j < |log| && 0 <= k < |log| && log[j].req == r && log[k].req == r :: j == k
  {
    var steps := NetworkRefinesChannels(n, moves);
    EveryTransactionOnce(Start0(n), steps, c, i);
    var b, a := NetAfter(n, moves), After(Start0(n), steps);
    OnItsWayIff(b, a, c, b.cpus[c].issued[i]);
  }

  lemma OnItsWayIff(b: Net, a: Sys, c: nat, r: Request)
    requires Refines(b, a) && c < |b.masters|
    ensures OnItsWay(b, c, r) <==> Unserved(a.flight[c], r)
  {
    if Unserved(a.flight[c], r) {
      var i :| 0 <= i < |a.flight[c]| && a.flight[c][i].req == r && !a.flight[c][i].served;
      WhereItIs(b, a, c, a.flight[c][i]);
    }
    if OnItsWay(b, c, r) {
      var s, m :| 0 <= s < |b.slaves| && m in Path(b.masters[c], b.slaves[s], c, s) && m.req == r && !m.served;
      assert Matches(b, a, c, s);
      OfIsIn(a.flight[c], c, s);
      var i :| 0 <= i < |a.flight[c]| && a.flight[c][i] == m;
    }
  }

  lemma WhereItIs(b: Net, a: Sys, c: nat, m: Msg)
    requires Refines(b, a) && c < |b.masters| && m in a.flight[c]
    ensures m.req.slave < |b.slaves| && m in Path(b.masters[c], b.slaves[m.req.slave], c, m.req.slave)
  {
    var i :| 0 <= i < |a.flight[c]| && a.flight[c][i] == m;
    assert CpuOk(a.cfg, c, a.cpus[c], a.flight[c], a.log) && Routed(a.cfg, m.req);
    assert Matches(b, a, c, m.req.slave);
    OfHas(a.flight[c], c, m.req.slave, i);
  }

  // Every answer that a CPU has been given was made by a device, and is what the transactions that
  // the devices performed before make of the memory; and program order is respected where it has to
  // be.
  lemma AnswersOverNetwork(n: Net, moves: seq<Move>, k: nat)
    requires NetInit(n) && NetLegal(n, moves) && k < |Services(n, moves)|
    ensures var b, log := NetAfter(n, moves), Services(n, moves);
      && InOrder(b.cpus, log, k) && ValueOk(b.cfg, log, k)
      && forall c, m | 0 <= c < |b.cpus| && m in b.cpus[c].returned :: m in log
  {
    var steps := NetworkRefinesChannels(n, moves);
    hide NetLegal, Legal, After, NetAfter, Init, NetInit;
    ServiceOrder(Start0(n), steps, k);
  }

  // Transactions of one CPU that are ordered are performed in program order.
  lemma SequentialOverNetwork(n: Net, moves: seq<Move>, j: nat, k: nat)
    requires NetInit(n) && NetLegal(n, moves) && j < k < |Services(n, moves)|
    requires var log := Services(n, moves);
      log[j].req.src == log[k].req.src && Ordered(log[k].req, log[j].req)
    ensures Services(n, moves)[j].req.tag < Services(n, moves)[k].req.tag
  {
    var steps := NetworkRefinesChannels(n, moves);
    Sequential(Start0(n), steps, j, k);
  }

  // A read returns the data of the CPU's own last write to the word, unless a device has performed
  // another write to the word in between.
  lemma OwnWriteOverNetwork(n: Net, moves: seq<Move>, w: nat, k: nat)
    requires NetInit(n) && NetLegal(n, moves)
    requires ReadAfterWrite(NetAfter(n, moves).cfg, NetAfter(n, moves).cpus, Services(n, moves), w, k)
    ensures var b, log := NetAfter(n, moves), Services(n, moves);
      Sees(log, b.cpus[log[k].req.src].issued[w], k, k)
  {
    var steps := NetworkRefinesChannels(n, moves);
    ReadSeesOwnWrite(Start0(n), steps, w, k);
  }

  lemma CriticalSectionOverNetwork(n: Net, moves: seq<Move>, w: nat, release: nat, grant: nat, k: nat)
    requires NetInit(n) && NetLegal(n, moves)
    requires var b := NetAfter(n, moves);
      ReadInNextSection(b.cfg, b.cpus, Services(n, moves), w, release, grant, k)
    ensures var b, log := NetAfter(n, moves), Services(n, moves);
      release < grant < k && Sees(log, b.cpus[log[release].req.src].issued[w], release, k)
  {
    var steps := NetworkRefinesChannels(n, moves);
    CriticalSectionIsSeen(Start0(n), steps, w, release, grant, k);
  }

  // ---------- the tokens of a lock ----------

  // What is between each CPU and one slave, in all queues, hands and devices.
  function Paths(n: Net, s: nat): (r: seq<seq<Msg>>)
    requires NetSized(n) && s < |n.slaves|
    ensures |r| == |n.cpus| && forall c | 0 <= c < |r| :: r[c] == Path(n.masters[c], n.slaves[s], c, s)
  {
    seq(|n.masters|, c requires 0 <= c < |n.masters| => Path(n.masters[c], n.slaves[s], c, s))
  }

  // The holds of a lock, the grants that have arrived, and those and the releases on their way.
  function NetTokens(n: Net, w: Word): nat
    requires NetSized(n) && w.slave < |n.slaves|
  {
    AllTokens(n.cpus, Paths(n, w.slave), w)
  }

  lemma {:induction false} TokensOnPath(fl: seq<Msg>, c: nat, w: Word)
    requires FromCpu(fl, c)
    ensures TokensUnderWay(Of(fl, c, w.slave), w) == TokensUnderWay(fl, w)
  {
    if fl != [] {
      var n := |fl| - 1;
      TokensOnPath(fl[..n], c, w);
      assert fl == fl[..n] + [fl[n]] && fl[n].req.src == c;
      OfSnoc(fl[..n], fl[n], c, w.slave);
      TokensSnoc(Of(fl[..n], c, w.slave), fl[n], w);
      hide Of;
    }
  }

  lemma TokensSnoc(fl: seq<Msg>, m: Msg, w: Word)
    ensures TokensUnderWay(fl + [m], w) == TokensUnderWay(fl, w) + if Token(m, w) then 1 else 0
    ensures TokensUnderWay(fl + [], w) == TokensUnderWay(fl, w)
  {
    assert (fl + [m])[..|fl|] == fl && fl + [] == fl;
  }

  lemma {:induction false} SameTokens(cpus: seq<Cpu>, f: seq<seq<Msg>>, f': seq<seq<Msg>>, w: Word)
    requires |cpus| == |f| == |f'|
    requires forall c | 0 <= c < |cpus| :: TokensUnderWay(f[c], w) == TokensUnderWay(f'[c], w)
    ensures AllTokens(cpus, f, w) == AllTokens(cpus, f', w)
  {
    if cpus != [] {
      var c := |cpus| - 1;
      SameTokens(cpus[..c], f[..c], f'[..c], w);
      hide TokensUnderWay, GrantArrived, Holds;
    }
  }

  lemma NetTokensAre(n: Net, a: Sys, w: Word)
    requires NetSized(n) && Sized(a) && Same(n, a) && w.slave < |n.slaves|
    requires forall c | 0 <= c < |a.flight| :: FromCpu(a.flight[c], c)
    ensures NetTokens(n, w) == AllTokens(a.cpus, a.flight, w)
  {
    forall c | 0 <= c < |a.flight|
      ensures TokensUnderWay(Paths(n, w.slave)[c], w) == TokensUnderWay(a.flight[c], w)
    {
      assert Matches(n, a, c, w.slave);
      TokensOnPath(a.flight[c], c, w);
      hide FromCpu, Path, TokensUnderWay, Paths;
    }
    hide AllTokens, TokensUnderWay, Paths;
    SameTokens(a.cpus, Paths(n, w.slave), a.flight, w);
  }

  // In every reachable state of the network the holders, the granting responses and the releases on
  // their way are together one if the word in the device is not zero and none otherwise.
  lemma TokensOverNetwork(n: Net, moves: seq<Move>, w: Word)
    requires NetInit(n) && NetLegal(n, moves) && DisciplinedMoves(n, moves) && WordOf(NetAfter(n, moves).cfg, w)
    ensures var b := NetAfter(n, moves);
      && NetSized(b) && w.slave < |b.slaves|
      && NetTokens(b, w) == if Load(b.slaves[w.slave].mem, w.offset) == 0 then 0 else 1
  {
    InitRefines(n);
    InitLocks(Start0(n));
    var a := RunIsLocked(n, Start0(n), moves);
    var b := NetAfter(n, moves);
    forall c | 0 <= c < |a.flight|
      ensures FromCpu(a.flight[c], c)
    {
      FlightIsFromCpu(a, c);
    }
    hide NetLegal, NetAfter, DisciplinedMoves, FromCpu, Ok, NetOk;
    NetTokensAre(b, a, w);
    assert Counted(a, w);
  }

  // ---------- guarded data ----------

  ghost predicate GuardedMove(n: Net, mv: Move, g: Guard)
    requires NetSized(n) && CanMove(n, mv)
  {
    mv.Start? ==> Guarded(n.cfg, n.cpus[mv.c], Started(n, mv), g)
  }

  ghost predicate GuardedMoves(n: Net, moves: seq<Move>, g: Guard)
    requires NetLegal(n, moves)
    decreases |moves|
  {
    moves == [] || (GuardedMove(n, moves[0], g) && GuardedMoves(Moved(n, moves[0]), moves[1..], g))
  }

  // The data of the last write to the word that any CPU has started, and 0 before the first one.
  function LastOfMove(n: Net, mv: Move, g: Guard, last: nat): nat
    requires NetSized(n) && CanMove(n, mv)
  {
    if mv.Start? then LastAfter(Started(n, mv), g, last) else last
  }

  ghost function LastWritten(n: Net, moves: seq<Move>, g: Guard, last: nat): nat
    requires NetLegal(n, moves)
    decreases |moves|
  {
    if moves == [] then last
    else LastWritten(Moved(n, moves[0]), moves[1..], g, LastOfMove(n, moves[0], g, last))
  }

  lemma SimulateGuarded(n: Net, a: Sys, mv: Move, g: Guard, last: nat) returns (a': Sys)
    requires Refines(n, a) && Locked(a) && DataOk(a, g, last)
    requires CanMove(n, mv) && DisciplinedMove(n, mv) && GuardedMove(n, mv, g)
    ensures Refines(Moved(n, mv), a') && Locked(a') && DataOk(a', g, LastOfMove(n, mv, g, last))
  {
    var steps := Simulate(n, a, mv);
    a' := After(a, steps);
    if steps != [] {
      var st := steps[0];
      OneStepRun(a, steps);
      hide DataOk, Locked, Ok, Same, Moved, Next, Enabled, CanMove, NetOk, Legal, After;
      StepIsGuarded(n, a, mv, st, g, last);
      StepKeepsLocks(a, st);
      StepKeepsData(a, st, g, last);
    }
  }

  lemma OneStepRun(a: Sys, steps: seq<Step>)
    requires |steps| == 1 && Legal(a, steps)
    ensures Sized(a) && Enabled(a, steps[0]) && After(a, steps) == Next(a, steps[0])
  {
    assert steps == [steps[0]];
  }

  lemma StepIsGuarded(n: Net, a: Sys, mv: Move, st: Step, g: Guard, last: nat)
    requires NetSized(n) && Sized(a) && Same(n, a) && CanMove(n, mv) && Enabled(a, st)
    requires mv.Start? ==> st == Issue(mv.c, mv.addr, mv.write, mv.data, mv.io)
    requires !mv.Start? ==> !st.Issue?
    requires DisciplinedMove(n, mv) && GuardedMove(n, mv, g)
    ensures Disciplined(a, st) && GuardedStep(a, st, g) && LastOf(a, st, g, last) == LastOfMove(n, mv, g, last)
  {
    hide Matches;
  }

  lemma {:induction false} RunIsGuarded(n: Net, a: Sys, moves: seq<Move>, g: Guard, last: nat) returns (a': Sys)
    requires Refines(n, a) && Locked(a) && DataOk(a, g, last)
    requires NetLegal(n, moves) && DisciplinedMoves(n, moves) && GuardedMoves(n, moves, g)
    ensures Refines(NetAfter(n, moves), a') && DataOk(a', g, LastWritten(n, moves, g, last))
    decreases |moves|
  {
    if moves == [] {
      a' := a;
    } else {
      hide DataOk, Locked, Refines, Moved;
      var a1 := SimulateGuarded(n, a, moves[0], g, last);
      a' := RunIsGuarded(Moved(n, moves[0]), a1, moves[1..], g, LastOfMove(n, moves[0], g, last));
    }
  }

  // A CPU that holds the lock and goes on with a read of the guarded word has been given the data of
  // the write to it that was started last, by any CPU: nothing is in between, and nothing is late.
  lemma GuardedRead(n: Net, moves: seq<Move>, g: Guard, c: nat)
    requires NetInit(n) && GuardOf(n.cfg, g)
    requires NetLegal(n, moves) && DisciplinedMoves(n, moves) && GuardedMoves(n, moves, g)
    requires NetSized(NetAfter(n, moves)) && CanMove(NetAfter(n, moves), Continue(c))
    requires ReadsData(NetAfter(n, moves).cpus[c].phase.req, g) && Holds(NetAfter(n, moves).cpus[c], g.lock)
    ensures var b := NetAfter(n, moves);
      Moved(b, Continue(c)).cpus[c].returned
      == b.cpus[c].returned + [Msg(b.cpus[c].phase.req, true, LastWritten(n, moves, g, 0))]
  {
    InitRefines(n);
    InitLocks(Start0(n));
    InitData(Start0(n), g);
    var a := RunIsGuarded(n, Start0(n), moves, g, 0);
    HolderIsAnswered(a, c, g, LastWritten(n, moves, g, 0));
  }
}

/**
 No deadlock and drain: while anything is under way some thread can go on in spite of full queues,
 and every move but the issue of new requests brings the network nearer to empty.
 */
module NetworkProgress {
  import opened Channels
  import opened ChannelOrder
  import opened ChannelRuns
  import opened Network
  import opened NetworkRefinement

  // ---------- the moves that remain ----------

  function MasterWeight(cpu: Cpu, m: Master): nat {
    10 * |m.sending| + 9 * |m.requests| + 8 * |m.hand| + 2 * |m.responses| + (if cpu.phase.Waiting? then 1 else 0)
  }

  function SlaveWeight(sl: Slave): nat {
    7 * |sl.requests| + (if sl.work == [] then 0 else if sl.work[0].served then 5 else 6)
    + 4 * |sl.responses| + 3 * |sl.hand|
  }

  function MastersWeight(cpus: seq<Cpu>, ms: seq<Master>): nat
    requires |cpus| == |ms|
  {
    if ms == [] then 0
    else MastersWeight(cpus[..|ms| - 1], ms[..|ms| - 1]) + MasterWeight(cpus[|ms| - 1], ms[|ms| - 1])
  }

  function SlavesWeight(sls: seq<Slave>): nat {
    if sls == [] then 0 else SlavesWeight(sls[..|sls| - 1]) + SlaveWeight(sls[|sls| - 1])
  }

  // What is left to do before the network is empty, in moves at most.
  function Weight(n: Net): nat
    requires |n.cpus| == |n.masters|
  {
    MastersWeight(n.cpus, n.masters) + SlavesWeight(n.slaves)
  }

  lemma {:induction false} MastersWeightUpdate(cpus: seq<Cpu>, ms: seq<Master>, c: nat, cpu: Cpu, m: Master)
    requires |cpus| == |ms| && c < |ms|
    ensures MastersWeight(cpus[c := cpu], ms[c := m]) + MasterWeight(cpus[c], ms[c])
            == MastersWeight(cpus, ms) + MasterWeight(cpu, m)
  {
    var k := |ms| - 1;
    if c < k {
      assert cpus[c := cpu][..k] == cpus[..k][c := cpu] && ms[c := m][..k] == ms[..k][c := m];
      MastersWeightUpdate(cpus[..k], ms[..k], c, cpu, m);
    } else {
      assert cpus[c := cpu][..k] == cpus[..k] && ms[c := m][..k] == ms[..k];
    }
  }

  lemma {:induction false} SlavesWeightUpdate(sls: seq<Slave>, s: nat, sl: Slave)
    requires s < |sls|
    ensures SlavesWeight(sls[s := sl]) + SlaveWeight(sls[s]) == SlavesWeight(sls) + SlaveWeight(sl)
  {
    var k := |sls| - 1;
    if s < k {
      assert sls[s := sl][..k] == sls[..k][s := sl];
      SlavesWeightUpdate(sls[..k], s, sl);
    } else {
      assert sls[s := sl][..k] == sls[..k];
    }
  }

  lemma MasterMoveDecreases(n: Net, mv: Move)
    requires NetOk(n) && CanMove(n, mv) && (mv.Put? || mv.Fetch? || mv.Deliver? || mv.Continue?)
    ensures |Moved(n, mv).cpus| == |Moved(n, mv).masters| && Weight(Moved(n, mv)) < Weight(n)
  {
    var n', c := Moved(n, mv), mv.c;
    MastersWeightUpdate(n.cpus, n.masters, c, n'.cpus[c], n'.masters[c]);
    assert n'.cpus == n.cpus[c := n'.cpus[c]] && n'.masters == n.masters[c := n'.masters[c]];
  }

  lemma SlaveMoveDecreases(n: Net, mv: Move)
    requires NetOk(n) && CanMove(n, mv) && (mv.Accept? || mv.Perform? || mv.Answer? || mv.Collect?)
    ensures |Moved(n, mv).cpus| == |Moved(n, mv).masters| && Weight(Moved(n, mv)) < Weight(n)
  {
    var n' := Moved(n, mv);
    assert SlaveOk(n, mv.s, n.slaves[mv.s]);
    SlavesWeightUpdate(n.slaves, mv.s, n'.slaves[mv.s]);
  }

  lemma DispatchDecreases(n: Net, c: nat)
    requires NetOk(n) && CanMove(n, Dispatch(c))
    ensures |Moved(n, Dispatch(c)).cpus| == |Moved(n, Dispatch(c)).masters| && Weight(Moved(n, Dispatch(c))) < Weight(n)
  {
    DispatchIs(n, c);
    var n' := Moved(n, Dispatch(c));
    var s := n.masters[c].hand[0].req.slave;
    MastersWeightUpdate(n.cpus, n.masters, c, n.cpus[c], n'.masters[c]);
    assert n.cpus == n.cpus[c := n.cpus[c]];
    SlavesWeightUpdate(n.slaves, s, n'.slaves[s]);
  }

  lemma ReturnDecreases(n: Net, s: nat)
    requires NetOk(n) && CanMove(n, Return(s))
    ensures |Moved(n, Return(s)).cpus| == |Moved(n, Return(s)).masters| && Weight(Moved(n, Return(s))) < Weight(n)
  {
    ReturnIs(n, s);
    var n' := Moved(n, Return(s));
    var c := n.slaves[s].hand[0].req.src;
    MastersWeightUpdate(n.cpus, n.masters, c, n.cpus[c], n'.masters[c]);
    assert n.cpus == n.cpus[c := n.cpus[c]];
    SlavesWeightUpdate(n.slaves, s, n'.slaves[s]);
  }

  lemma MoveDecreases(n: Net, mv: Move)
    requires NetOk(n) && CanMove(n, mv) && !mv.Start?
    ensures |Moved(n, mv).cpus| == |Moved(n, mv).masters| && Weight(Moved(n, mv)) < Weight(n)
  {
    if mv.Dispatch? {
      DispatchDecreases(n, mv.c);
    } else if mv.Return? {
      ReturnDecreases(n, mv.s);
    } else if mv.Put? || mv.Fetch? || mv.Deliver? || mv.Continue? {
      MasterMoveDecreases(n, mv);
    } else {
      SlaveMoveDecreases(n, mv);
    }
  }

  // ---------- some move is possible ----------

  ghost predicate QueuesEmpty(n: Net) {
    && (forall c | 0 <= c < |n.masters| :: n.masters[c] == Master([], [], [], []))
    && (forall s | 0 <= s < |n.slaves| :: n.slaves[s] == Slave([], [], false, [], [], n.slaves[s].mem))
  }

  // Nothing is under way, nobody waits and every request of every pool is free.
  ghost predicate Quiet(n: Net) {
    QueuesEmpty(n) && forall c | 0 <= c < |n.cpus| :: n.cpus[c].phase.Ready? && n.cpus[c].pool.busy == []
  }

  // Looked at from the CPUs' end, the first queue that is not empty moves into an empty one.
  lemma SomeQueueMoves(n: Net) returns (mv: Move)
    requires NetOk(n) && !QueuesEmpty(n)
    ensures !mv.Start? && CanMove(n, mv)
  {
    if c :| 0 <= c < |n.masters| && n.masters[c].responses != [] {
      mv := Deliver(c);
    } else if s :| 0 <= s < |n.slaves| && n.slaves[s].hand != [] {
      mv := Return(s);
      assert SlaveOk(n, s, n.slaves[s]) && n.slaves[s].hand[0] in n.slaves[s].hand;
    } else if s :| 0 <= s < |n.slaves| && n.slaves[s].responses != [] {
      mv := Collect(s);
    } else if s :| 0 <= s < |n.slaves| && n.slaves[s].work != [] {
      mv := if n.slaves[s].work[0].served then Answer(s) else Perform(s);
    } else if s :| 0 <= s < |n.slaves| && n.slaves[s].requests != [] {
      mv := Accept(s);
    } else {
      mv := SomeMasterMoves(n);
    }
  }

  lemma SomeMasterMoves(n: Net) returns (mv: Move)
    requires NetOk(n) && !QueuesEmpty(n)
    requires forall c | 0 <= c < |n.masters| :: n.masters[c].responses == []
    requires forall s | 0 <= s < |n.slaves| ::
      n.slaves[s].hand == [] && n.slaves[s].responses == [] && n.slaves[s].work == [] && n.slaves[s].requests == []
    ensures !mv.Start? && CanMove(n, mv)
  {
    assert forall s | 0 <= s < |n.slaves| :: SlaveOk(n, s, n.slaves[s]);
    if c :| 0 <= c < |n.masters| && n.masters[c].hand != [] {
      mv := Dispatch(c);
      assert MasterOk(n, c, n.masters[c]) && n.masters[c].hand[0] in n.masters[c].hand;
      RouteIsKnown(n, c, n.masters[c].hand[0]);
    } else if c :| 0 <= c < |n.masters| && n.masters[c].requests != [] {
      mv := Fetch(c);
    } else {
      var c :| 0 <= c < |n.masters| && n.masters[c].sending != [];
      mv := Put(c);
    }
  }

  lemma EmptyFlight(n: Net, a: Sys, c: nat)
    requires Refines(n, a) && c < |n.cpus|
    requires n.masters[c] == Master([], [], [], [])
    requires forall s | 0 <= s < |n.slaves| :: SlavePart(n.slaves[s]) == []
    ensures a.flight[c] == []
  {
    var fl := a.flight[c];
    assert CpuOk(a.cfg, c, a.cpus[c], fl, a.log);
    forall s | 0 <= s < |n.slaves|
      ensures Of(fl, c, s) == []
    {
      assert Matches(n, a, c, s);
    }
    if fl != [] {
      assert IssuedBy(c, a.cpus[c], fl[0].req) && Routed(a.cfg, fl[0].req);
      OfHas(fl, c, fl[0].req.slave, 0);
    }
  }

  lemma WaitingIsAnswered(cpu: Cpu)
    requires PoolOk(cpu, []) && cpu.phase.Waiting?
    ensures CanResume(cpu)
  {
  }

  lemma SomeThreadMoves(n: Net, a: Sys) returns (mv: Move)
    requires Refines(n, a) && !Quiet(n)
    ensures !mv.Start? && CanMove(n, mv)
  {
    if !QueuesEmpty(n) {
      mv := SomeQueueMoves(n);
    } else {
      var c :| 0 <= c < |n.cpus| && !(n.cpus[c].phase.Ready? && n.cpus[c].pool.busy == []);
      EmptyFlight(n, a, c);
      assert CpuOk(a.cfg, c, a.cpus[c], [], a.log);
      WaitingIsAnswered(n.cpus[c]);
      mv := Continue(c);
    }
  }

  // ---------- every run ----------

  // In every reachable state either everything is quiet or some thread can go on.
  lemma NoDeadlock(n: Net, moves: seq<Move>) returns (mv: Move)
    requires NetInit(n) && NetLegal(n, moves) && !Quiet(NetAfter(n, moves))
    ensures NetSized(NetAfter(n, moves)) && !mv.Start? && CanMove(NetAfter(n, moves), mv)
  {
    var steps := NetworkRefinesChannels(n, moves);
    mv := SomeThreadMoves(NetAfter(n, moves), After(Start0(n), steps));
  }

  ghost predicate NothingStarts(moves: seq<Move>) { forall mv | mv in moves :: !mv.Start? }

  // Without new requests, no run is longer than the weight.
  lemma {:induction false} DrainIsBounded(n: Net, moves: seq<Move>)
    requires NetOk(n) && NetLegal(n, moves) && NothingStarts(moves)
    ensures |NetAfter(n, moves).cpus| == |NetAfter(n, moves).masters|
    ensures |moves| + Weight(NetAfter(n, moves)) <= Weight(n)
    decreases |moves|
  {
    if moves != [] {
      MoveKeepsOk(n, moves[0]);
      MoveDecreases(n, moves[0]);
      DrainIsBounded(Moved(n, moves[0]), moves[1..]);
    }
  }

  // From every reachable state, every run without new requests is bounded, and when it can go no
  // further it has emptied the network and answered every CPU.
  lemma EveryRunDrains(n: Net, moves: seq<Move>, more: seq<Move>)
    requires NetInit(n) && NetLegal(n, moves) && NetLegal(NetAfter(n, moves), more) && NothingStarts(more)
    ensures |NetAfter(n, moves).cpus| == |NetAfter(n, moves).masters| && |more| <= Weight(NetAfter(n, moves))
    ensures var b := NetAfter(NetAfter(n, moves), more);
      NetSized(b) && ((forall mv | CanMove(b, mv) :: mv.Start?) ==> Quiet(b))
  {
    var steps := NetworkRefinesChannels(n, moves);
    var b0 := NetAfter(n, moves);
    DrainIsBounded(b0, more);
    var rest := RunIsRefined(b0, After(Start0(n), steps), more);
    var b := NetAfter(b0, more);
    if !Quiet(b) {
      var mv := SomeThreadMoves(b, After(After(Start0(n), steps), rest));
    }
  }
}

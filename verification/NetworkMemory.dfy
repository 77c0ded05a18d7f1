/**
 The memories of the network behind its address maps: what a run of the network asks of them is a
 run of loads and stores through byte lanes at the addresses of the CPUs, and of plain ones wherever
 the maps have each address where they have its group.
 */
module NetworkMemory {
  import opened AddressMap
  import opened Bytes
  import opened MemoryLanes
  import opened FlatMemory
  import opened Channels
  import opened ChannelRuns
  import opened Network
  import opened NetworkRefinement
  import opened WordMemory

  // ---------- one request ----------

  // The access of a CPU that a request stands for.
  function OpOf(r: Request): Op {
    if r.write then StoreOp(r.src, r.addr, BytesOf(r.data)) else LoadOp(r.src, r.addr, 4)
  }

  // The word of a response.
  predicate Tells(answer: seq<byte>, r: Request, v: nat) {
    if r.write then answer == [] && v == 0 else |answer| == 4 && v == WordOf(answer)
  }

  // A request that was routed by the map of its CPU: its device does, in the lanes of the group, what
  // the access does at its address.
  lemma RequestIsThrough(cfg: Config, devs: seq<Device>, r: Request)
    requires Memories(devs) && Routed(cfg, r) && r.slave < |devs| && HasGroup(devs[r.slave], r)
    ensures Fits(cfg.maps, devs, OpOf(r))
    ensures Through(cfg.maps, devs, OpOf(r)).0 == devs[r.slave := ByLanes(devs[r.slave], r).0]
    ensures Tells(Through(cfg.maps, devs, OpOf(r)).1, r, ByLanes(devs[r.slave], r).1)
  {
    hide Decode, AddressMap.Locate, ByLanes, HasGroup, Natural, BytesOf, WordOf, StoreAt, LoadAt, Through, Fits;
    RoutedByGroup(cfg, r);
    ByLanesIs(devs[r.slave], r, Decode(cfg.maps[r.src], r.addr - r.addr % 8).value.1);
    if r.write {
      ThroughStore(cfg.maps, devs, r.src, r.addr, BytesOf(r.data));
    } else {
      ThroughLoad(cfg.maps, devs, r.src, r.addr, 4);
    }
  }

  lemma ByLanesIs(d: Device, r: Request, g: nat)
    requires HasGroup(d, r) && g + r.addr % 8 == r.offset
    ensures Natural(r.addr, 4) && Natural(r.addr % 8, 4) && r.addr % 8 + 4 <= 8 && g + 8 <= |d.mem| && |d.rdata| == 8
    ensures ByLanes(d, r) == InGroup(d, g, r.addr % 8, r)
    ensures |LoadAt(d, g, r.addr % 8, 4).1| == 4
  {
    hide InGroup, LoadAt;
    WordLanes(r.addr);
    WordIsLoaded(d, g, r.addr % 8);
  }

  lemma WordIsLoaded(d: Device, g: nat, lane: nat)
    requires Natural(lane, 4) && lane + 4 <= 8 && g + 8 <= |d.mem| && |d.rdata| == 8
    ensures |LoadAt(d, g, lane, 4).1| == 4
  {
    hide *;
    LoadAtIsFlat(d, g, lane, 4);
  }

  lemma ThroughStore(maps: seq<seq<Region>>, devs: seq<Device>, m: nat, addr: u32, bytes: seq<byte>)
    requires Memories(devs) && Natural(addr, |bytes|) && Natural(addr % 8, |bytes|) && addr % 8 + |bytes| <= 8
    requires m < |maps| && Decode(maps[m], addr - addr % 8).Some?
    requires var (s, g) := Decode(maps[m], addr - addr % 8).value;
      s < |devs| && g + 8 <= |devs[s].mem|
    ensures Fits(maps, devs, StoreOp(m, addr, bytes))
    ensures var (s, g) := Decode(maps[m], addr - addr % 8).value;
      Through(maps, devs, StoreOp(m, addr, bytes)) == (devs[s := StoreAt(devs[s], g, addr % 8, bytes)], [])
  {
    hide Decode, StoreAt, Natural;
  }

  lemma ThroughLoad(maps: seq<seq<Region>>, devs: seq<Device>, m: nat, addr: u32, n: nat)
    requires Memories(devs) && Natural(addr, n) && Natural(addr % 8, n) && addr % 8 + n <= 8
    requires m < |maps| && Decode(maps[m], addr - addr % 8).Some?
    requires var (s, g) := Decode(maps[m], addr - addr % 8).value;
      s < |devs| && g + 8 <= |devs[s].mem|
    ensures Fits(maps, devs, LoadOp(m, addr, n))
    ensures var (s, g) := Decode(maps[m], addr - addr % 8).value;
      var (d, answer) := LoadAt(devs[s], g, addr % 8, n);
      Through(maps, devs, LoadOp(m, addr, n)) == (devs[s := d], answer)
  {
    hide Decode, LoadAt, Natural;
  }

  lemma RoutedByGroup(cfg: Config, r: Request)
    requires Routed(cfg, r)
    ensures var group := Decode(cfg.maps[r.src], r.addr - r.addr % 8);
      group.Some? && group.value.0 == r.slave && group.value.1 + r.addr % 8 == r.offset
  {
    hide Decode;
  }

  // ---------- a log of requests ----------

  predicate OfMemory(cfg: Config, r: Request) { r.slave < |cfg.kinds| && cfg.kinds[r.slave].Memory? }

  // The accesses of a log that are for memories.
  function Ops(cfg: Config, log: seq<Msg>): seq<Op> {
    if log == [] then []
    else
      var n := |log| - 1;
      Ops(cfg, log[..n]) + if OfMemory(cfg, log[n].req) then [OpOf(log[n].req)] else []
  }

  // The answers to those accesses are the responses of the log.
  ghost predicate Answered(cfg: Config, log: seq<Msg>, answers: seq<seq<byte>>) {
    if log == [] then answers == []
    else
      var n, k := |log| - 1, |answers| - 1;
      if OfMemory(cfg, log[n].req) then
        k >= 0 && Tells(answers[k], log[n].req, log[n].value) && Answered(cfg, log[..n], answers[..k])
      else Answered(cfg, log[..n], answers)
  }

  ghost predicate AllRouted(cfg: Config, log: seq<Msg>) {
    forall k | 0 <= k < |log| :: Routed(cfg, log[k].req)
  }

  // Memories full of zeros that have all groups that they are asked for.
  ghost predicate Ample(cfg: Config, log: seq<Msg>, devs: seq<Device>) {
    && |devs| == |cfg.kinds| && Memories(devs)
    && forall s | 0 <= s < |devs| && cfg.kinds[s].Memory? ::
         Holds(devs[s].mem, map[]) && AllHaveGroups(log, s, devs[s])
  }

  // Every memory is as after its own transactions.
  ghost predicate Replayed(cfg: Config, log: seq<Msg>, devs: seq<Device>, devs': seq<Device>)
    requires Ample(cfg, log, devs)
  {
    && |devs'| == |devs| && Memories(devs')
    && forall s | 0 <= s < |devs| ::
         devs'[s] == if cfg.kinds[s].Memory? then DeviceAfter(cfg, log, s, devs[s]) else devs[s]
  }

  ghost predicate Recorded(cfg: Config, log: seq<Msg>, devs: seq<Device>)
    requires Ample(cfg, log, devs)
  {
    forall k | 0 <= k < |log| && OfMemory(cfg, log[k].req) ::
      log[k].value == AnswerAt(cfg, log, log[k].req.slave, devs[log[k].req.slave], k)
  }

  lemma {:induction false} RunSnoc(maps: seq<seq<Region>>, devs: seq<Device>, ops: seq<Op>, op: Op)
    requires Memories(devs) && AllFit(maps, devs, ops)
    requires Memories(RunThrough(maps, devs, ops).0) && Fits(maps, RunThrough(maps, devs, ops).0, op)
    requires Fits(maps, devs, op)
    ensures AllFit(maps, devs, ops + [op])
    ensures var (devs1, answers) := RunThrough(maps, devs, ops);
      RunThrough(maps, devs, ops + [op]) == (Through(maps, devs1, op).0, answers + [Through(maps, devs1, op).1])
    decreases |ops|
  {
    hide Through, Fits;
    if ops == [] {
      OneOpThrough(maps, devs, op);
      assert ops + [op] == [op] && [] + [Through(maps, devs, op).1] == [Through(maps, devs, op).1];
    } else {
      StillFits(maps, devs, ops[0], ops[1..]);
      StillFits(maps, devs, ops[0], [op]);
      assert AllFit(maps, devs, [op]);
      var devs0 := Through(maps, devs, ops[0]).0;
      assert Fits(maps, devs0, [op][0]);
      RunSnoc(maps, devs0, ops[1..], op);
      assert (ops + [op])[1..] == ops[1..] + [op];
      var (devs1, answers) := RunThrough(maps, devs0, ops[1..]);
      assert [Through(maps, devs, ops[0]).1] + (answers + [Through(maps, devs1, op).1])
          == [Through(maps, devs, ops[0]).1] + answers + [Through(maps, devs1, op).1];
    }
  }

  // ---------- every run of the network ----------

  // A log through the lanes: every memory ends as after its own transactions, and every answer tells
  // what the response told.
  lemma {:induction false} LogIsThrough(cfg: Config, log: seq<Msg>, devs: seq<Device>)
    requires AllRouted(cfg, log) && Ample(cfg, log, devs) && Recorded(cfg, log, devs)
    ensures AllFit(cfg.maps, devs, Ops(cfg, log))
    ensures var (devs', answers) := RunThrough(cfg.maps, devs, Ops(cfg, log));
      Replayed(cfg, log, devs, devs') && Answered(cfg, log, answers)
  {
    hide Routed, OfMemory, DeviceAfter, RunThrough, Fits, AnswerAt, Holds, HasGroup, OpOf;
    if log != [] {
      var n := |log| - 1;
      ShorterLog(cfg, log, devs);
      LogIsThrough(cfg, log[..n], devs);
      if OfMemory(cfg, log[n].req) {
        OneMoreServed(cfg, log, devs);
      } else {
        NoneMore(cfg, log, devs);
      }
    } else {
      Nothing(cfg, devs);
    }
  }

  lemma Nothing(cfg: Config, devs: seq<Device>)
    requires Ample(cfg, [], devs)
    ensures AllFit(cfg.maps, devs, []) && RunThrough(cfg.maps, devs, []) == (devs, [])
    ensures Replayed(cfg, [], devs, devs)
  {
    hide Holds;
  }

  lemma ShorterLog(cfg: Config, log: seq<Msg>, devs: seq<Device>)
    requires log != [] && AllRouted(cfg, log) && Ample(cfg, log, devs) && Recorded(cfg, log, devs)
    ensures var short := log[..|log| - 1];
      AllRouted(cfg, short) && Ample(cfg, short, devs) && Recorded(cfg, short, devs)
  {
    hide Routed, Holds, HasGroup, ByLanes, DeviceAfter;
    var short := log[..|log| - 1];
    forall k | 0 <= k < |short| && OfMemory(cfg, short[k].req)
      ensures short[k].value == AnswerAt(cfg, short, short[k].req.slave, devs[short[k].req.slave], k)
    {
      assert short[..k] == log[..k] && OfMemory(cfg, log[k].req);
    }
  }

  lemma NoneMore(cfg: Config, log: seq<Msg>, devs: seq<Device>)
    requires log != [] && !OfMemory(cfg, log[|log| - 1].req) && Ample(cfg, log, devs)
    requires Ample(cfg, log[..|log| - 1], devs)
    ensures Ops(cfg, log) == Ops(cfg, log[..|log| - 1])
    ensures forall devs' | Replayed(cfg, log[..|log| - 1], devs, devs') :: Replayed(cfg, log, devs, devs')
  {
    hide Holds, HasGroup, ByLanes;
  }

  // What one more transaction of a memory does to its own device, and to the others.
  lemma OneMoreDevice(cfg: Config, log: seq<Msg>, devs: seq<Device>, devs1: seq<Device>)
    requires log != [] && OfMemory(cfg, log[|log| - 1].req)
    requires Ample(cfg, log, devs) && Ample(cfg, log[..|log| - 1], devs)
    requires Recorded(cfg, log, devs) && Replayed(cfg, log[..|log| - 1], devs, devs1)
    ensures var m := log[|log| - 1];
      && HasGroup(devs[m.req.slave], m.req) && HasGroup(devs1[m.req.slave], m.req)
      && Replayed(cfg, log, devs, devs1[m.req.slave := ByLanes(devs1[m.req.slave], m.req).0])
      && m.value == ByLanes(devs1[m.req.slave], m.req).1
  {
    var n := |log| - 1;
    var r, s := log[n].req, log[n].req.slave;
    assert HasGroup(devs[s], r);
    assert DeviceAfter(cfg, log[..n], s, devs[s]) == devs1[s];
    assert HasGroup(devs1[s], r);
    assert log[n].value == AnswerAt(cfg, log, s, devs[s], n);
    ByLanesSizes(devs1[s], r);
    hide Holds, HasGroup, ByLanes;
  }

  lemma ByLanesSizes(d: Device, r: Request)
    requires HasGroup(d, r)
    ensures |ByLanes(d, r).0.rdata| == 8
  {
    var g := r.offset - r.addr % 8;
    ByLanesIs(d, r, g);
    LoadAtIsFlat(d, g, r.addr % 8, 4);
    hide LoadAt, StoreAt, Natural;
  }

  lemma OneMoreServed(cfg: Config, log: seq<Msg>, devs: seq<Device>)
    requires log != [] && OfMemory(cfg, log[|log| - 1].req) && AllRouted(cfg, log)
    requires Ample(cfg, log, devs) && Recorded(cfg, log, devs) && Ample(cfg, log[..|log| - 1], devs)
    requires AllFit(cfg.maps, devs, Ops(cfg, log[..|log| - 1]))
    requires var (devs1, answers) := RunThrough(cfg.maps, devs, Ops(cfg, log[..|log| - 1]));
      Replayed(cfg, log[..|log| - 1], devs, devs1) && Answered(cfg, log[..|log| - 1], answers)
    ensures AllFit(cfg.maps, devs, Ops(cfg, log))
    ensures var (devs', answers) := RunThrough(cfg.maps, devs, Ops(cfg, log));
      Replayed(cfg, log, devs, devs') && Answered(cfg, log, answers)
  {
    var n := |log| - 1;
    var ops := Ops(cfg, log[..n]);
    var (devs1, answers) := RunThrough(cfg.maps, devs, ops);
    OneMoreDevice(cfg, log, devs, devs1);
    hide Routed, DeviceAfter, RunThrough, Fits, AnswerAt, Holds, HasGroup, OpOf, ByLanes, Recorded, Through;
    var r := log[n].req;
    RequestIsThrough(cfg, devs, r);
    RequestIsThrough(cfg, devs1, r);
    RunSnoc(cfg.maps, devs, ops, OpOf(r));
    assert Ops(cfg, log) == ops + [OpOf(r)];
    var answer := Through(cfg.maps, devs1, OpOf(r)).1;
    assert (answers + [answer])[..|answers|] == answers;
  }

  // The accesses of a log, through the maps and the lanes, give the answers of the log and leave the
  // words of the slaves.
  ghost predicate IsThrough(cfg: Config, log: seq<Msg>, slaves: seq<Slave>, devs: seq<Device>) {
    && Memories(devs) && AllFit(cfg.maps, devs, Ops(cfg, log))
    && var (devs', answers) := RunThrough(cfg.maps, devs, Ops(cfg, log));
       Answered(cfg, log, answers) && HaveWords(cfg, slaves, devs')
  }

  ghost predicate HaveWords(cfg: Config, slaves: seq<Slave>, devs: seq<Device>) {
    && |devs| == |slaves| == |cfg.kinds|
    && forall s | 0 <= s < |devs| && cfg.kinds[s].Memory? :: Holds(devs[s].mem, slaves[s].mem)
  }

  // In every run of the network the memories do, in the order of service, what the accesses of the CPUs
  // do through the maps and the lanes, and tell the CPUs what those tell.
  lemma NetworkIsThrough(n: Net, moves: seq<Move>, devs: seq<Device>)
    requires NetInit(n) && NetLegal(n, moves) && Ample(NetAfter(n, moves).cfg, Services(n, moves), devs)
    ensures IsThrough(NetAfter(n, moves).cfg, Services(n, moves), NetAfter(n, moves).slaves, devs)
  {
    var b, log := NetAfter(n, moves), Services(n, moves);
    ServicesAreRouted(n, moves);
    ServicesAreRecorded(n, moves, devs);
    LogIsThrough(b.cfg, log, devs);
    assert Replayed(b.cfg, log, devs, RunThrough(b.cfg.maps, devs, Ops(b.cfg, log)).0);
    forall s | 0 <= s < |devs| && b.cfg.kinds[s].Memory?
      ensures s < |b.slaves| && Holds(DeviceAfter(b.cfg, log, s, devs[s]).mem, b.slaves[s].mem)
    {
      LanesServeTheNetwork(n, moves, s, devs[s]);
      hide Holds, NetInit, NetLegal, NetAfter, Services, DeviceAfter, Recorded, Answered, RunThrough, Ops, AllRouted;
    }
    hide Holds, NetInit, NetLegal, NetAfter, Services, DeviceAfter, Recorded, Answered, RunThrough, Ops, AllRouted;
  }

  lemma ServicesAreRouted(n: Net, moves: seq<Move>)
    requires NetInit(n) && NetLegal(n, moves)
    ensures AllRouted(NetAfter(n, moves).cfg, Services(n, moves))
    ensures |NetAfter(n, moves).slaves| == |NetAfter(n, moves).cfg.kinds|
  {
    var steps := NetworkRefinesChannels(n, moves);
    var a := After(Start0(n), steps);
    assert Ok(a) && a.cfg == NetAfter(n, moves).cfg;
    hide Legal, After, NetInit, Start0, NetAfter, Services, Routed;
    forall k | 0 <= k < |a.log|
      ensures Routed(a.cfg, a.log[k].req)
    {
      assert EntryOk(a.cfg, a.cpus, a.log[k].req);
    }
  }

  lemma ServicesAreRecorded(n: Net, moves: seq<Move>, devs: seq<Device>)
    requires NetInit(n) && NetLegal(n, moves) && Ample(NetAfter(n, moves).cfg, Services(n, moves), devs)
    ensures Recorded(NetAfter(n, moves).cfg, Services(n, moves), devs)
  {
    var cfg, log := NetAfter(n, moves).cfg, Services(n, moves);
    hide NetInit, NetLegal, NetAfter, Services, Holds, HasGroup, AnswerAt;
    forall k | 0 <= k < |log| && OfMemory(cfg, log[k].req)
      ensures log[k].value == AnswerAt(cfg, log, log[k].req.slave, devs[log[k].req.slave], k)
    {
      LanesServeTheNetwork(n, moves, log[k].req.slave, devs[log[k].req.slave]);
    }
  }

  // The maps have every address that a memory was asked for where they have its group.
  ghost predicate AskedAsGroups(cfg: Config, log: seq<Msg>) {
    forall k | 0 <= k < |log| && OfMemory(cfg, log[k].req) ::
      log[k].req.src < |cfg.maps| && AsItsGroup(cfg.maps[log[k].req.src], log[k].req.addr)
  }

  lemma {:induction false} OpsAsGroups(cfg: Config, log: seq<Msg>)
    requires AskedAsGroups(cfg, log)
    ensures AllAsTheirGroups(cfg.maps, Ops(cfg, log))
  {
    hide AsItsGroup, OfMemory, BytesOf;
    if log != [] {
      OpsAsGroups(cfg, log[..|log| - 1]);
    }
  }

  // The same accesses on plain byte memories, at the addresses that the maps give.
  ghost predicate RunsFlat(cfg: Config, log: seq<Msg>, slaves: seq<Slave>, devs: seq<Device>) {
    exists devs', answers :: FlatRun(cfg.maps, Contents(devs), Ops(cfg, log), Contents(devs'), answers)
                             && Answered(cfg, log, answers) && HaveWords(cfg, slaves, devs')
  }

  // Then they do what plain loads and stores do there.
  lemma NetworkIsFlat(n: Net, moves: seq<Move>, devs: seq<Device>)
    requires NetInit(n) && NetLegal(n, moves) && Ample(NetAfter(n, moves).cfg, Services(n, moves), devs)
    requires AskedAsGroups(NetAfter(n, moves).cfg, Services(n, moves))
    ensures RunsFlat(NetAfter(n, moves).cfg, Services(n, moves), NetAfter(n, moves).slaves, devs)
  {
    NetworkIsThrough(n, moves, devs);
    hide *;
    ThroughIsFlat(NetAfter(n, moves).cfg, Services(n, moves), NetAfter(n, moves).slaves, devs);
  }

  lemma ThroughIsFlat(cfg: Config, log: seq<Msg>, slaves: seq<Slave>, devs: seq<Device>)
    requires IsThrough(cfg, log, slaves, devs) && AskedAsGroups(cfg, log)
    ensures RunsFlat(cfg, log, slaves, devs)
  {
    var (devs', answers) := RunThrough(cfg.maps, devs, Ops(cfg, log));
    hide FlatRun, RunThrough, Fits, Ops, Answered, HaveWords, AskedAsGroups, AllAsTheirGroups, Contents;
    OpsAsGroups(cfg, log);
    EveryRunIsFlat(cfg.maps, devs, Ops(cfg, log));
    assert FlatRun(cfg.maps, Contents(devs), Ops(cfg, log), Contents(devs'), answers);
  }
}

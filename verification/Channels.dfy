/**
 The simple form of the network: every CPU has one list of transactions under way, in program
 order, and every slave serves the oldest unserved transaction of some CPU in one step.  The
 properties that the wrappers rely on are proved here; NetworkRefinement proves that the queues,
 dispatchers and device threads refine this machine.
 */
module Channels {
  import opened Options
  import opened PoolModel
  import opened AddressMap

  // ---------- transactions ----------

  // tag, posted and fence are not wires of the network: they name the transaction and say how
  // its CPU issued it.  slave and offset are what the dispatcher reads off the address map.
  datatype Request = Request(src: nat, tid: nat, addr: u32, slave: nat, offset: nat, write: bool, data: u32,
                             posted: bool, fence: bool, tag: nat)

  // A transaction on its way to the slave, or its response on the way back.
  datatype Msg = Msg(req: Request, served: bool, value: nat)

  // ---------- slaves ----------

  datatype Kind = Memory | Semaphore

  // Words at offsets; a word that was never written holds 0.
  type Mem = map<nat, nat>

  function Load(m: Mem, offset: nat): nat { if offset in m then m[offset] else 0 }

  // What a slave does with a 32-bit access: the new memory and the data of the response.  Locking
  // a semaphore by a write for the third time stops the simulation in the source; here the word
  // stays 2.
  function Access(kind: Kind, m: Mem, r: Request): (Mem, nat) {
    var val := Load(m, r.offset);
    match kind
    case Memory =>
      if r.write then (m[r.offset := r.data], 0) else (m, val)
    case Semaphore =>
      if r.write then
        (m[r.offset := if r.data == 1 then (if val == 1 || val == 2 then 2 else 1) else r.data], 0)
      else
        (if val == 0 then m[r.offset := 1] else m, if val == 2 then 1 else val)
  }

  // ---------- CPUs ----------

  datatype Phase = Ready | Waiting(req: Request)

  // unblocking is m_unblocking_write.  issued, returned and held are histories: everything the
  // CPU issued, the answers it was given, and the semaphores it has read as free and not released.
  datatype Cpu = Cpu(unblocking: bool, pool: Pool, phase: Phase,
                     issued: seq<Request>, returned: seq<Msg>, held: set<(nat, nat)>)

  datatype Config = Config(maps: seq<seq<Region>>, kinds: seq<Kind>)

  // An aligned word, on both sides of the address map, so that two words are the same or disjoint.
  predicate IsWord(addr: u32, offset: nat) { addr % 4 == 0 && offset % 4 == 0 }

  ghost predicate Routed(cfg: Config, r: Request) {
    && r.src < |cfg.maps| && r.slave < |cfg.kinds|
    && Locate(cfg.maps[r.src], r.addr) == Some((r.slave, r.offset)) && IsWord(r.addr, r.offset)
  }

  // Reads, and writes that the caller marks as I/O, leave only when no request is busy.
  predicate Fenced(cpu: Cpu, write: bool, io: bool) { cpu.unblocking && (!write || io) }

  function NewRequest(c: nat, cpu: Cpu, addr: u32, slave: nat, offset: nat, write: bool, data: u32, io: bool): Request
    requires cpu.pool.free != []
  {
    Request(c, cpu.pool.free[0], addr, slave, offset, write, data,
            write && cpu.unblocking, Fenced(cpu, write, io), |cpu.issued|)
  }

  // read and write of the CPU wrapper, up to send_req.
  function CpuIssue(cpu: Cpu, r: Request): Cpu
    requires cpu.pool.free != []
  {
    cpu.(pool := GetNew(cpu.pool, r.write),
         phase := if r.posted then Ready else Waiting(r),
         issued := cpu.issued + [r],
         held := if r.write then cpu.held - {(r.slave, r.offset)} else cpu.held)
  }

  function CpuReceive(cpu: Cpu, m: Msg): Cpu {
    cpu.(pool := PoolModel.Receive(cpu.pool, cpu.unblocking, m.req.tid, m.value))
  }

  predicate CanResume(cpu: Cpu) {
    cpu.phase.Waiting? &&
    var i := Find(cpu.pool.busy, cpu.phase.req.tid);
    i < |cpu.pool.busy| && cpu.pool.busy[i].done
  }

  // The end of read and of a blocking write.
  function CpuResume(cfg: Config, cpu: Cpu): Cpu
    requires CanResume(cpu)
  {
    var r := cpu.phase.req;
    var i := Find(cpu.pool.busy, r.tid);
    var v := cpu.pool.busy[i].data;
    cpu.(pool := Free(cpu.pool, i), phase := Ready, returned := cpu.returned + [Msg(r, true, v)],
         held := if Grants(cfg, Msg(r, true, v)) then cpu.held + {(r.slave, r.offset)} else cpu.held)
  }

  // A semaphore read as free.
  predicate Grants(cfg: Config, m: Msg) {
    && m.served && !m.req.write && m.value == 0
    && m.req.slave < |cfg.kinds| && cfg.kinds[m.req.slave].Semaphore?
  }

  // ---------- the machine ----------

  datatype Sys = Sys(cfg: Config, cpus: seq<Cpu>, flight: seq<seq<Msg>>, mems: seq<Mem>, log: seq<Msg>)

  datatype Step =
    | Issue(c: nat, addr: u32, write: bool, data: u32, io: bool)
    | Serve(c: nat, i: nat)
    | Receive(c: nat, i: nat)
    | Resume(c: nat)

  ghost predicate Sized(a: Sys) {
    && |a.cpus| == |a.flight| == |a.cfg.maps| && |a.mems| == |a.cfg.kinds|
  }

  // No transaction before place i goes to the same slave, respectively is unserved there.
  ghost predicate FirstOfSlave(fl: seq<Msg>, i: nat)
    requires i < |fl|
  {
    forall j | 0 <= j < i :: fl[j].req.slave != fl[i].req.slave
  }

  ghost predicate FirstUnserved(fl: seq<Msg>, i: nat)
    requires i < |fl|
  {
    forall j | 0 <= j < i :: fl[j].req.slave == fl[i].req.slave ==> fl[j].served
  }

  predicate CanIssue(cfg: Config, c: nat, cpu: Cpu, addr: u32, write: bool, io: bool)
    requires c < |cfg.maps|
  {
    && cpu.phase.Ready? && cpu.pool.free != []
    && (Fenced(cpu, write, io) ==> cpu.pool.busy == [])
    && Locate(cfg.maps[c], addr).Some? && IsWord(addr, Locate(cfg.maps[c], addr).value.1)
    && Locate(cfg.maps[c], addr).value.0 < |cfg.kinds|
  }

  ghost predicate Enabled(a: Sys, st: Step)
    requires Sized(a)
  {
    match st
    case Issue(c, addr, write, data, io) => c < |a.cpus| && CanIssue(a.cfg, c, a.cpus[c], addr, write, io)
    case Serve(c, i) =>
      && c < |a.cpus| && i < |a.flight[c]| && !a.flight[c][i].served && FirstUnserved(a.flight[c], i)
      && a.flight[c][i].req.slave < |a.mems|
    case Receive(c, i) =>
      c < |a.cpus| && i < |a.flight[c]| && a.flight[c][i].served && FirstOfSlave(a.flight[c], i)
    case Resume(c) => c < |a.cpus| && CanResume(a.cpus[c])
  }

  function RequestOf(a: Sys, st: Step): Request
    requires st.Issue? && st.c < |a.cpus| && st.c < |a.cfg.maps|
    requires CanIssue(a.cfg, st.c, a.cpus[st.c], st.addr, st.write, st.io)
  {
    var (slave, offset) := Locate(a.cfg.maps[st.c], st.addr).value;
    NewRequest(st.c, a.cpus[st.c], st.addr, slave, offset, st.write, st.data, st.io)
  }

  ghost function Next(a: Sys, st: Step): Sys
    requires Sized(a) && Enabled(a, st)
  {
    match st
    case Issue(c, addr, write, data, io) =>
      var r := RequestOf(a, st);
      a.(cpus := a.cpus[c := CpuIssue(a.cpus[c], r)],
         flight := a.flight[c := a.flight[c] + [Msg(r, false, 0)]])
    case Serve(c, i) =>
      var m := a.flight[c][i];
      var (mem, v) := Access(a.cfg.kinds[m.req.slave], a.mems[m.req.slave], m.req);
      var m' := Msg(m.req, true, v);
      a.(flight := a.flight[c := a.flight[c][i := m']], mems := a.mems[m.req.slave := mem], log := a.log + [m'])
    case Receive(c, i) =>
      a.(cpus := a.cpus[c := CpuReceive(a.cpus[c], a.flight[c][i])],
         flight := a.flight[c := a.flight[c][..i] + a.flight[c][i + 1..]])
    case Resume(c) =>
      a.(cpus := a.cpus[c := CpuResume(a.cfg, a.cpus[c])])
  }

  ghost predicate Init(a: Sys) {
    && Sized(a) && a.log == []
    && (forall c | 0 <= c < |a.cpus| :: a.flight[c] == [])
    && (forall c | 0 <= c < |a.cpus| ::
          a.cpus[c] == Cpu(a.cpus[c].unblocking, Initial(), Ready, [], [], {}))
    && (forall s | 0 <= s < |a.mems| :: a.mems[s] == map[])
  }
}

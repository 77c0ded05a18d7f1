/**
 Over every run of the channel machine: transactions are served exactly once, in an order that
 respects the fences, and every answer is what the served transactions make of the memories.
 */
module ChannelRuns {
  import opened PoolModel
  import opened Channels
  import opened ChannelOrder

  // ---------- the global order ----------

  ghost predicate LoggedBefore(log: seq<Msg>, r: Request, k: nat)
    requires k <= |log|
  {
    exists j :: 0 <= j < k && log[j].req == r
  }

  ghost predicate LogOk(cfg: Config, cpus: seq<Cpu>, log: seq<Msg>) {
    && (forall k | 0 <= k < |log| :: log[k].served && EntryOk(cfg, cpus, log[k].req))
    && (forall j, k | 0 <= j < k < |log| :: log[j].req != log[k].req)
    && (forall k | 0 <= k < |log| :: InOrder(cpus, log, k))
  }

  ghost predicate EntryOk(cfg: Config, cpus: seq<Cpu>, r: Request) {
    r.src < |cpus| && IssuedBy(r.src, cpus[r.src], r) && Routed(cfg, r)
  }

  // Everything that its CPU issued earlier and that has to come first did come first.
  ghost predicate InOrder(cpus: seq<Cpu>, log: seq<Msg>, k: nat)
    requires k < |log|
  {
    var y := log[k].req;
    && y.src < |cpus|
    && forall n | 0 <= n < |cpus[y.src].issued| && n < y.tag && Ordered(cpus[y.src].issued[n], y) ::
         LoggedBefore(log, cpus[y.src].issued[n], k)
  }

  // The memory of slave s after the first transactions of the log.
  ghost function MemAfter(cfg: Config, log: seq<Msg>, s: nat): Mem
    requires s < |cfg.kinds|
  {
    if log == [] then map[]
    else
      var m := MemAfter(cfg, log[..|log| - 1], s);
      var r := log[|log| - 1].req;
      if r.slave == s then Access(cfg.kinds[s], m, r).0 else m
  }

  ghost predicate ValueOk(cfg: Config, log: seq<Msg>, k: nat)
    requires k < |log|
  {
    var r := log[k].req;
    r.slave < |cfg.kinds| && log[k].value == Access(cfg.kinds[r.slave], MemAfter(cfg, log[..k], r.slave), r).1
  }

  ghost predicate MemoriesOk(a: Sys) {
    && Sized(a)
    && (forall s | 0 <= s < |a.mems| :: a.mems[s] == MemAfter(a.cfg, a.log, s))
    && (forall k | 0 <= k < |a.log| :: ValueOk(a.cfg, a.log, k))
  }

  ghost predicate Ok(a: Sys) {
    && Sized(a)
    && (forall c | 0 <= c < |a.cpus| :: CpuOk(a.cfg, c, a.cpus[c], a.flight[c], a.log))
    && LogOk(a.cfg, a.cpus, a.log)
    && MemoriesOk(a)
  }

  // ---------- steps ----------

  lemma InitIsOk(a: Sys)
    requires Init(a)
    ensures Ok(a)
  {
    InitialIsSound();
    forall c | 0 <= c < |a.cpus|
      ensures CpuOk(a.cfg, c, a.cpus[c], a.flight[c], a.log)
    {
      assert a.flight[c] == [] && a.cpus[c].issued == [];
    }
  }

  // A CPU that issues more keeps its earlier requests.
  ghost predicate Extends(cpu: Cpu, cpu': Cpu) {
    cpu.issued <= cpu'.issued && cpu.unblocking == cpu'.unblocking
  }

  lemma LogUnderIssue(cfg: Config, cpus: seq<Cpu>, cpus': seq<Cpu>, log: seq<Msg>)
    requires LogOk(cfg, cpus, log) && |cpus| == |cpus'| && forall c | 0 <= c < |cpus| :: Extends(cpus[c], cpus'[c])
    ensures LogOk(cfg, cpus', log)
  {
    forall k | 0 <= k < |log|
      ensures EntryOk(cfg, cpus', log[k].req) && InOrder(cpus', log, k)
    {
      var y := log[k].req;
      assert EntryOk(cfg, cpus, y) && InOrder(cpus, log, k);
      assert Extends(cpus[y.src], cpus'[y.src]);
      forall n | 0 <= n < |cpus'[y.src].issued| && n < y.tag && Ordered(cpus'[y.src].issued[n], y)
        ensures LoggedBefore(log, cpus'[y.src].issued[n], k)
      {
        assert cpus'[y.src].issued[n] == cpus[y.src].issued[n];
      }
    }
  }

  // A request that has just been made is not in the log.
  lemma NewIsNotLogged(cfg: Config, cpus: seq<Cpu>, log: seq<Msg>, r: Request)
    requires LogOk(cfg, cpus, log) && r.src < |cpus| && r.tag == |cpus[r.src].issued|
    ensures !Logged(log, r)
  {
    forall k | 0 <= k < |log|
      ensures log[k].req != r
    {
      assert EntryOk(cfg, cpus, log[k].req);
    }
  }

  // A step that touches one CPU and its transactions and neither a slave nor the log.
  lemma OneCpuKeepsOk(a: Sys, c: nat, cpu: Cpu, fl: seq<Msg>)
    requires Ok(a) && c < |a.cpus| && Extends(a.cpus[c], cpu) && CpuOk(a.cfg, c, cpu, fl, a.log)
    ensures Ok(a.(cpus := a.cpus[c := cpu], flight := a.flight[c := fl]))
  {
    LogUnderIssue(a.cfg, a.cpus, a.cpus[c := cpu], a.log);
  }

  lemma IssueKeepsOk(a: Sys, st: Step)
    requires Ok(a) && st.Issue? && Enabled(a, st)
    ensures Ok(Next(a, st))
  {
    var c, r := st.c, RequestOf(a, st);
    NewIsNotLogged(a.cfg, a.cpus, a.log, r);
    IssueKeepsCpu(a.cfg, c, a.cpus[c], a.flight[c], a.log, r, st.write, st.io);
    OneCpuKeepsOk(a, c, CpuIssue(a.cpus[c], r), a.flight[c] + [Msg(r, false, 0)]);
  }

  // Nothing older for the same slave is unserved.
  lemma NoneBefore(fl: seq<Msg>, i: nat, x: Request)
    requires i < |fl| && FirstUnserved(fl, i) && x.slave == fl[i].req.slave && x.tag < fl[i].req.tag
    requires forall j, k | 0 <= j < k < |fl| :: fl[j].req.tag < fl[k].req.tag
    ensures !Unserved(fl, x)
  {
    forall j | 0 <= j < |fl| && fl[j].req == x
      ensures fl[j].served
    {
      assert j < i;
    }
  }

  // The order is respected by the transaction that is served now.
  lemma ServedInOrder(cfg: Config, cpus: seq<Cpu>, log: seq<Msg>, c: nat, fl: seq<Msg>, i: nat, v: nat)
    requires c < |cpus| && CpuOk(cfg, c, cpus[c], fl, log)
    requires i < |fl| && !fl[i].served && FirstUnserved(fl, i)
    ensures InOrder(cpus, log + [Msg(fl[i].req, true, v)], |log|)
  {
    var cpu, y := cpus[c], fl[i].req;
    var log' := log + [Msg(y, true, v)];
    assert IssuedBy(c, cpu, y);
    forall n | 0 <= n < |cpu.issued| && n < y.tag && Ordered(cpu.issued[n], y)
      ensures LoggedBefore(log', cpu.issued[n], |log|)
    {
      var x := cpu.issued[n];
      if x.slave == y.slave {
        NoneBefore(fl, i, x);
      }
      assert Logged(log, x);
      var k :| 0 <= k < |log| && log[k].req == x;
      assert log'[k].req == x;
    }
  }

  lemma LogUnderServe(cfg: Config, cpus: seq<Cpu>, log: seq<Msg>, c: nat, fl: seq<Msg>, i: nat, v: nat)
    requires LogOk(cfg, cpus, log) && c < |cpus| && CpuOk(cfg, c, cpus[c], fl, log)
    requires i < |fl| && !fl[i].served && FirstUnserved(fl, i)
    ensures LogOk(cfg, cpus, log + [Msg(fl[i].req, true, v)])
  {
    var m := Msg(fl[i].req, true, v);
    var log' := log + [m];
    ServedInOrder(cfg, cpus, log, c, fl, i, v);
    assert IssuedBy(c, cpus[c], fl[i].req);
    assert !Logged(log, m.req);
    forall k | 0 <= k < |log'|
      ensures EntryOk(cfg, cpus, log'[k].req) && InOrder(cpus, log', k)
    {
      if k < |log| {
        assert InOrder(cpus, log, k);
        OrderKept(cpus, log, m, k);
      }
    }
  }

  lemma OrderKept(cpus: seq<Cpu>, log: seq<Msg>, m: Msg, k: nat)
    requires k < |log| && InOrder(cpus, log, k)
    ensures InOrder(cpus, log + [m], k)
  {
    var y := log[k].req;
    forall n | 0 <= n < |cpus[y.src].issued| && n < y.tag && Ordered(cpus[y.src].issued[n], y)
      ensures LoggedBefore(log + [m], cpus[y.src].issued[n], k)
    {
      var x := cpus[y.src].issued[n];
      assert LoggedBefore(log, x, k);
      var j :| 0 <= j < k && log[j].req == x;
      assert (log + [m])[j].req == x;
    }
  }

  lemma MemoriesUnderServe(a: Sys, c: nat, i: nat)
    requires MemoriesOk(a) && Enabled(a, Serve(c, i))
    ensures MemoriesOk(Next(a, Serve(c, i)))
  {
    var a' := Next(a, Serve(c, i));
    var s := a.flight[c][i].req.slave;
    assert a'.log[..|a.log|] == a.log;
    forall k | 0 <= k < |a'.log|
      ensures ValueOk(a.cfg, a'.log, k)
    {
      assert a'.log[..k] == a.log[..k];
      if k < |a.log| {
        assert ValueOk(a.cfg, a.log, k);
      }
    }
  }

  lemma ServeKeepsOk(a: Sys, c: nat, i: nat)
    requires Ok(a) && Enabled(a, Serve(c, i))
    ensures Ok(Next(a, Serve(c, i)))
  {
    var a' := Next(a, Serve(c, i));
    var m := a'.flight[c][i];
    MemoriesUnderServe(a, c, i);
    LogUnderServe(a.cfg, a.cpus, a.log, c, a.flight[c], i, m.value);
    ServeKeepsCpu(a.cfg, c, a.cpus[c], a.flight[c], a.log, i, m.value);
    forall d | 0 <= d < |a.cpus|
      ensures CpuOk(a.cfg, d, a'.cpus[d], a'.flight[d], a'.log)
    {
      if d != c {
        assert IssuedBy(c, a.cpus[c], m.req);
        OtherServeKeepsCpu(a.cfg, d, a.cpus[d], a.flight[d], a.log, m);
      }
    }
  }

  lemma ReceiveExtends(cpu: Cpu, m: Msg)
    ensures Extends(cpu, CpuReceive(cpu, m))
  {
  }

  lemma ResumeExtends(cfg: Config, cpu: Cpu)
    requires CanResume(cpu)
    ensures Extends(cpu, CpuResume(cfg, cpu))
  {
  }

  lemma ReceiveKeepsOk(a: Sys, c: nat, i: nat)
    requires Ok(a) && Enabled(a, Receive(c, i))
    ensures Ok(Next(a, Receive(c, i)))
  {
    var cpu, fl := a.cpus[c], a.flight[c];
    assert CpuOk(a.cfg, c, cpu, fl, a.log);
    ReceiveKeepsCpu(a.cfg, c, cpu, fl, a.log, i);
    ReceiveExtends(cpu, fl[i]);
    ReceiveIs(a, c, i, CpuReceive(cpu, fl[i]));
    OneCpuKeepsOk(a, c, CpuReceive(cpu, fl[i]), fl[..i] + fl[i + 1..]);
  }

  lemma ReceiveIs(a: Sys, c: nat, i: nat, cpu': Cpu)
    requires Sized(a) && Enabled(a, Receive(c, i)) && cpu' == CpuReceive(a.cpus[c], a.flight[c][i])
    ensures Next(a, Receive(c, i))
            == a.(cpus := a.cpus[c := cpu'], flight := a.flight[c := a.flight[c][..i] + a.flight[c][i + 1..]])
  {
  }

  lemma ResumeKeepsOk(a: Sys, c: nat)
    requires Ok(a) && Enabled(a, Resume(c))
    ensures Ok(Next(a, Resume(c)))
  {
    var cpu, fl := a.cpus[c], a.flight[c];
    assert CpuOk(a.cfg, c, cpu, fl, a.log);
    ResumeKeepsCpu(a.cfg, c, cpu, fl, a.log);
    ResumeExtends(a.cfg, cpu);
    ResumeIs(a, c, CpuResume(a.cfg, cpu));
    OneCpuKeepsOk(a, c, CpuResume(a.cfg, cpu), fl);
  }

  lemma ResumeIs(a: Sys, c: nat, cpu': Cpu)
    requires Sized(a) && Enabled(a, Resume(c)) && cpu' == CpuResume(a.cfg, a.cpus[c])
    ensures Next(a, Resume(c)) == a.(cpus := a.cpus[c := cpu'], flight := a.flight[c := a.flight[c]])
  {
    assert a.flight[c := a.flight[c]] == a.flight;
  }

  lemma StepKeepsOk(a: Sys, st: Step)
    requires Ok(a) && Enabled(a, st)
    ensures Ok(Next(a, st))
  {
    match st
    case Issue(_, _, _, _, _) => IssueKeepsOk(a, st);
    case Serve(c, i) => ServeKeepsOk(a, c, i);
    case Receive(c, i) => ReceiveKeepsOk(a, c, i);
    case Resume(c) => ResumeKeepsOk(a, c);
  }

  // ---------- runs ----------

  ghost predicate Legal(a: Sys, steps: seq<Step>)
    decreases |steps|
  {
    Sized(a) && (steps == [] || (Enabled(a, steps[0]) && Legal(Next(a, steps[0]), steps[1..])))
  }

  ghost function After(a: Sys, steps: seq<Step>): Sys
    requires Legal(a, steps)
    decreases |steps|
  {
    if steps == [] then a else After(Next(a, steps[0]), steps[1..])
  }

  lemma {:induction false} RunKeepsOk(a: Sys, steps: seq<Step>)
    requires Ok(a) && Legal(a, steps)
    ensures Ok(After(a, steps))
    decreases |steps|
  {
    if steps != [] {
      StepKeepsOk(a, steps[0]);
      RunKeepsOk(Next(a, steps[0]), steps[1..]);
    }
  }

  // ---------- what holds in every state ----------

  // Exactly once: a transaction is under way unserved, or served at one place of the log.
  ghost predicate ExactlyOnce(a: Sys, c: nat, n: nat)
    requires Sized(a) && c < |a.cpus| && n < |a.cpus[c].issued|
  {
    var r := a.cpus[c].issued[n];
    && (Unserved(a.flight[c], r) <==> !Logged(a.log, r))
    && forall j, k | 0 <= j < |a.log| && 0 <= k < |a.log| && a.log[j].req == r && a.log[k].req == r :: j == k
  }

  lemma EveryTransactionOnce(a: Sys, steps: seq<Step>, c: nat, n: nat)
    requires Init(a) && Legal(a, steps) && c < |After(a, steps).cpus| && n < |After(a, steps).cpus[c].issued|
    ensures Sized(After(a, steps)) && ExactlyOnce(After(a, steps), c, n)
  {
    InitIsOk(a);
    RunKeepsOk(a, steps);
    var b := After(a, steps);
    assert CpuOk(b.cfg, c, b.cpus[c], b.flight[c], b.log);
  }

  // The response that arrives finds its request, which is busy and not done, so that the
  // unknown-tid branch is never taken; and the busy requests of a CPU that has no answer yet are
  // its transactions under way, newest first, all with different tids.
  lemma EveryResponseFindsItsRequest(a: Sys, steps: seq<Step>, c: nat, i: nat)
    requires Init(a) && Legal(a, steps) && Sized(After(a, steps)) && Enabled(After(a, steps), Receive(c, i))
    ensures var b := After(a, steps);
      var cpu, r := b.cpus[c], b.flight[c][i].req;
      var k := Find(cpu.pool.busy, r.tid);
      && k < |cpu.pool.busy| && cpu.pool.busy[k] == Entry(r.tid, r.write, false, NO_DATA)
      && cpu.pool.busy == BusyOf(b.flight[c]) && Distinct(Tids(cpu.pool.busy))
  {
    InitIsOk(a);
    RunKeepsOk(a, steps);
    var b := After(a, steps);
    assert CpuOk(b.cfg, c, b.cpus[c], b.flight[c], b.log);
    ReceiveFinds(b.cpus[c], b.flight[c], i);
    SoundBusyDistinct(b.cpus[c].pool);
  }

  // The posted-write fence: whenever a read or an I/O write leaves a CPU with unblocking writes,
  // everything that the CPU issued before has been applied at its slave.
  lemma Fence(a: Sys, steps: seq<Step>, st: Step, n: nat)
    requires Init(a) && Legal(a, steps) && Sized(After(a, steps)) && st.Issue? && Enabled(After(a, steps), st)
    requires After(a, steps).cpus[st.c].unblocking ==> !st.write || st.io
    requires n < |After(a, steps).cpus[st.c].issued|
    ensures Logged(After(a, steps).log, After(a, steps).cpus[st.c].issued[n])
  {
    InitIsOk(a);
    RunKeepsOk(a, steps);
    var b := After(a, steps);
    var cpu := b.cpus[st.c];
    assert CpuOk(b.cfg, st.c, cpu, b.flight[st.c], b.log);
    IssueAlone(b.cfg, st.c, cpu, b.flight[st.c], st.write, st.io);
  }

  // The order of service respects, for every CPU, program order across fences, answers and
  // within one slave; and every answer is what the transactions served before make of the memory.
  lemma ServiceOrder(a: Sys, steps: seq<Step>, k: nat)
    requires Init(a) && Legal(a, steps) && k < |After(a, steps).log|
    ensures var b := After(a, steps);
      InOrder(b.cpus, b.log, k) && ValueOk(b.cfg, b.log, k)
    ensures var b := After(a, steps);
      forall c, m | 0 <= c < |b.cpus| && m in b.cpus[c].returned :: m in b.log
  {
    InitIsOk(a);
    RunKeepsOk(a, steps);
    var b := After(a, steps);
    forall c, m | 0 <= c < |b.cpus| && m in b.cpus[c].returned
      ensures m in b.log
    {
      assert CpuOk(b.cfg, c, b.cpus[c], b.flight[c], b.log);
    }
  }

  lemma InterleavedInOrder(cfg: Config, cpus: seq<Cpu>, log: seq<Msg>, j: nat, k: nat)
    requires LogOk(cfg, cpus, log) && j < k < |log|
    requires log[j].req.src == log[k].req.src && Ordered(log[k].req, log[j].req)
    ensures log[j].req.tag < log[k].req.tag
  {
    var x, y := log[k].req, log[j].req;
    assert EntryOk(cfg, cpus, x) && EntryOk(cfg, cpus, y) && InOrder(cpus, log, j);
    assert !LoggedBefore(log, x, j);
  }

  // Transactions of one CPU that are ordered are served in program order.  With one slave, or with
  // writes that block, those are all of them: the order of service then interleaves the CPUs'
  // program orders.
  lemma Sequential(a: Sys, steps: seq<Step>, j: nat, k: nat)
    requires Init(a) && Legal(a, steps) && j < k < |After(a, steps).log|
    requires var log := After(a, steps).log;
      log[j].req.src == log[k].req.src && Ordered(log[k].req, log[j].req)
    ensures After(a, steps).log[j].req.tag < After(a, steps).log[k].req.tag
  {
    InitIsOk(a);
    RunKeepsOk(a, steps);
    var b := After(a, steps);
    InterleavedInOrder(b.cfg, b.cpus, b.log, j, k);
  }

  // ---------- a CPU sees its own writes ----------

  ghost predicate Writes(r: Request, s: nat, offset: nat) { r.write && r.slave == s && r.offset == offset }

  lemma {:induction false} LastWriteStays(cfg: Config, log: seq<Msg>, s: nat, offset: nat, j: nat, k: nat)
    requires s < |cfg.kinds| && cfg.kinds[s].Memory? && j < k <= |log| && Writes(log[j].req, s, offset)
    requires forall i | j < i < k :: !Writes(log[i].req, s, offset)
    ensures Load(MemAfter(cfg, log[..k], s), offset) == log[j].req.data
  {
    assert log[..k][..k - 1] == log[..k - 1];
    if j < k - 1 {
      LastWriteStays(cfg, log, s, offset, j, k - 1);
    }
  }

  // Transaction k is a read of a word that its CPU wrote in its w-th transaction, before the read.
  ghost predicate ReadAfterWrite(cfg: Config, cpus: seq<Cpu>, log: seq<Msg>, w: nat, k: nat) {
    && k < |log|
    && var y := log[k].req;
       && !y.write && y.src < |cpus| && w < |cpus[y.src].issued| && w < y.tag
       && y.slave < |cfg.kinds| && cfg.kinds[y.slave].Memory?
       && Writes(cpus[y.src].issued[w], y.slave, y.offset)
  }

  // x was served before place n, and transaction k returns its data unless the word has been written
  // in between.
  ghost predicate Sees(log: seq<Msg>, x: Request, n: nat, k: nat) {
    && n <= k < |log|
    && exists j :: 0 <= j < n && log[j].req == x
         && (NotWritten(log, j, k, log[k].req) ==> log[k].value == x.data)
  }

  ghost predicate NotWritten(log: seq<Msg>, j: nat, k: nat, y: Request)
    requires k <= |log|
  {
    forall i | j < i < k :: !Writes(log[i].req, y.slave, y.offset)
  }

  // A read of memory returns the data of the CPU's own last write to the word, unless another
  // transaction wrote the word in between.
  lemma ReadSeesOwnWrite(a: Sys, steps: seq<Step>, w: nat, k: nat)
    requires Init(a) && Legal(a, steps)
    requires ReadAfterWrite(After(a, steps).cfg, After(a, steps).cpus, After(a, steps).log, w, k)
    ensures var b := After(a, steps);
      Sees(b.log, b.cpus[b.log[k].req.src].issued[w], k, k)
  {
    InitIsOk(a);
    RunKeepsOk(a, steps);
    var b := After(a, steps);
    var y := b.log[k].req;
    var x := b.cpus[y.src].issued[w];
    assert InOrder(b.cpus, b.log, k) && ValueOk(b.cfg, b.log, k);
    assert Ordered(x, y);
    assert LoggedBefore(b.log, x, k);
    var j :| 0 <= j < k && b.log[j].req == x;
    if NotWritten(b.log, j, k, y) {
      LastWriteStays(b.cfg, b.log, y.slave, y.offset, j, k);
    }
  }

  // ---------- critical sections ----------

  // The w-th transaction of a CPU writes a word of memory and is followed by a release that waits for
  // it; the release is served before a grant to some CPU; that CPU issues transaction k after its
  // grant and reads the word.
  ghost predicate ReadInNextSection(cfg: Config, cpus: seq<Cpu>, log: seq<Msg>, w: nat, release: nat, grant: nat,
                                    k: nat) {
    && release < grant < |log| && k < |log|
    && var rel, acq, y := log[release].req, log[grant].req, log[k].req;
       && !acq.posted && acq.src == y.src && acq.tag < y.tag && !y.write
       && y.slave < |cfg.kinds| && cfg.kinds[y.slave].Memory?
       && rel.src < |cpus| && w < |cpus[rel.src].issued| && w < rel.tag
       && Strong(cpus[rel.src].issued[w], rel) && Writes(cpus[rel.src].issued[w], y.slave, y.offset)
  }

  // What a CPU wrote before its release is seen by the reads of the CPU that is granted the lock
  // next.
  lemma CriticalSectionIsSeen(a: Sys, steps: seq<Step>, w: nat, release: nat, grant: nat, k: nat)
    requires Init(a) && Legal(a, steps)
    requires var b := After(a, steps);
      ReadInNextSection(b.cfg, b.cpus, b.log, w, release, grant, k)
    ensures var b := After(a, steps);
      release < grant < k && Sees(b.log, b.cpus[b.log[release].req.src].issued[w], release, k)
  {
    InitIsOk(a);
    RunKeepsOk(a, steps);
    var b := After(a, steps);
    var rel, acq, y := b.log[release].req, b.log[grant].req, b.log[k].req;
    var x := b.cpus[rel.src].issued[w];
    assert InOrder(b.cpus, b.log, release) && LoggedBefore(b.log, x, release);
    var j :| 0 <= j < release && b.log[j].req == x;
    GrantedBefore(b.cfg, b.cpus, b.log, grant, k);
    assert ValueOk(b.cfg, b.log, k);
    if NotWritten(b.log, j, k, y) {
      LastWriteStays(b.cfg, b.log, y.slave, y.offset, j, k);
    }
  }

  lemma GrantedBefore(cfg: Config, cpus: seq<Cpu>, log: seq<Msg>, grant: nat, k: nat)
    requires LogOk(cfg, cpus, log) && grant < |log| && k < |log|
    requires log[grant].req.src == log[k].req.src && log[grant].req.tag < log[k].req.tag
    requires Ordered(log[grant].req, log[k].req)
    ensures grant < k
  {
    assert EntryOk(cfg, cpus, log[grant].req) && EntryOk(cfg, cpus, log[k].req) && InOrder(cpus, log, k);
    assert LoggedBefore(log, log[grant].req, k);
  }
}

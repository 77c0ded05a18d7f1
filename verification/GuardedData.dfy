/**
 Data guarded by a lock: a word of memory that CPUs write only while they hold a semaphore word, which
 they release by a write that waits for the writes before it.  A CPU that reads the word while it
 holds the lock is given the data that was written to it last, by whichever CPU.
 */
module GuardedData {
  import opened Options
  import opened Channels
  import opened ChannelOrder
  import opened ChannelRuns
  import opened MutualExclusion

  datatype Guard = Guard(lock: Word, data: Word)

  ghost predicate GuardOf(cfg: Config, g: Guard) {
    WordOf(cfg, g.lock) && g.data.slave < |cfg.kinds| && cfg.kinds[g.data.slave].Memory?
  }

  // The data is written by a holder, and the release is sent as an I/O write, or blocks.
  ghost predicate Guarded(cfg: Config, cpu: Cpu, r: Request, g: Guard) {
    r.write ==>
      && (Targets(r, g.data) ==> Holds(cpu, g.lock))
      && (Targets(r, g.lock) ==> r.fence || !r.posted)
  }

  ghost predicate GuardedStep(a: Sys, st: Step, g: Guard)
    requires Sized(a) && Enabled(a, st)
  {
    st.Issue? ==> Guarded(a.cfg, a.cpus[st.c], RequestOf(a, st), g)
  }

  // The data of the last write after a request.
  function LastAfter(r: Request, g: Guard, last: nat): nat {
    if r.write && Targets(r, g.data) then r.data else last
  }

  // ---------- writes under way ----------

  predicate Pending(m: Msg, g: Guard) { !m.served && m.req.write && Targets(m.req, g.data) }

  // The data of the youngest write of the word that is not applied yet.
  function LastPending(fl: seq<Msg>, g: Guard): Option<nat> {
    if fl == [] then None
    else if Pending(fl[|fl| - 1], g) then Some(fl[|fl| - 1].req.data)
    else LastPending(fl[..|fl| - 1], g)
  }

  lemma {:induction false} NonePending(fl: seq<Msg>, g: Guard)
    ensures LastPending(fl, g).None? <==> forall i | 0 <= i < |fl| :: !Pending(fl[i], g)
  {
    if fl != [] {
      NonePending(fl[..|fl| - 1], g);
      assert forall i | 0 <= i < |fl| - 1 :: fl[..|fl| - 1][i] == fl[i];
    }
  }

  lemma {:induction false} PendingUpdate(fl: seq<Msg>, i: nat, m: Msg, g: Guard)
    requires i < |fl| && !Pending(m, g) && !Pending(fl[i], g)
    ensures LastPending(fl[i := m], g) == LastPending(fl, g)
  {
    var n := |fl| - 1;
    if i < n {
      assert fl[i := m][..n] == fl[..n][i := m];
      PendingUpdate(fl[..n], i, m, g);
    } else {
      assert fl[i := m][..n] == fl[..n];
    }
  }

  lemma {:induction false} PendingRemove(fl: seq<Msg>, i: nat, g: Guard)
    requires i < |fl| && !Pending(fl[i], g)
    ensures LastPending(fl[..i] + fl[i + 1..], g) == LastPending(fl, g)
  {
    var n := |fl| - 1;
    var fl' := fl[..i] + fl[i + 1..];
    if i < n {
      assert fl'[..n - 1] == fl[..n][..i] + fl[..n][i + 1..];
      PendingRemove(fl[..n], i, g);
    } else {
      assert fl' == fl[..n];
    }
  }

  // The oldest pending write is applied: the youngest one stays, unless it was that one.
  lemma {:induction false} PendingApplied(fl: seq<Msg>, i: nat, m: Msg, g: Guard)
    requires i < |fl| && Pending(fl[i], g) && !Pending(m, g) && forall j | 0 <= j < i :: !Pending(fl[j], g)
    ensures LastPending(fl, g).Some?
    ensures LastPending(fl[i := m], g) == LastPending(fl, g)
            || (LastPending(fl[i := m], g) == None && LastPending(fl, g) == Some(fl[i].req.data))
  {
    var n := |fl| - 1;
    if i < n {
      assert fl[i := m][..n] == fl[..n][i := m];
      PendingApplied(fl[..n], i, m, g);
    } else {
      assert fl[i := m][..n] == fl[..n];
      NonePending(fl[..n], g);
    }
  }

  // ---------- the invariant ----------

  predicate ReadsData(r: Request, g: Guard) { !r.write && Targets(r, g.data) }

  // Only a holder has writes under way, the youngest one being the last of all; and the answer to a
  // holder's read is the data of the last write.
  ghost predicate CpuGuarded(cpu: Cpu, fl: seq<Msg>, g: Guard, last: nat) {
    && (LastPending(fl, g).Some? ==> Holds(cpu, g.lock) && LastPending(fl, g) == Some(last))
    && (cpu.phase.Waiting? && ReadsData(cpu.phase.req, g) && Holds(cpu, g.lock) ==> Answering(cpu, fl, last))
  }

  ghost predicate Answering(cpu: Cpu, fl: seq<Msg>, last: nat) {
    if fl == [] then cpu.pool.busy != [] ==> cpu.pool.busy[0].data == last
    else fl[0].served ==> fl[0].value == last
  }

  ghost predicate Settled(a: Sys, g: Guard)
    requires Sized(a)
  {
    forall c | 0 <= c < |a.flight| :: LastPending(a.flight[c], g).None?
  }

  // Once nothing is under way the memory holds the data of the last write.
  ghost predicate DataOk(a: Sys, g: Guard, last: nat) {
    && Sized(a) && GuardOf(a.cfg, g)
    && (forall c | 0 <= c < |a.cpus| :: CpuGuarded(a.cpus[c], a.flight[c], g, last))
    && (Settled(a, g) ==> Load(a.mems[g.data.slave], g.data.offset) == last)
  }

  lemma InitData(a: Sys, g: Guard)
    requires Init(a) && GuardOf(a.cfg, g)
    ensures DataOk(a, g, 0)
  {
  }

  // No other CPU has a write under way or a read in progress while one CPU holds the lock.
  lemma OthersAreOut(a: Sys, g: Guard, last: nat, c: nat, d: nat)
    requires DataOk(a, g, last) && Locked(a) && c < |a.cpus| && d < |a.cpus| && c != d && Holds(a.cpus[c], g.lock)
    ensures !Holds(a.cpus[d], g.lock) && LastPending(a.flight[d], g).None?
  {
    assert Counted(a, g.lock) && CpuGuarded(a.cpus[d], a.flight[d], g, last);
    OneHolder(a, g.lock, c, d);
  }

  // ---------- steps ----------

  lemma IssuedGuarded(cfg: Config, c: nat, cpu: Cpu, fl: seq<Msg>, r: Request, g: Guard, last: nat)
    requires CpuGuarded(cpu, fl, g, last) && GuardOf(cfg, g) && cpu.pool.free != []
    requires Guarded(cfg, cpu, r, g) && (r.fence || !r.posted ==> fl == []) && (!r.write ==> !r.posted)
    ensures CpuGuarded(CpuIssue(cpu, r), fl + [Msg(r, false, 0)], g, LastAfter(r, g, last))
    ensures !(r.write && Targets(r, g.data)) ==> LastPending(fl + [Msg(r, false, 0)], g) == LastPending(fl, g)
  {
    var fl' := fl + [Msg(r, false, 0)];
    assert fl'[..|fl|] == fl;
    assert Targets(r, g.data) ==> !Targets(r, g.lock);
  }

  lemma IssueKeepsData(a: Sys, st: Step, g: Guard, last: nat)
    requires LocksOk(a) && DataOk(a, g, last) && st.Issue? && Enabled(a, st) && GuardedStep(a, st, g)
    ensures DataOk(Next(a, st), g, LastAfter(RequestOf(a, st), g, last))
  {
    var c, r := st.c, RequestOf(a, st);
    var cpu, fl := a.cpus[c], a.flight[c];
    assert CpuOk(a.cfg, c, cpu, fl, a.log) && CpuGuarded(cpu, fl, g, last);
    IssueAlone(a.cfg, c, cpu, fl, st.write, st.io);
    IssuedGuarded(a.cfg, c, cpu, fl, r, g, last);
    hide CpuGuarded, LastPending, Ok, Locked, CpuOk, Enabled;
    var a' := Next(a, st);
    IssueIs(a, st);
    forall d | 0 <= d < |a'.cpus|
      ensures CpuGuarded(a'.cpus[d], a'.flight[d], g, LastAfter(r, g, last))
    {
      if d != c {
        UntouchedGuarded(a, g, last, c, d, r);
      }
    }
    if r.write && Targets(r, g.data) {
      NewIsPending(fl, r, g);
      assert LastPending(a'.flight[c], g).Some? && !Settled(a', g);
    } else {
      SameSettled(a, a', g, c);
    }
  }

  lemma IssueIs(a: Sys, st: Step)
    requires Sized(a) && st.Issue? && Enabled(a, st)
    ensures var r := RequestOf(a, st);
      Next(a, st) == a.(cpus := a.cpus[st.c := CpuIssue(a.cpus[st.c], r)],
                        flight := a.flight[st.c := a.flight[st.c] + [Msg(r, false, 0)]])
  {
  }

  lemma UntouchedGuarded(a: Sys, g: Guard, last: nat, c: nat, d: nat, r: Request)
    requires DataOk(a, g, last) && Locked(a) && c < |a.cpus| && d < |a.cpus| && c != d
    requires Guarded(a.cfg, a.cpus[c], r, g)
    ensures CpuGuarded(a.cpus[d], a.flight[d], g, LastAfter(r, g, last))
  {
    hide LastPending;
    if r.write && Targets(r, g.data) {
      OthersAreOut(a, g, last, c, d);
    }
  }

  lemma NewIsPending(fl: seq<Msg>, r: Request, g: Guard)
    requires r.write && Targets(r, g.data)
    ensures LastPending(fl + [Msg(r, false, 0)], g).Some?
  {
  }

  // A step that leaves the writes under way.
  lemma SameSettled(a: Sys, a': Sys, g: Guard, c: nat)
    requires Sized(a) && Sized(a') && |a'.flight| == |a.flight| && c < |a.flight|
    requires forall d | 0 <= d < |a.flight| && d != c :: a'.flight[d] == a.flight[d]
    requires LastPending(a'.flight[c], g) == LastPending(a.flight[c], g)
    ensures Settled(a', g) ==> Settled(a, g)
  {
    hide LastPending;
    if Settled(a', g) {
      forall d | 0 <= d < |a.flight|
        ensures LastPending(a.flight[d], g).None?
      {
        assert LastPending(a'.flight[d], g).None?;
      }
    }
  }

  // A slave serves: either the oldest pending write of the word, or something else.
  lemma ApplyKeepsData(a: Sys, c: nat, i: nat, g: Guard, last: nat)
    requires LocksOk(a) && DataOk(a, g, last) && Enabled(a, Serve(c, i)) && Pending(a.flight[c][i], g)
    ensures DataOk(Next(a, Serve(c, i)), g, last)
  {
    var cpu, fl := a.cpus[c], a.flight[c];
    var a' := Next(a, Serve(c, i));
    assert CpuOk(a.cfg, c, cpu, fl, a.log) && CpuGuarded(cpu, fl, g, last);
    WaitingIsAlone(cpu, fl, i);
    AppliedIs(a, c, i, g);
    PendingApplied(fl, i, a'.flight[c][i], g);
    hide LastPending, Next, Ok, Locked, CpuOk, Enabled, Pending, GuardOf;
    forall d | 0 <= d < |a'.cpus|
      ensures CpuGuarded(a'.cpus[d], a'.flight[d], g, last)
    {
      assert d != c ==> CpuGuarded(a.cpus[d], a.flight[d], g, last);
    }
    if Settled(a', g) {
      assert LastPending(a'.flight[c], g).None?;
    }
  }

  lemma AppliedIs(a: Sys, c: nat, i: nat, g: Guard)
    requires Sized(a) && GuardOf(a.cfg, g) && Enabled(a, Serve(c, i)) && Pending(a.flight[c][i], g)
    ensures forall j | 0 <= j < i :: !Pending(a.flight[c][j], g)
    ensures var a' := Next(a, Serve(c, i));
      && Sized(a') && a'.cfg == a.cfg && a'.cpus == a.cpus
      && i < |a'.flight[c]| && !Pending(a'.flight[c][i], g) && a'.flight[c][i].req == a.flight[c][i].req
      && a'.flight == a.flight[c := a.flight[c][i := a'.flight[c][i]]]
      && Load(a'.mems[g.data.slave], g.data.offset) == a.flight[c][i].req.data
  {
  }

  // A CPU that waits has nothing under way but what it waits for.
  lemma WaitingIsAlone(cpu: Cpu, fl: seq<Msg>, i: nat)
    requires PoolOk(cpu, fl) && i < |fl|
    ensures cpu.phase.Waiting? ==> i == 0 && fl == [fl[0]] && fl[0].req == cpu.phase.req
  {
  }

  lemma OtherServeKeepsData(a: Sys, c: nat, i: nat, g: Guard, last: nat)
    requires LocksOk(a) && DataOk(a, g, last) && Enabled(a, Serve(c, i)) && !Pending(a.flight[c][i], g)
    ensures DataOk(Next(a, Serve(c, i)), g, last)
  {
    var cpu, fl := a.cpus[c], a.flight[c];
    var a' := Next(a, Serve(c, i));
    assert CpuOk(a.cfg, c, cpu, fl, a.log) && CpuGuarded(cpu, fl, g, last);
    PendingUpdate(fl, i, a'.flight[c][i], g);
    WaitingIsAlone(cpu, fl, i);
    SameSettled(a, a', g, c);
    DataStays(a, c, i, g);
    forall d | 0 <= d < |a'.cpus|
      ensures CpuGuarded(a'.cpus[d], a'.flight[d], g, last)
    {
      if d != c {
        assert CpuGuarded(a.cpus[d], a.flight[d], g, last);
      } else if cpu.phase.Waiting? && ReadsData(cpu.phase.req, g) && Holds(cpu, g.lock) {
        HolderReads(a, c, g, last);
      }
    }
  }

  lemma DataStays(a: Sys, c: nat, i: nat, g: Guard)
    requires Sized(a) && GuardOf(a.cfg, g) && Enabled(a, Serve(c, i)) && !Pending(a.flight[c][i], g)
    ensures var a' := Next(a, Serve(c, i));
      && Load(a'.mems[g.data.slave], g.data.offset) == Load(a.mems[g.data.slave], g.data.offset)
      && (ReadsData(a.flight[c][i].req, g) ==>
            a'.flight[c][i].value == Load(a.mems[g.data.slave], g.data.offset))
  {
  }

  // While a holder reads, all writes have been applied.
  lemma HolderReads(a: Sys, c: nat, g: Guard, last: nat)
    requires LocksOk(a) && DataOk(a, g, last) && c < |a.cpus| && Holds(a.cpus[c], g.lock)
    requires LastPending(a.flight[c], g).None?
    ensures Load(a.mems[g.data.slave], g.data.offset) == last
  {
    hide LastPending, Ok;
    forall d | 0 <= d < |a.flight|
      ensures LastPending(a.flight[d], g).None?
    {
      if d != c {
        OthersAreOut(a, g, last, c, d);
      }
    }
  }

  lemma ReceiveKeepsData(a: Sys, c: nat, i: nat, g: Guard, last: nat)
    requires Ok(a) && DataOk(a, g, last) && Enabled(a, Receive(c, i))
    ensures DataOk(Next(a, Receive(c, i)), g, last)
  {
    var cpu, fl := a.cpus[c], a.flight[c];
    assert CpuOk(a.cfg, c, cpu, fl, a.log) && CpuGuarded(cpu, fl, g, last);
    ReceiveKeepsPool(c, cpu, fl, i);
    PendingRemove(fl, i, g);
    var cpu' := CpuReceive(cpu, fl[i]);
    hide LastPending, PoolOk, CpuReceive, Ok, CpuOk, Pending, GuardOf;
    ReceiveIs(a, c, i, cpu');
    var a' := Next(a, Receive(c, i));
    SameSettled(a, a', g, c);
    forall d | 0 <= d < |a'.cpus|
      ensures CpuGuarded(a'.cpus[d], a'.flight[d], g, last)
    {
      assert CpuGuarded(a.cpus[d], a.flight[d], g, last);
    }
  }

  lemma ResumeKeepsData(a: Sys, c: nat, g: Guard, last: nat)
    requires Ok(a) && DataOk(a, g, last) && Enabled(a, Resume(c))
    ensures DataOk(Next(a, Resume(c)), g, last)
  {
    var cpu, fl := a.cpus[c], a.flight[c];
    assert CpuGuarded(cpu, fl, g, last);
    var cpu' := CpuResume(a.cfg, cpu);
    assert cpu'.phase.Ready? && cpu.held <= cpu'.held;
    hide LastPending, CpuResume, Ok;
    ResumeIs(a, c, cpu');
    var a' := Next(a, Resume(c));
    forall d | 0 <= d < |a'.cpus|
      ensures CpuGuarded(a'.cpus[d], a'.flight[d], g, last)
    {
      assert CpuGuarded(a.cpus[d], a.flight[d], g, last);
    }
    SameSettled(a, a', g, c);
  }

  function LastOf(a: Sys, st: Step, g: Guard, last: nat): nat
    requires st.Issue? ==> st.c < |a.cpus| && st.c < |a.cfg.maps|
                           && CanIssue(a.cfg, st.c, a.cpus[st.c], st.addr, st.write, st.io)
  {
    if st.Issue? then LastAfter(RequestOf(a, st), g, last) else last
  }

  lemma StepKeepsData(a: Sys, st: Step, g: Guard, last: nat)
    requires LocksOk(a) && DataOk(a, g, last) && Enabled(a, st) && GuardedStep(a, st, g)
    ensures DataOk(Next(a, st), g, LastOf(a, st, g, last))
  {
    match st
    case Issue(_, _, _, _, _) => IssueKeepsData(a, st, g, last);
    case Serve(c, i) =>
      if Pending(a.flight[c][i], g) {
        ApplyKeepsData(a, c, i, g, last);
      } else {
        OtherServeKeepsData(a, c, i, g, last);
      }
    case Receive(c, i) => ReceiveKeepsData(a, c, i, g, last);
    case Resume(c) => ResumeKeepsData(a, c, g, last);
  }

  // The answer that a holder goes on with.
  lemma HolderIsAnswered(a: Sys, c: nat, g: Guard, last: nat)
    requires Ok(a) && DataOk(a, g, last) && c < |a.cpus| && CanResume(a.cpus[c])
    requires ReadsData(a.cpus[c].phase.req, g) && Holds(a.cpus[c], g.lock)
    ensures CpuResume(a.cfg, a.cpus[c]).returned == a.cpus[c].returned + [Msg(a.cpus[c].phase.req, true, last)]
  {
    var cpu, fl := a.cpus[c], a.flight[c];
    assert CpuOk(a.cfg, c, cpu, fl, a.log) && CpuGuarded(cpu, fl, g, last);
    ResumeKeepsPool(a.cfg, cpu, fl);
  }
}

/**
 Locks over the network: CPUs that acquire a semaphore word by reading it as 0 and release it by
 writing 0 never hold it together, whatever the network does with their transactions.
 */
module MutualExclusion {
  import opened PoolModel
  import opened Channels
  import opened ChannelOrder
  import opened ChannelRuns

  // A word of a semaphore slave.
  datatype Word = Word(slave: nat, offset: nat)

  predicate Targets(r: Request, w: Word) { r.slave == w.slave && r.offset == w.offset }

  // A response on its way that grants the lock, or a release that is not applied yet.
  predicate Token(m: Msg, w: Word) {
    Targets(m.req, w) && if m.served then !m.req.write && m.value == 0 else m.req.write
  }

  function TokensUnderWay(fl: seq<Msg>, w: Word): nat {
    if fl == [] then 0
    else TokensUnderWay(fl[..|fl| - 1], w) + if Token(fl[|fl| - 1], w) then 1 else 0
  }

  // The answer that grants the lock has arrived and the CPU has not gone on yet.
  predicate GrantArrived(cpu: Cpu, w: Word) {
    cpu.phase.Waiting? && Targets(cpu.phase.req, w) && !cpu.phase.req.write &&
    var i := Find(cpu.pool.busy, cpu.phase.req.tid);
    i < |cpu.pool.busy| && cpu.pool.busy[i].done && cpu.pool.busy[i].data == 0
  }

  predicate Holds(cpu: Cpu, w: Word) { (w.slave, w.offset) in cpu.held }

  function Tokens(cpu: Cpu, fl: seq<Msg>, w: Word): nat {
    (if Holds(cpu, w) then 1 else 0) + (if GrantArrived(cpu, w) then 1 else 0) + TokensUnderWay(fl, w)
  }

  function AllTokens(cpus: seq<Cpu>, flight: seq<seq<Msg>>, w: Word): nat
    requires |cpus| == |flight|
  {
    if cpus == [] then 0
    else AllTokens(cpus[..|cpus| - 1], flight[..|cpus| - 1], w)
         + Tokens(cpus[|cpus| - 1], flight[|cpus| - 1], w)
  }

  // The lock discipline: nothing but 0 is written to a semaphore, and only by a holder.
  ghost predicate Disciplined(a: Sys, st: Step)
    requires Sized(a) && Enabled(a, st)
  {
    st.Issue? && st.write ==>
      var r := RequestOf(a, st);
      a.cfg.kinds[r.slave].Semaphore? ==> r.data == 0 && Holds(a.cpus[st.c], Word(r.slave, r.offset))
  }

  ghost predicate WordOf(cfg: Config, w: Word) {
    w.slave < |cfg.kinds| && cfg.kinds[w.slave].Semaphore?
  }

  // Exactly one token exists for a word that is taken and none for a word that is free; and no
  // write but 0 is on its way to a semaphore.
  ghost predicate Locked(a: Sys)
    requires Sized(a)
  {
    && (forall w | WordOf(a.cfg, w) :: Counted(a, w))
    && (forall c | 0 <= c < |a.flight| :: CleanWrites(a.cfg, a.flight[c]))
  }

  ghost predicate Counted(a: Sys, w: Word)
    requires Sized(a) && WordOf(a.cfg, w)
  {
    AllTokens(a.cpus, a.flight, w) == if Load(a.mems[w.slave], w.offset) == 0 then 0 else 1
  }

  ghost predicate CleanWrites(cfg: Config, fl: seq<Msg>) {
    forall m | m in fl :: CleanWrite(cfg, m.req)
  }

  ghost predicate LocksOk(a: Sys) { Ok(a) && Locked(a) }

  predicate CleanWrite(cfg: Config, r: Request) {
    r.write && r.slave < |cfg.kinds| && cfg.kinds[r.slave].Semaphore? ==> r.data == 0
  }

  // ---------- counting ----------

  lemma {:induction false} UnderWayUpdate(fl: seq<Msg>, i: nat, m: Msg, w: Word)
    requires i < |fl|
    ensures TokensUnderWay(fl[i := m], w) + (if Token(fl[i], w) then 1 else 0)
            == TokensUnderWay(fl, w) + (if Token(m, w) then 1 else 0)
  {
    var n := |fl| - 1;
    if i < n {
      assert fl[i := m][..n] == fl[..n][i := m];
      UnderWayUpdate(fl[..n], i, m, w);
    } else {
      assert fl[i := m][..n] == fl[..n];
    }
  }

  lemma {:induction false} UnderWayRemove(fl: seq<Msg>, i: nat, w: Word)
    requires i < |fl|
    ensures TokensUnderWay(fl[..i] + fl[i + 1..], w) + (if Token(fl[i], w) then 1 else 0) == TokensUnderWay(fl, w)
  {
    var n := |fl| - 1;
    var fl' := fl[..i] + fl[i + 1..];
    if i < n {
      assert fl'[..n - 1] == fl[..n][..i] + fl[..n][i + 1..];
      UnderWayRemove(fl[..n], i, w);
    } else {
      assert fl' == fl[..n];
    }
  }

  lemma {:induction false} UnderWayHas(fl: seq<Msg>, i: nat, w: Word)
    requires i < |fl| && Token(fl[i], w)
    ensures TokensUnderWay(fl, w) >= 1
  {
    if i < |fl| - 1 {
      UnderWayHas(fl[..|fl| - 1], i, w);
    }
  }

  // Changing one CPU changes the total by the change of that CPU.
  lemma {:induction false} AllTokensUpdate(cpus: seq<Cpu>, flight: seq<seq<Msg>>, c: nat, cpu: Cpu, fl: seq<Msg>,
                                           w: Word)
    requires |cpus| == |flight| && c < |cpus|
    ensures AllTokens(cpus[c := cpu], flight[c := fl], w) + Tokens(cpus[c], flight[c], w)
            == AllTokens(cpus, flight, w) + Tokens(cpu, fl, w)
  {
    var n := |cpus| - 1;
    if c < n {
      assert cpus[c := cpu][..n] == cpus[..n][c := cpu] && flight[c := fl][..n] == flight[..n][c := fl];
      AllTokensUpdate(cpus[..n], flight[..n], c, cpu, fl, w);
    } else {
      assert cpus[c := cpu][..n] == cpus[..n] && flight[c := fl][..n] == flight[..n];
    }
  }

  lemma {:induction false} AllTokensHas(cpus: seq<Cpu>, flight: seq<seq<Msg>>, c: nat, w: Word)
    requires |cpus| == |flight| && c < |cpus|
    ensures AllTokens(cpus, flight, w) >= Tokens(cpus[c], flight[c], w)
  {
    if c < |cpus| - 1 {
      AllTokensHas(cpus[..|cpus| - 1], flight[..|cpus| - 1], c, w);
    }
  }

  lemma {:induction false} AllTokensHasTwo(cpus: seq<Cpu>, flight: seq<seq<Msg>>, c: nat, d: nat, w: Word)
    requires |cpus| == |flight| && c < d < |cpus|
    ensures AllTokens(cpus, flight, w) >= Tokens(cpus[c], flight[c], w) + Tokens(cpus[d], flight[d], w)
  {
    var n := |cpus| - 1;
    if d < n {
      AllTokensHasTwo(cpus[..n], flight[..n], c, d, w);
    } else {
      AllTokensHas(cpus[..n], flight[..n], c, w);
    }
  }

  lemma OneHolder(a: Sys, w: Word, c: nat, d: nat)
    requires Sized(a) && WordOf(a.cfg, w) && Counted(a, w) && c < |a.cpus| && d < |a.cpus| && c != d
    requires Holds(a.cpus[c], w)
    ensures !Holds(a.cpus[d], w) && Load(a.mems[w.slave], w.offset) != 0
  {
    AllTokensHas(a.cpus, a.flight, c, w);
    AllTokensHasTwo(a.cpus, a.flight, if c < d then c else d, if c < d then d else c, w);
  }

  // ---------- steps ----------

  lemma {:induction false} NoTokens(cpus: seq<Cpu>, flight: seq<seq<Msg>>, w: Word)
    requires |cpus| == |flight| && forall c | 0 <= c < |cpus| :: Tokens(cpus[c], flight[c], w) == 0
    ensures AllTokens(cpus, flight, w) == 0
  {
    if cpus != [] {
      NoTokens(cpus[..|cpus| - 1], flight[..|cpus| - 1], w);
    }
  }

  lemma InitLocks(a: Sys)
    requires Init(a)
    ensures LocksOk(a)
  {
    InitIsOk(a);
    forall w | WordOf(a.cfg, w)
      ensures Counted(a, w)
    {
      forall c | 0 <= c < |a.cpus|
        ensures Tokens(a.cpus[c], a.flight[c], w) == 0
      {
        assert a.flight[c] == [] && a.cpus[c].held == {};
      }
      NoTokens(a.cpus, a.flight, w);
    }
  }

  // A step of one CPU that keeps its tokens.
  lemma OneCpuKeepsLocked(a: Sys, c: nat, cpu: Cpu, fl: seq<Msg>)
    requires Sized(a) && Locked(a) && c < |a.cpus| && CleanWrites(a.cfg, fl)
    requires forall w | WordOf(a.cfg, w) :: Tokens(cpu, fl, w) == Tokens(a.cpus[c], a.flight[c], w)
    ensures Locked(a.(cpus := a.cpus[c := cpu], flight := a.flight[c := fl]))
  {
    var a' := a.(cpus := a.cpus[c := cpu], flight := a.flight[c := fl]);
    forall w | WordOf(a.cfg, w)
      ensures Counted(a', w)
    {
      assert Counted(a, w);
      AllTokensUpdate(a.cpus, a.flight, c, cpu, fl, w);
    }
  }

  // A CPU that issues trades its hold for the release that is under way.
  lemma IssueTokens(cfg: Config, cpu: Cpu, fl: seq<Msg>, r: Request, w: Word)
    requires cpu.phase.Ready? && cpu.pool.free != [] && r.tid == cpu.pool.free[0]
    requires r.write && Targets(r, w) ==> Holds(cpu, w)
    ensures Tokens(CpuIssue(cpu, r), fl + [Msg(r, false, 0)], w) == Tokens(cpu, fl, w)
  {
    var fl' := fl + [Msg(r, false, 0)];
    assert fl'[..|fl|] == fl;
    assert CpuIssue(cpu, r).pool.busy[0] == Entry(r.tid, r.write, false, NO_DATA);
    assert !GrantArrived(CpuIssue(cpu, r), w);
    assert Targets(r, w) ==> w == Word(r.slave, r.offset);
  }

  lemma IssueKeepsLocked(a: Sys, st: Step)
    requires Sized(a) && Locked(a) && st.Issue? && Enabled(a, st) && Disciplined(a, st)
    ensures Locked(Next(a, st))
  {
    var r := RequestOf(a, st);
    var cpu, fl := a.cpus[st.c], a.flight[st.c];
    forall w | WordOf(a.cfg, w)
      ensures Tokens(CpuIssue(cpu, r), fl + [Msg(r, false, 0)], w) == Tokens(cpu, fl, w)
    {
      assert Targets(r, w) ==> w == Word(r.slave, r.offset);
      IssueTokens(a.cfg, cpu, fl, r, w);
    }
    OneCpuKeepsLocked(a, st.c, CpuIssue(cpu, r), fl + [Msg(r, false, 0)]);
  }

  // A semaphore that serves: a free word becomes taken as one token appears, a release frees the
  // word as its token disappears.
  lemma ServeTokens(a: Sys, c: nat, i: nat, w: Word)
    requires Sized(a) && Locked(a) && Enabled(a, Serve(c, i)) && WordOf(a.cfg, w)
    ensures Counted(Next(a, Serve(c, i)), w)
  {
    var a' := Next(a, Serve(c, i));
    var m, m' := a.flight[c][i], a'.flight[c][i];
    assert Counted(a, w);
    UnderWayUpdate(a.flight[c], i, m', w);
    AllTokensUpdate(a.cpus, a.flight, c, a.cpus[c], a'.flight[c], w);
    assert a.cpus[c := a.cpus[c]] == a.cpus;
    assert CleanWrites(a.cfg, a.flight[c]);
    if Targets(m.req, w) && m.req.write {
      assert CleanWrite(a.cfg, m.req);
      UnderWayHas(a.flight[c], i, w);
      AllTokensHas(a.cpus, a.flight, c, w);
    }
  }

  lemma ServeKeepsLocked(a: Sys, c: nat, i: nat)
    requires Sized(a) && Locked(a) && Enabled(a, Serve(c, i))
    ensures Locked(Next(a, Serve(c, i)))
  {
    forall w | WordOf(a.cfg, w)
      ensures Counted(Next(a, Serve(c, i)), w)
    {
      ServeTokens(a, c, i, w);
    }
    assert CleanWrites(a.cfg, a.flight[c]);
    assert CleanWrite(a.cfg, a.flight[c][i].req);
  }

  // A response that arrives keeps its token.
  lemma ReceiveTokens(c: nat, cpu: Cpu, fl: seq<Msg>, i: nat, w: Word)
    requires PoolOk(cpu, fl) && i < |fl| && IssuedBy(c, cpu, fl[i].req) && fl[i].served
    ensures Tokens(CpuReceive(cpu, fl[i]), fl[..i] + fl[i + 1..], w) == Tokens(cpu, fl, w)
  {
    UnderWayRemove(fl, i, w);
    ArrivedTokens(c, cpu, fl, i, w);
  }

  lemma ArrivedTokens(c: nat, cpu: Cpu, fl: seq<Msg>, i: nat, w: Word)
    requires PoolOk(cpu, fl) && i < |fl| && IssuedBy(c, cpu, fl[i].req) && fl[i].served
    ensures !GrantArrived(cpu, w)
    ensures GrantArrived(CpuReceive(cpu, fl[i]), w) <==> Token(fl[i], w)
  {
    NotDoneYet(cpu, fl);
    ReceiveFinds(cpu, fl, i);
    ReceiveKeepsPool(c, cpu, fl, i);
    if cpu.phase.Waiting? {
      var cpu' := CpuReceive(cpu, fl[i]);
      assert Find(cpu'.pool.busy, fl[i].req.tid) == 0;
    }
  }

  lemma ReceiveKeepsLocked(a: Sys, c: nat, i: nat)
    requires Sized(a) && Locked(a) && Enabled(a, Receive(c, i))
    requires PoolOk(a.cpus[c], a.flight[c]) && IssuedBy(c, a.cpus[c], a.flight[c][i].req)
    ensures Locked(Next(a, Receive(c, i)))
  {
    var cpu, fl := a.cpus[c], a.flight[c];
    var fl' := fl[..i] + fl[i + 1..];
    forall w | WordOf(a.cfg, w)
      ensures Tokens(CpuReceive(cpu, fl[i]), fl', w) == Tokens(cpu, fl, w)
    {
      ReceiveTokens(c, cpu, fl, i, w);
    }
    assert CleanWrites(a.cfg, fl);
    assert forall m | m in fl' :: m in fl;
    ReceiveIs(a, c, i, CpuReceive(cpu, fl[i]));
    OneCpuKeepsLocked(a, c, CpuReceive(cpu, fl[i]), fl');
  }

  // The CPU that goes on with a grant becomes a holder; it was not one, for the word was free.
  lemma ResumeTokens(cfg: Config, cpu: Cpu, fl: seq<Msg>, w: Word)
    requires PoolOk(cpu, fl) && CanResume(cpu) && WordOf(cfg, w) && Tokens(cpu, fl, w) <= 1
    ensures Tokens(CpuResume(cfg, cpu), fl, w) == Tokens(cpu, fl, w)
  {
    ResumeKeepsPool(cfg, cpu, fl);
    var cpu' := CpuResume(cfg, cpu);
    var r := cpu.phase.req;
    assert Targets(r, w) <==> w == Word(r.slave, r.offset);
    assert !GrantArrived(cpu', w);
    assert Grants(cfg, Msg(r, true, cpu.pool.busy[0].data)) && Targets(r, w) <==> GrantArrived(cpu, w);
    assert Holds(cpu', w) <==> Holds(cpu, w) || GrantArrived(cpu, w);
  }

  lemma ResumeKeepsLocked(a: Sys, c: nat)
    requires Sized(a) && Locked(a) && Enabled(a, Resume(c)) && PoolOk(a.cpus[c], a.flight[c])
    ensures Locked(Next(a, Resume(c)))
  {
    var cpu, fl := a.cpus[c], a.flight[c];
    assert a.flight[c := fl] == a.flight;
    forall w | WordOf(a.cfg, w)
      ensures Tokens(CpuResume(a.cfg, cpu), fl, w) == Tokens(cpu, fl, w)
    {
      assert Counted(a, w);
      AllTokensHas(a.cpus, a.flight, c, w);
      ResumeTokens(a.cfg, cpu, fl, w);
    }
    OneCpuKeepsLocked(a, c, CpuResume(a.cfg, cpu), fl);
  }

  lemma StepKeepsLocks(a: Sys, st: Step)
    requires LocksOk(a) && Enabled(a, st) && Disciplined(a, st)
    ensures LocksOk(Next(a, st))
  {
    StepKeepsOk(a, st);
    assert st.c < |a.cpus| && CpuOk(a.cfg, st.c, a.cpus[st.c], a.flight[st.c], a.log);
    match st
    case Issue(_, _, _, _, _) => IssueKeepsLocked(a, st);
    case Serve(c, i) => ServeKeepsLocked(a, c, i);
    case Receive(c, i) => ReceiveKeepsLocked(a, c, i);
    case Resume(c) => ResumeKeepsLocked(a, c);
  }

  // ---------- runs ----------

  ghost predicate DisciplinedRun(a: Sys, steps: seq<Step>)
    requires Legal(a, steps)
    decreases |steps|
  {
    steps == [] || (Disciplined(a, steps[0]) && DisciplinedRun(Next(a, steps[0]), steps[1..]))
  }

  lemma {:induction false} RunKeepsLocks(a: Sys, steps: seq<Step>)
    requires LocksOk(a) && Legal(a, steps) && DisciplinedRun(a, steps)
    ensures LocksOk(After(a, steps))
    decreases |steps|
  {
    if steps != [] {
      StepKeepsLocks(a, steps[0]);
      RunKeepsLocks(Next(a, steps[0]), steps[1..]);
    }
  }

  // In every reachable state the holders, the granting responses and the releases under way of a
  // semaphore word are together one if the word is not zero and none otherwise.
  lemma TokensCount(a: Sys, steps: seq<Step>, w: Word)
    requires Init(a) && Legal(a, steps) && DisciplinedRun(a, steps) && WordOf(After(a, steps).cfg, w)
    ensures var b := After(a, steps);
      Sized(b) && AllTokens(b.cpus, b.flight, w) == if Load(b.mems[w.slave], w.offset) == 0 then 0 else 1
  {
    InitLocks(a);
    RunKeepsLocks(a, steps);
    assert Counted(After(a, steps), w);
  }

  // Two CPUs are never inside together; and while one is, the word is taken and no release or
  // grant of it is on its way.
  lemma NeverTwoHolders(a: Sys, steps: seq<Step>, w: Word, c: nat, d: nat)
    requires Init(a) && Legal(a, steps) && DisciplinedRun(a, steps) && WordOf(After(a, steps).cfg, w)
    requires c < |After(a, steps).cpus| && d < |After(a, steps).cpus|
    requires Holds(After(a, steps).cpus[c], w)
    ensures c != d ==> !Holds(After(a, steps).cpus[d], w)
    ensures var b := After(a, steps);
      Sized(b) && Load(b.mems[w.slave], w.offset) != 0 && TokensUnderWay(b.flight[d], w) == 0
  {
    TokensCount(a, steps, w);
    var b := After(a, steps);
    AllTokensHas(b.cpus, b.flight, c, w);
    if c < d {
      AllTokensHasTwo(b.cpus, b.flight, c, d, w);
    } else if d < c {
      AllTokensHasTwo(b.cpus, b.flight, d, c, w);
    }
  }
}

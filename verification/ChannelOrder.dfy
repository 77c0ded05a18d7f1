/**
 Exactly once, in order: the invariants of the channel machine that tie the request pool of
 every CPU, its transactions under way and the global order in which slaves serve.
 */
module ChannelOrder {
  import opened PoolModel
  import opened Channels

  // ---------- one CPU ----------

  // The busy list while nothing is done: the transactions under way, newest first.
  function BusyOf(fl: seq<Msg>): (b: seq<Entry>)
    ensures |b| == |fl|
  {
    if fl == [] then []
    else
      var r := fl[|fl| - 1].req;
      [Entry(r.tid, r.write, false, NO_DATA)] + BusyOf(fl[..|fl| - 1])
  }

  lemma {:induction false} BusyOfAt(fl: seq<Msg>, i: nat)
    requires i < |fl|
    ensures BusyOf(fl)[|fl| - 1 - i] == Entry(fl[i].req.tid, fl[i].req.write, false, NO_DATA)
  {
    if i < |fl| - 1 {
      BusyOfAt(fl[..|fl| - 1], i);
    }
  }

  // Only the requests matter.
  lemma {:induction false} BusyOfServed(fl: seq<Msg>, i: nat, m: Msg)
    requires i < |fl| && m.req == fl[i].req
    ensures BusyOf(fl[i := m]) == BusyOf(fl)
  {
    var n := |fl| - 1;
    if i < n {
      BusyOfServed(fl[..n], i, m);
      assert fl[i := m][..n] == fl[..n][i := m];
    } else {
      assert fl[i := m][..n] == fl[..n];
    }
  }

  lemma WithoutCons(e: Entry, b: seq<Entry>, k: nat)
    requires k < |b|
    ensures Without([e] + b, k + 1) == [e] + Without(b, k)
  {
  }

  lemma {:induction false} BusyOfWithout(fl: seq<Msg>, i: nat)
    requires i < |fl|
    ensures BusyOf(fl[..i] + fl[i + 1..]) == Without(BusyOf(fl), |fl| - 1 - i)
  {
    var n := |fl| - 1;
    var fl' := fl[..i] + fl[i + 1..];
    if i < n {
      BusyOfWithout(fl[..n], i);
      assert fl'[..n - 1] == fl[..n][..i] + fl[..n][i + 1..];
      WithoutCons(BusyOf(fl)[0], BusyOf(fl[..n]), n - 1 - i);
    } else {
      assert fl' == fl[..n];
    }
  }

  ghost predicate IssuedBy(c: nat, cpu: Cpu, r: Request) {
    && r.src == c && r.tag < |cpu.issued| && cpu.issued[r.tag] == r
    && r.posted == (r.write && cpu.unblocking)
  }

  ghost predicate FlightOk(cfg: Config, c: nat, cpu: Cpu, fl: seq<Msg>) {
    && (forall i | 0 <= i < |fl| :: IssuedBy(c, cpu, fl[i].req) && Routed(cfg, fl[i].req))
    && (forall i, j | 0 <= i < j < |fl| :: fl[i].req.tag < fl[j].req.tag)
    && (forall i, j | 0 <= i < j < |fl| && fl[i].req.slave == fl[j].req.slave && fl[j].served :: fl[i].served)
    && (forall i | 0 <= i < |fl| && fl[i].req.fence :: i == 0)
  }

  // The pool knows exactly the transactions under way, each by its own tid; a CPU that waits has
  // one request, under way or answered.
  ghost predicate PoolOk(cpu: Cpu, fl: seq<Msg>) {
    && Sound(cpu.pool)
    && match cpu.phase
       case Ready => cpu.pool.busy == BusyOf(fl) && forall i | 0 <= i < |fl| :: fl[i].req.posted
       case Waiting(r) =>
         && !r.posted
         && ((|fl| == 1 && fl[0].req == r && cpu.pool.busy == BusyOf(fl)) || (fl == [] && Answered(cpu, r)))
  }

  ghost predicate Answered(cpu: Cpu, r: Request) {
    && |cpu.pool.busy| == 1
    && cpu.pool.busy[0].tid == r.tid && cpu.pool.busy[0].write == r.write && cpu.pool.busy[0].done
  }

  ghost predicate Logged(log: seq<Msg>, r: Request) {
    exists k :: 0 <= k < |log| && log[k].req == r
  }

  ghost predicate Unserved(fl: seq<Msg>, r: Request) {
    exists i :: 0 <= i < |fl| && fl[i].req == r && !fl[i].served
  }

  // x, issued before y by the same CPU, must be served before y: the CPU waited for the answer
  // of x, or for everything before y, or both go to one slave.
  predicate Strong(x: Request, y: Request) { !x.posted || y.fence }

  predicate Ordered(x: Request, y: Request) { Strong(x, y) || x.slave == y.slave }

  ghost predicate HistoryOk(c: nat, cpu: Cpu, fl: seq<Msg>, log: seq<Msg>) {
    && (forall n | 0 <= n < |cpu.issued| :: IssuedBy(c, cpu, cpu.issued[n]) && cpu.issued[n].tag == n)
    && (forall n | 0 <= n < |cpu.issued| :: Logged(log, cpu.issued[n]) || Unserved(fl, cpu.issued[n]))
    && (forall i | 0 <= i < |fl| && !fl[i].served :: !Logged(log, fl[i].req))
    && (forall i | 0 <= i < |fl| && fl[i].served :: fl[i] in log)
    && (forall i, n | 0 <= i < |fl| && !fl[i].served && 0 <= n < |cpu.issued| && n < fl[i].req.tag
            && Strong(cpu.issued[n], fl[i].req) ::
          Logged(log, cpu.issued[n]))
    && (forall m | m in cpu.returned :: m in log)
    && (cpu.phase.Waiting? && fl == [] && cpu.pool.busy != [] ==>
          Msg(cpu.phase.req, true, cpu.pool.busy[0].data) in log)
  }

  ghost predicate CpuOk(cfg: Config, c: nat, cpu: Cpu, fl: seq<Msg>, log: seq<Msg>) {
    FlightOk(cfg, c, cpu, fl) && PoolOk(cpu, fl) && HistoryOk(c, cpu, fl, log)
  }

  // ---------- steps of one CPU ----------

  // A new request is the only one of its CPU whenever the CPU waits for it or has waited for the
  // others.
  lemma IssueAlone(cfg: Config, c: nat, cpu: Cpu, fl: seq<Msg>, write: bool, io: bool)
    requires FlightOk(cfg, c, cpu, fl) && PoolOk(cpu, fl) && cpu.phase.Ready?
    requires Fenced(cpu, write, io) ==> cpu.pool.busy == []
    ensures Fenced(cpu, write, io) || !(write && cpu.unblocking) ==> fl == []
  {
    assert fl != [] ==> IssuedBy(c, cpu, fl[0].req) && fl[0].req.posted;
  }

  lemma IssueKeepsFlight(cfg: Config, c: nat, cpu: Cpu, fl: seq<Msg>, r: Request, write: bool, io: bool)
    requires FlightOk(cfg, c, cpu, fl) && cpu.pool.free != []
    requires Routed(cfg, r) && r == NewRequest(c, cpu, r.addr, r.slave, r.offset, write, r.data, io)
    requires r.fence ==> fl == []
    ensures FlightOk(cfg, c, CpuIssue(cpu, r), fl + [Msg(r, false, 0)])
  {
    var cpu', fl' := CpuIssue(cpu, r), fl + [Msg(r, false, 0)];
    forall i | 0 <= i < |fl'|
      ensures IssuedBy(c, cpu', fl'[i].req) && Routed(cfg, fl'[i].req)
    {
      assert i < |fl| ==> IssuedBy(c, cpu, fl[i].req);
    }
  }

  lemma IssueKeepsPool(c: nat, cpu: Cpu, fl: seq<Msg>, r: Request, write: bool, io: bool)
    requires PoolOk(cpu, fl) && cpu.phase.Ready? && cpu.pool.free != []
    requires r == NewRequest(c, cpu, r.addr, r.slave, r.offset, write, r.data, io)
    requires !r.posted ==> fl == []
    ensures PoolOk(CpuIssue(cpu, r), fl + [Msg(r, false, 0)])
  {
    var fl' := fl + [Msg(r, false, 0)];
    GetNewKeepsSound(cpu.pool, write);
    assert fl'[..|fl'| - 1] == fl;
    assert BusyOf(fl') == GetNew(cpu.pool, write).busy;
    if r.posted {
      ReadyPoolOk(CpuIssue(cpu, r), fl');
    }
  }

  lemma LoggedUnder(cpu: Cpu, fl: seq<Msg>, log: seq<Msg>, c: nat, n: nat)
    requires HistoryOk(c, cpu, fl, log) && n < |cpu.issued| && !Unserved(fl, cpu.issued[n])
    ensures Logged(log, cpu.issued[n])
  {
  }

  lemma IssueKeepsHistory(cfg: Config, c: nat, cpu: Cpu, fl: seq<Msg>, log: seq<Msg>, r: Request, write: bool, io: bool)
    requires CpuOk(cfg, c, cpu, fl, log) && cpu.phase.Ready? && cpu.pool.free != []
    requires Fenced(cpu, write, io) ==> cpu.pool.busy == []
    requires r == NewRequest(c, cpu, r.addr, r.slave, r.offset, write, r.data, io)
    requires !Logged(log, r)
    ensures HistoryOk(c, CpuIssue(cpu, r), fl + [Msg(r, false, 0)], log)
  {
    var cpu', fl' := CpuIssue(cpu, r), fl + [Msg(r, false, 0)];
    IssueAlone(cfg, c, cpu, fl, write, io);
    assert fl'[|fl|].req == r;
    forall n | 0 <= n < |cpu'.issued|
      ensures IssuedBy(c, cpu', cpu'.issued[n]) && cpu'.issued[n].tag == n
      ensures Logged(log, cpu'.issued[n]) || Unserved(fl', cpu'.issued[n])
    {
      if n < |cpu.issued| {
        assert IssuedBy(c, cpu, cpu.issued[n]);
        if Unserved(fl, cpu.issued[n]) {
          var i :| 0 <= i < |fl| && fl[i].req == cpu.issued[n] && !fl[i].served;
          assert fl'[i] == fl[i];
        }
      }
    }
    forall i, n | 0 <= i < |fl'| && !fl'[i].served && 0 <= n < |cpu'.issued| && n < fl'[i].req.tag
                 && Strong(cpu'.issued[n], fl'[i].req)
      ensures Logged(log, cpu'.issued[n])
    {
      if i == |fl| {
        assert !Unserved(fl, cpu.issued[n]);
        LoggedUnder(cpu, fl, log, c, n);
      } else {
        assert IssuedBy(c, cpu, fl[i].req);
      }
    }
  }

  lemma IssueKeepsCpu(cfg: Config, c: nat, cpu: Cpu, fl: seq<Msg>, log: seq<Msg>, r: Request, write: bool, io: bool)
    requires CpuOk(cfg, c, cpu, fl, log) && cpu.phase.Ready? && cpu.pool.free != []
    requires Fenced(cpu, write, io) ==> cpu.pool.busy == []
    requires Routed(cfg, r) && r == NewRequest(c, cpu, r.addr, r.slave, r.offset, write, r.data, io)
    requires !Logged(log, r)
    ensures CpuOk(cfg, c, CpuIssue(cpu, r), fl + [Msg(r, false, 0)], log)
  {
    IssueAlone(cfg, c, cpu, fl, write, io);
    IssueKeepsFlight(cfg, c, cpu, fl, r, write, io);
    IssueKeepsPool(c, cpu, fl, r, write, io);
    IssueKeepsHistory(cfg, c, cpu, fl, log, r, write, io);
  }

  lemma LoggedGrows(log: seq<Msg>, m: Msg, r: Request)
    ensures Logged(log + [m], r) <==> Logged(log, r) || m.req == r
  {
    if Logged(log, r) {
      var k :| 0 <= k < |log| && log[k].req == r;
      assert (log + [m])[k].req == r;
    }
    if m.req == r {
      assert (log + [m])[|log|].req == r;
    }
  }

  lemma ServeKeepsCpu(cfg: Config, c: nat, cpu: Cpu, fl: seq<Msg>, log: seq<Msg>, i: nat, v: nat)
    requires CpuOk(cfg, c, cpu, fl, log) && i < |fl| && !fl[i].served && FirstUnserved(fl, i)
    ensures var m := Msg(fl[i].req, true, v);
      CpuOk(cfg, c, cpu, fl[i := m], log + [m])
  {
    ServeKeepsFlight(cfg, c, cpu, fl, i, v);
    ServeKeepsHistory(cfg, c, cpu, fl, log, i, v);
  }

  lemma ServeKeepsFlight(cfg: Config, c: nat, cpu: Cpu, fl: seq<Msg>, i: nat, v: nat)
    requires FlightOk(cfg, c, cpu, fl) && PoolOk(cpu, fl) && i < |fl| && !fl[i].served && FirstUnserved(fl, i)
    ensures var fl' := fl[i := Msg(fl[i].req, true, v)];
      FlightOk(cfg, c, cpu, fl') && PoolOk(cpu, fl')
  {
    var m := Msg(fl[i].req, true, v);
    var fl' := fl[i := m];
    BusyOfServed(fl, i, m);
    forall j | 0 <= j < |fl'|
      ensures fl'[j].req == fl[j].req
    {
    }
  }

  lemma ServeKeepsHistory(cfg: Config, c: nat, cpu: Cpu, fl: seq<Msg>, log: seq<Msg>, i: nat, v: nat)
    requires CpuOk(cfg, c, cpu, fl, log) && i < |fl| && !fl[i].served
    ensures var m := Msg(fl[i].req, true, v);
      HistoryOk(c, cpu, fl[i := m], log + [m])
  {
    var m := Msg(fl[i].req, true, v);
    var fl', log' := fl[i := m], log + [m];
    forall n | 0 <= n < |cpu.issued|
      ensures Logged(log', cpu.issued[n]) || Unserved(fl', cpu.issued[n])
    {
      LoggedGrows(log, m, cpu.issued[n]);
      if Unserved(fl, cpu.issued[n]) && m.req != cpu.issued[n] {
        var j :| 0 <= j < |fl| && fl[j].req == cpu.issued[n] && !fl[j].served;
        assert fl'[j] == fl[j];
      }
    }
    forall j | 0 <= j < |fl'| && !fl'[j].served
      ensures !Logged(log', fl'[j].req)
    {
      LoggedGrows(log, m, fl'[j].req);
    }
    forall j, n | 0 <= j < |fl'| && !fl'[j].served && 0 <= n < |cpu.issued| && n < fl'[j].req.tag
                 && Strong(cpu.issued[n], fl'[j].req)
      ensures Logged(log', cpu.issued[n])
    {
      assert fl'[j] == fl[j];
      LoggedGrows(log, m, cpu.issued[n]);
    }
  }

  // A slave that serves another CPU.
  lemma OtherServeKeepsCpu(cfg: Config, c: nat, cpu: Cpu, fl: seq<Msg>, log: seq<Msg>, m: Msg)
    requires CpuOk(cfg, c, cpu, fl, log) && m.req.src != c
    ensures CpuOk(cfg, c, cpu, fl, log + [m])
  {
    forall n | 0 <= n < |cpu.issued|
      ensures Logged(log + [m], cpu.issued[n]) <==> Logged(log, cpu.issued[n])
    {
      LoggedGrows(log, m, cpu.issued[n]);
      assert IssuedBy(c, cpu, cpu.issued[n]);
    }
    forall i | 0 <= i < |fl|
      ensures Logged(log + [m], fl[i].req) <==> Logged(log, fl[i].req)
    {
      LoggedGrows(log, m, fl[i].req);
      assert IssuedBy(c, cpu, fl[i].req);
    }
  }

  // The response finds its own request: the drop branch of rcv_rsp is never taken.
  lemma ReceiveFinds(cpu: Cpu, fl: seq<Msg>, i: nat)
    requires PoolOk(cpu, fl) && i < |fl|
    ensures var k := Find(cpu.pool.busy, fl[i].req.tid);
      && k == |fl| - 1 - i && k < |cpu.pool.busy| == |fl|
      && cpu.pool.busy[k] == Entry(fl[i].req.tid, fl[i].req.write, false, NO_DATA)
  {
    FindsOwn(cpu.pool, fl, i);
  }

  lemma FindsOwn(p: Pool, fl: seq<Msg>, i: nat)
    requires Sound(p) && p.busy == BusyOf(fl) && i < |fl|
    ensures Find(p.busy, fl[i].req.tid) == |fl| - 1 - i
    ensures p.busy[|fl| - 1 - i] == Entry(fl[i].req.tid, fl[i].req.write, false, NO_DATA)
  {
    BusyOfAt(fl, i);
    SoundBusyDistinct(p);
    FindIs(p.busy, |fl| - 1 - i);
  }

  lemma ReceiveKeepsCpu(cfg: Config, c: nat, cpu: Cpu, fl: seq<Msg>, log: seq<Msg>, i: nat)
    requires CpuOk(cfg, c, cpu, fl, log) && i < |fl| && fl[i].served
    ensures CpuOk(cfg, c, CpuReceive(cpu, fl[i]), fl[..i] + fl[i + 1..], log)
  {
    assert IssuedBy(c, cpu, fl[i].req);
    ReceiveKeepsPool(c, cpu, fl, i);
    ReceiveKeepsFlight(cfg, c, cpu, CpuReceive(cpu, fl[i]), fl, i);
    ReceiveKeepsHistory(cfg, c, cpu, CpuReceive(cpu, fl[i]), fl, log, i);
  }

  lemma ReceiveKeepsFlight(cfg: Config, c: nat, cpu: Cpu, cpu': Cpu, fl: seq<Msg>, i: nat)
    requires FlightOk(cfg, c, cpu, fl) && i < |fl| && cpu' == cpu.(pool := cpu'.pool)
    ensures FlightOk(cfg, c, cpu', fl[..i] + fl[i + 1..])
  {
    var fl' := fl[..i] + fl[i + 1..];
    assert forall j | 0 <= j < |fl'| :: fl'[j] == fl[if j < i then j else j + 1];
    forall j | 0 <= j < |fl'|
      ensures IssuedBy(c, cpu', fl'[j].req)
    {
      assert IssuedBy(c, cpu, fl[if j < i then j else j + 1].req);
    }
  }

  lemma ReceiveKeepsHistory(cfg: Config, c: nat, cpu: Cpu, cpu': Cpu, fl: seq<Msg>, log: seq<Msg>, i: nat)
    requires HistoryOk(c, cpu, fl, log) && i < |fl| && fl[i].served && cpu' == cpu.(pool := cpu'.pool)
    requires cpu.phase.Waiting? ==>
      |fl| == 1 && fl[0].req == cpu.phase.req && |cpu'.pool.busy| == 1 && cpu'.pool.busy[0].data == fl[i].value
    ensures HistoryOk(c, cpu', fl[..i] + fl[i + 1..], log)
  {
    var fl' := fl[..i] + fl[i + 1..];
    assert forall j | 0 <= j < |fl'| :: fl'[j] == fl[if j < i then j else j + 1];
    forall n | 0 <= n < |cpu.issued|
      ensures IssuedBy(c, cpu', cpu.issued[n])
      ensures Logged(log, cpu.issued[n]) || Unserved(fl', cpu.issued[n])
    {
      assert IssuedBy(c, cpu, cpu.issued[n]);
      if Unserved(fl, cpu.issued[n]) {
        var j :| 0 <= j < |fl| && fl[j].req == cpu.issued[n] && !fl[j].served;
        assert fl'[if j < i then j else j - 1] == fl[j];
      }
    }
  }

  lemma ReceiveKeepsPool(c: nat, cpu: Cpu, fl: seq<Msg>, i: nat)
    requires PoolOk(cpu, fl) && i < |fl| && IssuedBy(c, cpu, fl[i].req)
    ensures var cpu' := CpuReceive(cpu, fl[i]);
      && PoolOk(cpu', fl[..i] + fl[i + 1..])
      && cpu' == cpu.(pool := cpu'.pool)
      && (cpu.phase.Waiting? ==>
            |fl| == 1 && fl[0].req == cpu.phase.req && |cpu'.pool.busy| == 1 && cpu'.pool.busy[0].data == fl[i].value)
  {
    ReceiveFinds(cpu, fl, i);
    if cpu.phase.Ready? {
      PostedReceiveKeepsPool(cpu, fl, i);
    } else {
      AwaitedReceiveKeepsPool(cpu, fl);
    }
  }

  lemma PostedReceiveKeepsPool(cpu: Cpu, fl: seq<Msg>, i: nat)
    requires PoolOk(cpu, fl) && cpu.phase.Ready? && i < |fl| && cpu.unblocking && fl[i].req.write
    requires Find(cpu.pool.busy, fl[i].req.tid) == |fl| - 1 - i && cpu.pool.busy[|fl| - 1 - i].write
    ensures CpuReceive(cpu, fl[i]) == cpu.(pool := Free(cpu.pool, |fl| - 1 - i))
    ensures PoolOk(CpuReceive(cpu, fl[i]), fl[..i] + fl[i + 1..])
  {
    var k := |fl| - 1 - i;
    ReceivePosted(cpu, fl[i], k);
    FreeKeepsSound(cpu.pool, k);
    RemovedPosted(fl, i);
    ReadyPoolOk(cpu.(pool := Free(cpu.pool, k)), fl[..i] + fl[i + 1..]);
  }

  lemma ReceivePosted(cpu: Cpu, m: Msg, k: nat)
    requires cpu.unblocking && Find(cpu.pool.busy, m.req.tid) == k && k < |cpu.pool.busy| && cpu.pool.busy[k].write
    ensures CpuReceive(cpu, m) == cpu.(pool := Free(cpu.pool, k))
  {
  }

  lemma ReadyPoolOk(cpu: Cpu, fl: seq<Msg>)
    requires Sound(cpu.pool) && cpu.phase.Ready? && cpu.pool.busy == BusyOf(fl)
    requires forall i | 0 <= i < |fl| :: fl[i].req.posted
    ensures PoolOk(cpu, fl)
  {
  }

  lemma RemovedPosted(fl: seq<Msg>, i: nat)
    requires i < |fl| && forall j | 0 <= j < |fl| :: fl[j].req.posted
    ensures var fl' := fl[..i] + fl[i + 1..];
      && BusyOf(fl') == Without(BusyOf(fl), |fl| - 1 - i)
      && forall j | 0 <= j < |fl'| :: fl'[j].req.posted
  {
    BusyOfWithout(fl, i);
    var fl' := fl[..i] + fl[i + 1..];
    assert forall j | 0 <= j < |fl'| :: fl'[j] == fl[if j < i then j else j + 1];
  }

  lemma AwaitedReceiveKeepsPool(cpu: Cpu, fl: seq<Msg>)
    requires PoolOk(cpu, fl) && cpu.phase.Waiting? && |fl| == 1 && !(cpu.unblocking && fl[0].req.write)
    requires Find(cpu.pool.busy, fl[0].req.tid) == 0
    requires cpu.pool.busy[0] == Entry(fl[0].req.tid, fl[0].req.write, false, NO_DATA)
    ensures PoolOk(CpuReceive(cpu, fl[0]), fl[..0] + fl[1..])
    ensures var p := CpuReceive(cpu, fl[0]).pool; |p.busy| == 1 && p.busy[0].data == fl[0].value
  {
    var p' := CpuReceive(cpu, fl[0]).pool;
    assert Tids(p'.busy) == Tids(cpu.pool.busy);
  }

  lemma NotDoneYet(cpu: Cpu, fl: seq<Msg>)
    requires PoolOk(cpu, fl) && fl != []
    ensures !CanResume(cpu)
  {
    ReceiveFinds(cpu, fl, 0);
  }

  lemma ResumeKeepsPool(cfg: Config, cpu: Cpu, fl: seq<Msg>)
    requires PoolOk(cpu, fl) && CanResume(cpu)
    ensures fl == [] && |cpu.pool.busy| == 1 && Find(cpu.pool.busy, cpu.phase.req.tid) == 0
    ensures PoolOk(CpuResume(cfg, cpu), fl) && CpuResume(cfg, cpu).pool.busy == []
  {
    if fl != [] {
      NotDoneYet(cpu, fl);
    }
    FreeKeepsSound(cpu.pool, 0);
  }

  lemma ResumeKeepsHistory(cfg: Config, c: nat, cpu: Cpu, log: seq<Msg>)
    requires HistoryOk(c, cpu, [], log) && CanResume(cpu)
    requires |cpu.pool.busy| == 1 && Find(cpu.pool.busy, cpu.phase.req.tid) == 0
    ensures HistoryOk(c, CpuResume(cfg, cpu), [], log)
  {
    var cpu' := CpuResume(cfg, cpu);
    forall n | 0 <= n < |cpu.issued|
      ensures IssuedBy(c, cpu', cpu.issued[n])
    {
      assert IssuedBy(c, cpu, cpu.issued[n]);
    }
  }

  lemma ResumeKeepsCpu(cfg: Config, c: nat, cpu: Cpu, fl: seq<Msg>, log: seq<Msg>)
    requires CpuOk(cfg, c, cpu, fl, log) && CanResume(cpu)
    ensures CpuOk(cfg, c, CpuResume(cfg, cpu), fl, log)
    ensures fl == [] && CpuResume(cfg, cpu).pool.busy == []
  {
    ResumeKeepsPool(cfg, cpu, fl);
    ResumeKeepsHistory(cfg, c, cpu, log);
  }
}

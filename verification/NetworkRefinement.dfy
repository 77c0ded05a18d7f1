/**
 The network refines the channel machine: whatever the queues, dispatchers and device threads do,
 every CPU and every memory goes through the states of one run in which a CPU's transactions are
 a list and a slave serves in one step.
 */
module NetworkRefinement {
  import opened Channels
  import opened ChannelOrder
  import opened ChannelRuns
  import opened Network

  // ---------- the transactions of one master and one slave ----------

  predicate Mine(m: Msg, c: nat, s: nat) { m.req.src == c && m.req.slave == s }

  function Of(q: seq<Msg>, c: nat, s: nat): seq<Msg> {
    if q == [] then []
    else if Mine(q[0], c, s) then [q[0]] + Of(q[1..], c, s)
    else Of(q[1..], c, s)
  }

  lemma {:induction false} OfConcat(p: seq<Msg>, q: seq<Msg>, c: nat, s: nat)
    ensures Of(p + q, c, s) == Of(p, c, s) + Of(q, c, s)
  {
    if p == [] {
      assert p + q == q;
    } else {
      assert (p + q)[1..] == p[1..] + q && (p + q)[0] == p[0];
      OfConcat(p[1..], q, c, s);
      if Mine(p[0], c, s) {
        assert [p[0]] + (Of(p[1..], c, s) + Of(q, c, s)) == ([p[0]] + Of(p[1..], c, s)) + Of(q, c, s);
      }
    }
  }

  lemma {:induction false} OfHas(q: seq<Msg>, c: nat, s: nat, j: nat)
    requires j < |q| && Mine(q[j], c, s)
    ensures q[j] in Of(q, c, s)
  {
    if j > 0 {
      OfHas(q[1..], c, s, j - 1);
    }
  }

  lemma {:induction false} OfIsIn(q: seq<Msg>, c: nat, s: nat)
    ensures forall m | m in Of(q, c, s) :: m in q && Mine(m, c, s)
  {
    if q != [] {
      OfIsIn(q[1..], c, s);
    }
  }

  // What one message contributes.
  function One(m: Msg, c: nat, s: nat): seq<Msg> { if Mine(m, c, s) then [m] else [] }

  lemma OfCons(m: Msg, q: seq<Msg>, c: nat, s: nat)
    ensures Of([m] + q, c, s) == One(m, c, s) + Of(q, c, s)
  {
    assert ([m] + q)[1..] == q;
  }

  lemma OfSnoc(q: seq<Msg>, m: Msg, c: nat, s: nat)
    ensures Of(q + [m], c, s) == Of(q, c, s) + One(m, c, s)
  {
    OfConcat(q, [m], c, s);
    OfCons(m, [], c, s);
    assert [m] + [] == [m];
  }

  // A list around one of its messages, replaced or removed.
  lemma OfAround(fl: seq<Msg>, i: nat, m: Msg, c: nat, s: nat)
    requires i < |fl|
    ensures Of(fl[i := m], c, s) == Of(fl[..i], c, s) + One(m, c, s) + Of(fl[i + 1..], c, s)
    ensures Of(fl[..i] + fl[i + 1..], c, s) == Of(fl[..i], c, s) + Of(fl[i + 1..], c, s)
  {
    assert fl[i := m] == fl[..i] + [m] + fl[i + 1..];
    OfConcat(fl[..i] + [m], fl[i + 1..], c, s);
    OfSnoc(fl[..i], m, c, s);
    OfConcat(fl[..i], fl[i + 1..], c, s);
  }

  // Messages of other masters and slaves do not count.
  lemma OfOther(fl: seq<Msg>, i: nat, m: Msg, c: nat, s: nat)
    requires i < |fl| && !Mine(fl[i], c, s) && !Mine(m, c, s)
    ensures Of(fl[i := m], c, s) == Of(fl, c, s) == Of(fl[..i] + fl[i + 1..], c, s)
  {
    OfAround(fl, i, m, c, s);
    OfAround(fl, i, fl[i], c, s);
    assert fl[i := fl[i]] == fl;
  }

  // The place of the k-th message of a master and a slave.
  lemma {:induction false} Locate(fl: seq<Msg>, c: nat, s: nat, k: nat) returns (i: nat)
    requires k < |Of(fl, c, s)|
    ensures i < |fl| && fl[i] == Of(fl, c, s)[k] && Mine(fl[i], c, s)
    ensures Of(fl[..i], c, s) == Of(fl, c, s)[..k] && Of(fl[i + 1..], c, s) == Of(fl, c, s)[k + 1..]
  {
    if Mine(fl[0], c, s) && k == 0 {
      i := 0;
    } else {
      var here := if Mine(fl[0], c, s) then 1 else 0;
      var j := Locate(fl[1..], c, s, k - here);
      i := j + 1;
      assert fl[..i][1..] == fl[1..][..j] && fl[..i][0] == fl[0];
    }
  }

  // The place of a message with a given past, in a list of one CPU.
  lemma PlaceOf(fl: seq<Msg>, c: nat, s: nat, before: seq<Msg>, m: Msg, after: seq<Msg>) returns (i: nat)
    requires Of(fl, c, s) == before + [m] + after && forall j | 0 <= j < |fl| :: fl[j].req.src == c
    ensures i < |fl| && fl[i] == m && Mine(m, c, s)
    ensures Of(fl[..i], c, s) == before && Of(fl[i + 1..], c, s) == after
    ensures forall j | 0 <= j < i && fl[j].req.slave == s :: fl[j] in before
  {
    i := Locate(fl, c, s, |before|);
    forall j | 0 <= j < i && fl[j].req.slave == s
      ensures fl[j] in before
    {
      assert fl[..i][j] == fl[j];
      OfHas(fl[..i], c, s, j);
    }
  }

  // ---------- the path of a transaction ----------

  function SlavePart(sl: Slave): seq<Msg> { sl.hand + sl.responses + sl.work + sl.requests }

  function MasterPart(m: Master): seq<Msg> { m.hand + m.requests + m.sending }

  // Everything between CPU c and slave s, from the response that arrives next to the request that
  // was issued last.
  function Path(m: Master, sl: Slave, c: nat, s: nat): seq<Msg> {
    Of(m.responses, c, s) + Of(SlavePart(sl), c, s) + Of(MasterPart(m), c, s)
  }

  ghost predicate Matches(n: Net, a: Sys, c: nat, s: nat)
    requires NetSized(n) && c < |n.masters| && s < |n.slaves| && c < |a.flight|
  {
    Of(a.flight[c], c, s) == Path(n.masters[c], n.slaves[s], c, s)
  }

  ghost predicate Same(n: Net, a: Sys)
    requires NetSized(n) && Sized(a)
  {
    && a.cfg == n.cfg && a.cpus == n.cpus
    && (forall s | 0 <= s < |n.slaves| :: a.mems[s] == n.slaves[s].mem)
    && (forall c, s | 0 <= c < |n.masters| && 0 <= s < |n.slaves| :: Matches(n, a, c, s))
  }

  ghost predicate Refines(n: Net, a: Sys) { NetOk(n) && Ok(a) && Same(n, a) }

  // ---------- moves that only carry ----------

  predicate Carries(mv: Move) {
    mv.Put? || mv.Fetch? || mv.Dispatch? || mv.Accept? || mv.Answer? || mv.Collect? || mv.Return?
  }

  lemma PutCarries(m: Master)
    requires |m.sending| == 1
    ensures MasterPart(m.(sending := m.sending[1..], requests := m.requests + [m.sending[0]])) == MasterPart(m)
  {
  }

  lemma FetchCarries(m: Master)
    requires m.hand == [] && m.requests != []
    ensures MasterPart(m.(hand := [m.requests[0]], requests := m.requests[1..])) == MasterPart(m)
  {
  }

  // The drop branch of request_thread is never taken: what is accepted becomes the work.
  lemma NothingIsDropped(n: Net, s: nat)
    requires NetOk(n) && CanMove(n, Accept(s))
    ensures Moved(n, Accept(s)).slaves[s].work == [n.slaves[s].requests[0]]
  {
    assert SlaveOk(n, s, n.slaves[s]);
  }

  lemma AcceptCarries(sl: Slave)
    requires sl.work == [] && sl.requests != []
    ensures SlavePart(sl.(requests := sl.requests[1..], processing := true, work := [sl.requests[0]])) == SlavePart(sl)
  {
  }

  lemma AnswerCarries(sl: Slave)
    requires |sl.work| == 1
    ensures SlavePart(sl.(work := sl.work[1..], processing := false, responses := sl.responses + [sl.work[0]]))
            == SlavePart(sl)
  {
  }

  lemma CollectCarries(sl: Slave)
    requires sl.hand == [] && sl.responses != []
    ensures SlavePart(sl.(hand := [sl.responses[0]], responses := sl.responses[1..])) == SlavePart(sl)
  {
  }

  lemma MasterCarries(n: Net, mv: Move)
    requires NetOk(n) && CanMove(n, mv) && (mv.Put? || mv.Fetch?)
    ensures MasterPart(Moved(n, mv).masters[mv.c]) == MasterPart(n.masters[mv.c])
  {
    assert MasterOk(n, mv.c, n.masters[mv.c]);
    if mv.Put? {
      PutCarries(n.masters[mv.c]);
    } else {
      FetchCarries(n.masters[mv.c]);
    }
  }

  lemma DeviceCarries(n: Net, mv: Move)
    requires NetOk(n) && CanMove(n, mv) && (mv.Accept? || mv.Answer? || mv.Collect?)
    ensures SlavePart(Moved(n, mv).slaves[mv.s]) == SlavePart(n.slaves[mv.s])
  {
    var sl := n.slaves[mv.s];
    assert SlaveOk(n, mv.s, sl);
    match mv
    case Accept(s) => AcceptCarries(sl);
    case Answer(s) => AnswerCarries(sl);
    case Collect(s) => CollectCarries(sl);
  }

  // A request leaves the hand of its dispatcher and joins the queue of its slave.
  lemma HandLeaves(m: Master, c: nat, s: nat)
    requires |m.hand| == 1
    ensures Of(MasterPart(m), c, s) == One(m.hand[0], c, s) + Of(MasterPart(m.(hand := m.hand[1..])), c, s)
  {
    assert MasterPart(m) == [m.hand[0]] + MasterPart(m.(hand := m.hand[1..]));
    OfCons(m.hand[0], MasterPart(m.(hand := m.hand[1..])), c, s);
  }

  lemma RequestJoins(sl: Slave, x: Msg, c: nat, s: nat)
    ensures Of(SlavePart(sl.(requests := sl.requests + [x])), c, s) == Of(SlavePart(sl), c, s) + One(x, c, s)
  {
    assert SlavePart(sl.(requests := sl.requests + [x])) == SlavePart(sl) + [x];
    OfSnoc(SlavePart(sl), x, c, s);
  }

  lemma DispatchIs(n: Net, c: nat)
    requires NetOk(n) && CanMove(n, Dispatch(c))
    ensures var m := n.masters[c];
      && |m.hand| == 1 && m.hand[0].req.src == c && m.hand[0].req.slave < |n.slaves|
      && var s := m.hand[0].req.slave;
         Moved(n, Dispatch(c)) == n.(masters := n.masters[c := m.(hand := m.hand[1..])],
           slaves := n.slaves[s := n.slaves[s].(requests := n.slaves[s].requests + [m.hand[0]])])
  {
    var m := n.masters[c];
    assert MasterOk(n, c, m);
    assert m.hand[0] in m.hand;
    RouteIsKnown(n, c, m.hand[0]);
  }

  lemma DispatchKeepsPaths(n: Net, c: nat, d: nat, t: nat)
    requires NetOk(n) && CanMove(n, Dispatch(c)) && d < |n.masters| && t < |n.slaves|
    ensures var n' := Moved(n, Dispatch(c));
      Path(n'.masters[d], n'.slaves[t], d, t) == Path(n.masters[d], n.slaves[t], d, t)
  {
    DispatchIs(n, c);
    var x := n.masters[c].hand[0];
    RequestMovesOn(n.masters[c], n.slaves[x.req.slave], n.masters[d], n.slaves[t], c, d, t);
  }

  // The paths of master d, slave t before and after; m and sl are d's and t's, unless the request
  // moves on between them.
  lemma RequestMovesOn(m0: Master, sl0: Slave, m: Master, sl: Slave, c: nat, d: nat, t: nat)
    requires |m0.hand| == 1 && m0.hand[0].req.src == c
    requires d == c ==> m == m0
    requires t == m0.hand[0].req.slave ==> sl == sl0
    ensures var x := m0.hand[0];
      var m' := if d == c then m0.(hand := m0.hand[1..]) else m;
      var sl' := if t == x.req.slave then sl0.(requests := sl0.requests + [x]) else sl;
      Path(m', sl', d, t) == Path(m, sl, d, t)
  {
    HandLeaves(m0, d, t);
    RequestJoins(sl0, m0.hand[0], d, t);
  }

  // A response leaves the hand of its dispatcher and joins the queue of its master.
  lemma ResponseLeaves(sl: Slave, c: nat, s: nat)
    requires |sl.hand| == 1
    ensures Of(SlavePart(sl), c, s) == One(sl.hand[0], c, s) + Of(SlavePart(sl.(hand := sl.hand[1..])), c, s)
  {
    assert SlavePart(sl) == [sl.hand[0]] + SlavePart(sl.(hand := sl.hand[1..]));
    OfCons(sl.hand[0], SlavePart(sl.(hand := sl.hand[1..])), c, s);
  }

  lemma ReturnIs(n: Net, s: nat)
    requires NetOk(n) && CanMove(n, Return(s))
    ensures var sl := n.slaves[s];
      && |sl.hand| == 1 && sl.hand[0].req.slave == s && sl.hand[0].req.src < |n.masters|
      && var c := sl.hand[0].req.src;
         Moved(n, Return(s)) == n.(slaves := n.slaves[s := sl.(hand := sl.hand[1..])],
           masters := n.masters[c := n.masters[c].(responses := n.masters[c].responses + [sl.hand[0]])])
  {
    assert SlaveOk(n, s, n.slaves[s]);
    assert n.slaves[s].hand[0] in n.slaves[s].hand;
  }

  lemma ReturnKeepsPaths(n: Net, s: nat, d: nat, t: nat)
    requires NetOk(n) && CanMove(n, Return(s)) && d < |n.masters| && t < |n.slaves|
    ensures var n' := Moved(n, Return(s));
      Path(n'.masters[d], n'.slaves[t], d, t) == Path(n.masters[d], n.slaves[t], d, t)
  {
    ReturnIs(n, s);
    var x := n.slaves[s].hand[0];
    ResponseMovesOn(n.masters[x.req.src], n.slaves[s], n.masters[d], n.slaves[t], s, d, t);
  }

  lemma ResponseMovesOn(m0: Master, sl0: Slave, m: Master, sl: Slave, s: nat, d: nat, t: nat)
    requires |sl0.hand| == 1 && sl0.hand[0].req.slave == s
    requires t == s ==> sl == sl0
    requires d == sl0.hand[0].req.src ==> m == m0
    ensures var x := sl0.hand[0];
      var m' := if d == x.req.src then m0.(responses := m0.responses + [x]) else m;
      var sl' := if t == s then sl0.(hand := sl0.hand[1..]) else sl;
      Path(m', sl', d, t) == Path(m, sl, d, t)
  {
    var x := sl0.hand[0];
    if d == x.req.src && t == s {
      ResponseLeaves(sl0, d, t);
      OfSnoc(m0.responses, x, d, t);
    } else if d == x.req.src {
      OfSnoc(m0.responses, x, d, t);
    } else if t == s {
      ResponseLeaves(sl0, d, t);
    }
  }

  lemma MasterCarriesPaths(n: Net, mv: Move, d: nat, t: nat)
    requires NetOk(n) && CanMove(n, mv) && (mv.Put? || mv.Fetch?) && d < |n.masters| && t < |n.slaves|
    ensures var n' := Moved(n, mv);
      Path(n'.masters[d], n'.slaves[t], d, t) == Path(n.masters[d], n.slaves[t], d, t)
  {
    MasterCarries(n, mv);
  }

  lemma DeviceCarriesPaths(n: Net, mv: Move, d: nat, t: nat)
    requires NetOk(n) && CanMove(n, mv) && (mv.Accept? || mv.Answer? || mv.Collect?)
    requires d < |n.masters| && t < |n.slaves|
    ensures var n' := Moved(n, mv);
      Path(n'.masters[d], n'.slaves[t], d, t) == Path(n.masters[d], n.slaves[t], d, t)
  {
    DeviceCarries(n, mv);
  }

  lemma CarriesKeepPaths(n: Net, mv: Move, d: nat, t: nat)
    requires NetOk(n) && CanMove(n, mv) && Carries(mv) && d < |n.masters| && t < |n.slaves|
    ensures var n' := Moved(n, mv);
      Path(n'.masters[d], n'.slaves[t], d, t) == Path(n.masters[d], n.slaves[t], d, t)
  {
    match mv
    case Dispatch(c) => DispatchKeepsPaths(n, c, d, t);
    case Return(s) => ReturnKeepsPaths(n, s, d, t);
    case Put(_) => MasterCarriesPaths(n, mv, d, t);
    case Fetch(_) => MasterCarriesPaths(n, mv, d, t);
    case _ => DeviceCarriesPaths(n, mv, d, t);
  }

  lemma CarryKeepsRest(n: Net, mv: Move)
    requires NetSized(n) && CanMove(n, mv) && Carries(mv)
    ensures var n' := Moved(n, mv);
      && n'.cfg == n.cfg && n'.cpus == n.cpus && NetSized(n')
      && forall s | 0 <= s < |n'.slaves| :: n'.slaves[s].mem == n.slaves[s].mem
  {
  }

  lemma CarryStutters(n: Net, a: Sys, mv: Move)
    requires NetOk(n) && Sized(a) && Same(n, a) && CanMove(n, mv) && Carries(mv)
    ensures NetSized(Moved(n, mv)) && Same(Moved(n, mv), a)
  {
    var n' := Moved(n, mv);
    CarryKeepsRest(n, mv);
    forall c, s | 0 <= c < |n'.masters| && 0 <= s < |n'.slaves|
      ensures Matches(n', a, c, s)
    {
      assert Matches(n, a, c, s);
      CarriesKeepPaths(n, mv, c, s);
    }
  }

  // ---------- moves that a channel step answers for ----------

  lemma SendingJoins(m: Master, x: Msg, c: nat, s: nat)
    requires m.sending == []
    ensures Of(MasterPart(m.(sending := [x])), c, s) == Of(MasterPart(m), c, s) + One(x, c, s)
  {
    assert MasterPart(m.(sending := [x])) == MasterPart(m) + [x];
    OfSnoc(MasterPart(m), x, c, s);
  }

  lemma StartIsIssue(n: Net, a: Sys, mv: Move) returns (st: Step)
    requires NetSized(n) && Sized(a) && Same(n, a) && CanMove(n, mv) && mv.Start?
    ensures st == Issue(mv.c, mv.addr, mv.write, mv.data, mv.io) && Enabled(a, st)
    ensures NetSized(Moved(n, mv)) && Sized(Next(a, st)) && Same(Moved(n, mv), Next(a, st))
  {
    st := Issue(mv.c, mv.addr, mv.write, mv.data, mv.io);
    var n', a' := Moved(n, mv), Next(a, st);
    var x := Msg(Started(n, mv), false, 0);
    forall c, s | 0 <= c < |n'.masters| && 0 <= s < |n'.slaves|
      ensures Matches(n', a', c, s)
    {
      assert Matches(n, a, c, s);
      if c == mv.c {
        SendingJoins(n.masters[c], x, c, s);
        OfSnoc(a.flight[c], x, c, s);
      }
    }
  }

  lemma ContinueIsResume(n: Net, a: Sys, c: nat)
    requires NetSized(n) && Sized(a) && Same(n, a) && CanMove(n, Continue(c))
    ensures Enabled(a, Resume(c))
    ensures Sized(Next(a, Resume(c))) && Same(Moved(n, Continue(c)), Next(a, Resume(c)))
  {
    var n', a' := Moved(n, Continue(c)), Next(a, Resume(c));
    forall d, s | 0 <= d < |n'.masters| && 0 <= s < |n'.slaves|
      ensures Matches(n', a', d, s)
    {
      assert Matches(n, a, d, s);
    }
  }

  // What is ahead of and behind the request that a slave works on.
  function Ahead(m: Master, sl: Slave, c: nat, s: nat): seq<Msg> {
    Of(m.responses, c, s) + Of(sl.hand + sl.responses, c, s)
  }

  function Behind(m: Master, sl: Slave, c: nat, s: nat): seq<Msg> {
    Of(sl.requests, c, s) + Of(MasterPart(m), c, s)
  }

  lemma PathAroundWork(m: Master, sl: Slave, x: Msg, c: nat, s: nat)
    requires sl.work == [x]
    ensures Path(m, sl, c, s) == Ahead(m, sl, c, s) + One(x, c, s) + Behind(m, sl, c, s)
  {
    WorkPart(sl, x, c, s);
    Regroup(Of(m.responses, c, s), Of(sl.hand + sl.responses, c, s), One(x, c, s),
            Of(sl.requests, c, s), Of(MasterPart(m), c, s));
  }

  lemma WorkPart(sl: Slave, x: Msg, c: nat, s: nat)
    requires sl.work == [x]
    ensures Of(SlavePart(sl), c, s) == Of(sl.hand + sl.responses, c, s) + One(x, c, s) + Of(sl.requests, c, s)
  {
    OfConcat(sl.hand + sl.responses + [x], sl.requests, c, s);
    OfSnoc(sl.hand + sl.responses, x, c, s);
  }

  lemma Regroup(a: seq<Msg>, b: seq<Msg>, x: seq<Msg>, d: seq<Msg>, e: seq<Msg>)
    ensures a + (b + x + d) + e == (a + b) + x + (d + e)
  {
  }

  lemma AheadIsServed(n: Net, c: nat, s: nat)
    requires NetOk(n) && c < |n.masters| && s < |n.slaves|
    ensures forall m | m in Ahead(n.masters[c], n.slaves[s], c, s) :: m.served
  {
    OfIsIn(n.masters[c].responses, c, s);
    OfIsIn(n.slaves[s].hand + n.slaves[s].responses, c, s);
    assert MasterOk(n, c, n.masters[c]) && SlaveOk(n, s, n.slaves[s]);
  }

  ghost predicate FromCpu(fl: seq<Msg>, c: nat) { forall j | 0 <= j < |fl| :: fl[j].req.src == c }

  lemma FlightIsFromCpu(a: Sys, c: nat)
    requires Ok(a) && c < |a.flight|
    ensures FromCpu(a.flight[c], c)
  {
    assert CpuOk(a.cfg, c, a.cpus[c], a.flight[c], a.log);
    forall j | 0 <= j < |a.flight[c]|
      ensures a.flight[c][j].req.src == c
    {
      assert IssuedBy(c, a.cpus[c], a.flight[c][j].req);
    }
  }

  lemma WorkIs(n: Net, s: nat)
    requires NetOk(n) && CanMove(n, Perform(s))
    ensures var m := n.slaves[s].work[0];
      n.slaves[s].work == [m] && Mine(m, m.req.src, s) && m.req.src < |n.masters|
  {
    assert SlaveOk(n, s, n.slaves[s]);
    assert n.slaves[s].work[0] in n.slaves[s].work;
  }

  // The request that a slave works on is the oldest unserved one of its master there.
  lemma WorkIsFirst(n: Net, a: Sys, s: nat) returns (i: nat)
    requires NetOk(n) && Sized(a) && Same(n, a) && CanMove(n, Perform(s))
    requires forall c | 0 <= c < |a.flight| :: FromCpu(a.flight[c], c)
    ensures Enabled(a, Serve(n.slaves[s].work[0].req.src, i))
    ensures var m := n.slaves[s].work[0];
      var c := m.req.src;
      && a.flight[c][i] == m && m.req.slave == s
      && Of(a.flight[c][..i], c, s) == Ahead(n.masters[c], n.slaves[s], c, s)
      && Of(a.flight[c][i + 1..], c, s) == Behind(n.masters[c], n.slaves[s], c, s)
  {
    WorkIs(n, s);
    var m := n.slaves[s].work[0];
    var c := m.req.src;
    assert Matches(n, a, c, s) && FromCpu(a.flight[c], c);
    PathAroundWork(n.masters[c], n.slaves[s], m, c, s);
    AheadIsServed(n, c, s);
    i := PlaceOf(a.flight[c], c, s, Ahead(n.masters[c], n.slaves[s], c, s), m, Behind(n.masters[c], n.slaves[s], c, s));
  }

  lemma PerformIsServe(n: Net, a: Sys, s: nat) returns (st: Step)
    requires NetOk(n) && Sized(a) && Same(n, a) && CanMove(n, Perform(s))
    requires forall c | 0 <= c < |a.flight| :: FromCpu(a.flight[c], c)
    ensures st.Serve? && Enabled(a, st)
    ensures Next(a, st).log == a.log + Served(n, Perform(s))
    ensures NetSized(Moved(n, Perform(s))) && Sized(Next(a, st)) && Same(Moved(n, Perform(s)), Next(a, st))
  {
    WorkIs(n, s);
    var c := n.slaves[s].work[0].req.src;
    var i := WorkIsFirst(n, a, s);
    st := Serve(c, i);
    ServedTogether(n, a, s, c, i);
    var m' := Next(a, st).flight[c][i];
    assert Served(n, Perform(s)) == [m'];
    ServedSame(n, a, Moved(n, Perform(s)), Next(a, st), s, c, i, m');
  }

  lemma ServedSame(n: Net, a: Sys, n': Net, a': Sys, s: nat, c: nat, i: nat, m': Msg)
    requires NetSized(n) && Sized(a) && Same(n, a) && s < |n.slaves| && c < |n.masters| && i < |a.flight[c]|
    requires n.slaves[s].work == [a.flight[c][i]] && m'.req == a.flight[c][i].req && Mine(m', c, s)
    requires Of(a.flight[c][..i], c, s) == Ahead(n.masters[c], n.slaves[s], c, s)
    requires Of(a.flight[c][i + 1..], c, s) == Behind(n.masters[c], n.slaves[s], c, s)
    requires s < |a'.mems|
    requires a' == a.(mems := a.mems[s := a'.mems[s]], flight := a.flight[c := a.flight[c][i := m']], log := a'.log)
    requires n' == n.(slaves := n.slaves[s := n.slaves[s].(work := [m'], mem := a'.mems[s])])
    ensures NetSized(n') && Sized(a') && Same(n', a')
  {
    forall d, t | 0 <= d < |n'.masters| && 0 <= t < |n'.slaves|
      ensures Matches(n', a', d, t)
    {
      assert Matches(n, a, d, t);
      PerformKeepsMatch(a.flight[c], i, m', n.masters[d], n.slaves[s], n'.slaves[s], c, s, d, t);
    }
  }

  // The device and the channel machine compute the same response and the same memory.
  lemma ServedTogether(n: Net, a: Sys, s: nat, c: nat, i: nat)
    requires NetSized(n) && Sized(a) && CanMove(n, Perform(s)) && Enabled(a, Serve(c, i)) && a.cfg == n.cfg
    requires a.flight[c][i] == n.slaves[s].work[0] && a.flight[c][i].req.slave == s && a.mems[s] == n.slaves[s].mem
    ensures var n', a' := Moved(n, Perform(s)), Next(a, Serve(c, i));
      && Sized(a') && i < |a'.flight[c]| && a'.flight[c][i].req == a.flight[c][i].req
      && a' == a.(mems := a.mems[s := a'.mems[s]], log := a'.log,
                  flight := a.flight[c := a.flight[c][i := a'.flight[c][i]]])
      && n' == n.(slaves := n.slaves[s := n.slaves[s].(work := [a'.flight[c][i]], mem := a'.mems[s])])
      && a'.log == a.log + [a'.flight[c][i]]
  {
  }

  // The served request in its place, seen from master d and slave t.
  lemma PerformKeepsMatch(fl: seq<Msg>, i: nat, x': Msg, m: Master, sl: Slave, sl': Slave, c: nat, s: nat, d: nat,
                          t: nat)
    requires i < |fl| && sl.work == [fl[i]] && x'.req == fl[i].req && Mine(x', c, s)
    requires sl' == sl.(work := [x'], mem := sl'.mem)
    requires d == c && t == s ==>
               Of(fl[..i], c, s) == Ahead(m, sl, c, s) && Of(fl[i + 1..], c, s) == Behind(m, sl, c, s)
    ensures d == c && t == s ==> Of(fl[i := x'], c, s) == Path(m, sl', c, s)
    ensures d == c && t != s ==> Of(fl[i := x'], c, t) == Of(fl, c, t)
    ensures d != c ==> Path(m, sl', d, s) == Path(m, sl, d, s)
  {
    PathAroundWork(m, sl', x', d, s);
    PathAroundWork(m, sl, fl[i], d, s);
    if d == c && t == s {
      OfAround(fl, i, x', c, s);
    } else if d == c {
      OfOther(fl, i, x', c, t);
    }
  }

  // The response that arrives belongs to the oldest transaction of its master and slave.
  lemma ArrivalIs(n: Net, c: nat)
    requires NetOk(n) && CanMove(n, Deliver(c))
    ensures var x := n.masters[c].responses[0];
      x.req.src == c && x.served && x.req.slave < |n.slaves|
  {
    assert MasterOk(n, c, n.masters[c]);
    assert n.masters[c].responses[0] in n.masters[c].responses;
  }

  lemma PathFromResponse(m: Master, sl: Slave, c: nat, s: nat)
    requires m.responses != []
    ensures Path(m, sl, c, s) == One(m.responses[0], c, s) + Path(m.(responses := m.responses[1..]), sl, c, s)
  {
    assert m.responses == [m.responses[0]] + m.responses[1..];
    OfCons(m.responses[0], m.responses[1..], c, s);
  }

  lemma ArrivalIsFirst(n: Net, a: Sys, c: nat) returns (i: nat)
    requires NetOk(n) && Sized(a) && Same(n, a) && CanMove(n, Deliver(c)) && FromCpu(a.flight[c], c)
    ensures Enabled(a, Receive(c, i))
    ensures var m := n.masters[c];
      var x := m.responses[0];
      && a.flight[c][i] == x && x.req.src == c && x.req.slave < |n.slaves|
      && Of(a.flight[c][..i], c, x.req.slave) == []
      && Of(a.flight[c][i + 1..], c, x.req.slave)
         == Path(m.(responses := m.responses[1..]), n.slaves[x.req.slave], c, x.req.slave)
  {
    ArrivalIs(n, c);
    var x := n.masters[c].responses[0];
    assert Matches(n, a, c, x.req.slave);
    i := FirstArrival(a.flight[c], n.masters[c], n.slaves[x.req.slave], c);
  }

  lemma FirstArrival(fl: seq<Msg>, m: Master, sl: Slave, c: nat) returns (i: nat)
    requires m.responses != [] && m.responses[0].req.src == c && FromCpu(fl, c)
    requires Of(fl, c, m.responses[0].req.slave) == Path(m, sl, c, m.responses[0].req.slave)
    ensures var x := m.responses[0];
      && i < |fl| && fl[i] == x && FirstOfSlave(fl, i)
      && Of(fl[..i], c, x.req.slave) == []
      && Of(fl[i + 1..], c, x.req.slave) == Path(m.(responses := m.responses[1..]), sl, c, x.req.slave)
  {
    var x := m.responses[0];
    var s := x.req.slave;
    PathFromResponse(m, sl, c, s);
    i := PlaceOf(fl, c, s, [], x, Path(m.(responses := m.responses[1..]), sl, c, s));
  }

  lemma DeliverIsReceive(n: Net, a: Sys, c: nat) returns (st: Step)
    requires NetOk(n) && Sized(a) && Same(n, a) && CanMove(n, Deliver(c)) && FromCpu(a.flight[c], c)
    ensures st.Receive? && st.c == c && Enabled(a, st)
    ensures a.flight[c][st.i] == n.masters[c].responses[0] && a.flight[c][st.i].req.src == c
    ensures NetSized(Moved(n, Deliver(c))) && Sized(Next(a, st)) && Same(Moved(n, Deliver(c)), Next(a, st))
  {
    var i := ArrivalIsFirst(n, a, c);
    st := Receive(c, i);
    ReceivedTogether(n, a, c, i);
    ReceivedSame(n, a, Moved(n, Deliver(c)), Next(a, st), c, i);
  }

  lemma ReceivedSame(n: Net, a: Sys, n': Net, a': Sys, c: nat, i: nat)
    requires NetSized(n) && Sized(a) && Same(n, a) && c < |n.masters| && i < |a.flight[c]|
    requires n.masters[c].responses != [] && a.flight[c][i] == n.masters[c].responses[0] && a.flight[c][i].req.src == c
    requires var m, s := n.masters[c], a.flight[c][i].req.slave;
      && s < |n.slaves| && Of(a.flight[c][..i], c, s) == []
      && Of(a.flight[c][i + 1..], c, s) == Path(m.(responses := m.responses[1..]), n.slaves[s], c, s)
    requires var m := n.masters[c];
      n' == n.(masters := n.masters[c := m.(responses := m.responses[1..])], cpus := a'.cpus)
    requires |a'.cpus| == |a.cpus|
    requires a' == a.(cpus := a'.cpus, flight := a.flight[c := a.flight[c][..i] + a.flight[c][i + 1..]])
    ensures NetSized(n') && Sized(a') && Same(n', a')
  {
    forall d, t | 0 <= d < |n'.masters| && 0 <= t < |n'.slaves|
      ensures Matches(n', a', d, t)
    {
      assert Matches(n, a, d, t);
      if d == c {
        DeliverKeepsMatch(a.flight[c], i, n.masters[c], n.slaves[t], c, t);
      }
    }
  }

  lemma ReceivedTogether(n: Net, a: Sys, c: nat, i: nat)
    requires NetSized(n) && Sized(a) && CanMove(n, Deliver(c)) && Enabled(a, Receive(c, i)) && a.cpus == n.cpus
    requires a.flight[c][i] == n.masters[c].responses[0] && a.flight[c][i].req.src == c
    ensures var n', a', m := Moved(n, Deliver(c)), Next(a, Receive(c, i)), n.masters[c];
      && n' == n.(masters := n.masters[c := m.(responses := m.responses[1..])], cpus := a'.cpus)
      && a' == a.(cpus := a'.cpus, flight := a.flight[c := a.flight[c][..i] + a.flight[c][i + 1..]])
      && |a'.cpus| == |a.cpus|
  {
  }

  lemma DeliverKeepsMatch(fl: seq<Msg>, i: nat, m: Master, sl: Slave, c: nat, t: nat)
    requires i < |fl| && m.responses != [] && fl[i] == m.responses[0] && fl[i].req.src == c
    requires Of(fl, c, t) == Path(m, sl, c, t)
    requires fl[i].req.slave == t ==>
      Of(fl[..i], c, t) == [] && Of(fl[i + 1..], c, t) == Path(m.(responses := m.responses[1..]), sl, c, t)
    ensures Of(fl[..i] + fl[i + 1..], c, t) == Path(m.(responses := m.responses[1..]), sl, c, t)
  {
    PathFromResponse(m, sl, c, t);
    if fl[i].req.slave == t {
      OfAround(fl, i, fl[i], c, t);
    } else {
      OfOther(fl, i, fl[i], c, t);
    }
  }

  // ---------- runs ----------

  // What a move serves, and what all the moves of a run serve, in their order.
  function Served(n: Net, mv: Move): seq<Msg>
    requires NetSized(n) && CanMove(n, mv)
  {
    if mv.Perform? then Moved(n, mv).slaves[mv.s].work else []
  }

  ghost function Services(n: Net, moves: seq<Move>): seq<Msg>
    requires NetLegal(n, moves)
    decreases |moves|
  {
    if moves == [] then [] else Served(n, moves[0]) + Services(Moved(n, moves[0]), moves[1..])
  }

  // One move of the network is at most one step of the channel machine.
  lemma Simulate(n: Net, a: Sys, mv: Move) returns (steps: seq<Step>)
    requires Refines(n, a) && CanMove(n, mv)
    ensures |steps| <= 1 && Legal(a, steps) && Refines(Moved(n, mv), After(a, steps))
    ensures After(a, steps).log == a.log + Served(n, mv)
    ensures mv.Start? ==> steps == [Issue(mv.c, mv.addr, mv.write, mv.data, mv.io)]
    ensures !mv.Start? ==> forall st | st in steps :: !st.Issue?
  {
    MoveKeepsOk(n, mv);
    if Carries(mv) {
      CarryStutters(n, a, mv);
      steps := [];
    } else {
      var st := Answering(n, a, mv);
      steps := [st];
      StepKeepsOk(a, st);
      OneStep(a, st);
    }
  }

  lemma Answering(n: Net, a: Sys, mv: Move) returns (st: Step)
    requires NetOk(n) && Ok(a) && Same(n, a) && CanMove(n, mv) && !Carries(mv)
    ensures Enabled(a, st) && NetSized(Moved(n, mv)) && Sized(Next(a, st)) && Same(Moved(n, mv), Next(a, st))
    ensures Next(a, st).log == a.log + Served(n, mv)
    ensures mv.Start? ==> st == Issue(mv.c, mv.addr, mv.write, mv.data, mv.io)
    ensures !mv.Start? ==> !st.Issue?
  {
    forall c | 0 <= c < |a.flight|
      ensures FromCpu(a.flight[c], c)
    {
      FlightIsFromCpu(a, c);
    }
    match mv {
      case Start(_, _, _, _, _) => st := StartIsIssue(n, a, mv);
      case Perform(s) => st := PerformIsServe(n, a, s);
      case Deliver(c) => st := DeliverIsReceive(n, a, c);
      case Continue(c) => ContinueIsResume(n, a, c); st := Resume(c);
    }
  }

  lemma OneStep(a: Sys, st: Step)
    requires Sized(a) && Enabled(a, st) && Sized(Next(a, st))
    ensures Legal(a, [st]) && After(a, [st]) == Next(a, st)
  {
    assert [st][1..] == [];
    assert Legal(Next(a, st), [st][1..]);
  }

  lemma {:induction false} Appended(a: Sys, p: seq<Step>, q: seq<Step>)
    requires Legal(a, p) && Legal(After(a, p), q)
    ensures Legal(a, p + q) && After(a, p + q) == After(After(a, p), q)
    decreases |p|
  {
    if p == [] {
      assert p + q == q;
    } else {
      assert (p + q)[1..] == p[1..] + q;
      Appended(Next(a, p[0]), p[1..], q);
    }
  }

  lemma {:induction false} RunIsRefined(n: Net, a: Sys, moves: seq<Move>) returns (steps: seq<Step>)
    requires Refines(n, a) && NetLegal(n, moves)
    ensures Legal(a, steps) && Refines(NetAfter(n, moves), After(a, steps))
    ensures After(a, steps).log == a.log + Services(n, moves)
    decreases |moves|
  {
    if moves == [] {
      steps := [];
    } else {
      hide Refines, Served, Moved, CanMove, Next, Enabled;
      var p := Simulate(n, a, moves[0]);
      var q := RunIsRefined(Moved(n, moves[0]), After(a, p), moves[1..]);
      steps := p + q;
      Appended(a, p, q);
      LogsAppended(a.log, Served(n, moves[0]), Services(Moved(n, moves[0]), moves[1..]));
    }
  }

  lemma LogsAppended(p: seq<Msg>, q: seq<Msg>, r: seq<Msg>)
    ensures p + q + r == p + (q + r)
  {
  }

  // The channel machine before anything is issued.
  function Start0(n: Net): Sys {
    Sys(n.cfg, n.cpus, seq(|n.cpus|, c => []), seq(|n.slaves|, s => map[]), [])
  }

  lemma InitRefines(n: Net)
    requires NetInit(n)
    ensures Init(Start0(n)) && Refines(n, Start0(n))
  {
    var a := Start0(n);
    InitNetOk(n);
    InitIsOk(a);
    forall c, s | 0 <= c < |n.masters| && 0 <= s < |n.slaves|
      ensures Matches(n, a, c, s)
    {
    }
  }

  // Every run of the network has a run of the channel machine with the same CPUs, answers
  // included, the same memories, and the same transactions under way between any CPU and slave, that
  // serves the same transactions in the same order.
  lemma NetworkRefinesChannels(n: Net, moves: seq<Move>) returns (steps: seq<Step>)
    requires NetInit(n) && NetLegal(n, moves)
    ensures Init(Start0(n)) && Legal(Start0(n), steps)
    ensures Refines(NetAfter(n, moves), After(Start0(n), steps))
    ensures After(Start0(n), steps).log == Services(n, moves)
  {
    InitRefines(n);
    hide Refines, Init, Legal, After;
    steps := RunIsRefined(n, Start0(n), moves);
    assert [] + Services(n, moves) == Services(n, moves);
  }
}

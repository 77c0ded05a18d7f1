/**
 The request pool of a CPU wrapper as two linked lists that share their nodes, relinked in place.
 Its operations are those of PoolModel.
 */
module RequestPool {
  import opened PoolModel

  class Request {
    const tid: nat
    var bDone: bool
    var bWrite: bool
    var rcvData: nat
    var next: Request?

    constructor (id: nat)
      ensures tid == id && next == null
    {
      tid := id;
      bDone := false;
      bWrite := false;
      rcvData := 0;
      next := null;
    }

    function View(): Entry
      reads this
    {
      Entry(tid, bWrite, bDone, rcvData)
    }
  }

  // head leads through exactly the nodes of s.
  ghost predicate Chain(head: Request?, s: seq<Request>)
    reads s
  {
    && head == (if s == [] then null else s[0])
    && forall i {:trigger s[i].next} | 0 <= i < |s| :: s[i].next == if i + 1 < |s| then s[i + 1] else null
  }

  ghost predicate NoneTwice(s: seq<Request>) {
    forall i, j | 0 <= i < j < |s| :: s[i] != s[j]
  }

  ghost function FreeTids(s: seq<Request>): seq<nat> {
    seq(|s|, i requires 0 <= i < |s| => s[i].tid)
  }

  ghost function Views(s: seq<Request>): seq<Entry>
    reads s
  {
    seq(|s|, i requires 0 <= i < |s| reads s => s[i].View())
  }

  // The place of a node in a list, or the end of the list.
  ghost function Place(s: seq<Request>, rq: Request): (i: nat)
    ensures i <= |s| && (i < |s| ==> s[i] == rq) && forall k | 0 <= k < i :: s[k] != rq
  {
    if s == [] || s[0] == rq then 0 else Place(s[1..], rq) + 1
  }

  class Requests {
    var headFree: Request?
    var headBusy: Request?
    ghost var free: seq<Request>
    ghost var busy: seq<Request>

    ghost predicate Valid()
      reads this, free, busy
    {
      Chain(headFree, free) && Chain(headBusy, busy) && NoneTwice(free + busy)
    }

    ghost function Model(): Pool
      reads this, busy
    {
      Pool(FreeTids(free), Views(busy))
    }

    constructor (count: nat)
      ensures Valid() && fresh(free) && fresh(busy)
      ensures Model() == Pool(seq(count, i => i + 1), [])
      ensures count == POOL_SIZE ==> Model() == Initial()
    {
      headFree := null;
      headBusy := null;
      free := [];
      busy := [];
      new;
      var last: Request? := null;
      for i := 0 to count
        invariant headBusy == null && busy == [] && fresh(free)
        invariant |free| == i && Chain(headFree, free) && NoneTwice(free)
        invariant last == if free == [] then null else free[|free| - 1]
        invariant forall k | 0 <= k < i :: free[k].tid == k + 1
      {
        var p := new Request(i + 1);
        if last == null {
          headFree := p;
        } else {
          last.next := p;
        }
        last := p;
        free := free + [p];
      }
      assert free + busy == free;
    }

    // GetNewRequest, once it has waited, and the write flag that both callers set at once; null
    // stands for the exit of the simulator.
    method GetNewRequest(write: bool) returns (p: Request?)
      requires Valid()
      modifies this, free
      ensures Valid()
      ensures p == null <==> old(free) == []
      ensures p == null ==> Model() == old(Model())
      ensures p != null ==>
        Model() == GetNew(old(Model()), write) && free == old(free[1..]) && busy == [p] + old(busy)
    {
      p := headFree;
      if p == null {
        return;
      }
      TakenFirst(free, busy);
      headFree := p.next;
      p.next := headBusy;
      headBusy := p;
      p.bDone := false;
      p.rcvData := NO_DATA;
      p.bWrite := write;
      free, busy := free[1..], [p] + busy;
    }

    method GetRequestByTid(tid: nat) returns (p: Request?)
      requires Valid()
      ensures var i := Find(Model().busy, tid);
        p == if i == |busy| then null else busy[i]
    {
      p := headBusy;
      ghost var i := 0;
      while p != null && p.tid != tid
        invariant i <= |busy| && p == if i == |busy| then null else busy[i]
        invariant forall k | 0 <= k < i :: busy[k].tid != tid
        decreases |busy| - i
      {
        p := p.next;
        i := i + 1;
      }
      FoundAt(Model().busy, tid, i);
    }

    // FreeRequest; a request that is not busy is reported and left alone.
    method FreeRequest(rq: Request)
      requires Valid()
      modifies this, free, busy
      ensures Valid()
      ensures var i := Place(old(busy), rq);
        if i == |old(busy)| then Model() == old(Model()) && free == old(free) && busy == old(busy)
        else Model() == Free(old(Model()), i)
             && free == [rq] + old(free) && busy == old(busy)[..i] + old(busy)[i + 1..]
    {
      var prev: Request? := null;
      var p := headBusy;
      ghost var i := 0;
      while p != null && p != rq
        invariant i <= |busy| && p == (if i == |busy| then null else busy[i])
        invariant prev == if i == 0 then null else busy[i - 1]
        invariant forall k | 0 <= k < i :: busy[k] != rq
        decreases |busy| - i
      {
        prev := p;
        p := p.next;
        i := i + 1;
      }
      assert i == Place(busy, rq);
      if p == null {
        return;
      }
      Unlink(prev, rq, i);
    }

    // Takes the busy request at place i, after prev, and puts it first on the free list.
    method Unlink(prev: Request?, rq: Request, ghost i: nat)
      requires Valid() && i < |busy| && busy[i] == rq
      requires prev == if i == 0 then null else busy[i - 1]
      modifies this, busy
      ensures Valid() && Model() == Free(old(Model()), i)
      ensures free == [rq] + old(free) && busy == old(busy)[..i] + old(busy)[i + 1..]
    {
      RemovedFrom(free, busy, i);
      CutOut(prev, rq, i);
      rq.next := headFree;
      headFree := rq;
      free := [rq] + free;
    }

    method CutOut(prev: Request?, rq: Request, ghost i: nat)
      requires i < |busy| && busy[i] == rq && Chain(headBusy, busy)
      requires prev == if i == 0 then null else busy[i - 1]
      requires forall j, k | 0 <= j < k < |busy| :: busy[j] != busy[k]
      modifies this`headBusy, this`busy, prev
      ensures busy == old(busy)[..i] + old(busy)[i + 1..] && Chain(headBusy, busy)
      ensures Views(busy) == Without(old(Views(busy)), i)
      ensures prev != null ==> prev.View() == old(prev.View())
    {
      if prev == null {
        headBusy := rq.next;
      } else {
        prev.next := rq.next;
      }
      busy := busy[..i] + busy[i + 1..];
    }

    // rcv_rsp of the wrapper.
    method RcvRsp(unblocking: bool, tid: nat, data: nat)
      requires Valid()
      modifies this, free, busy
      ensures Valid() && Model() == Receive(old(Model()), unblocking, tid, data)
    {
      var localrq := GetRequestByTid(tid);
      if localrq == null {
        return;
      }
      ghost var i := Find(Model().busy, tid);
      OnlyOnce(free, busy, i);
      if unblocking && localrq.bWrite {
        FreeRequest(localrq);
        return;
      }
      localrq.rcvData := data;
      localrq.bDone := true;
    }
  }

  // ---------- lists of nodes ----------

  lemma TakenFirst(free: seq<Request>, busy: seq<Request>)
    requires NoneTwice(free + busy) && free != []
    ensures NoneTwice(free[1..] + ([free[0]] + busy)) && free[0] !in free[1..] && free[0] !in busy
  {
    var s, s' := free + busy, free[1..] + ([free[0]] + busy);
    assert forall i | 0 <= i < |s'| ::
        s'[i] == s[if i + 1 < |free| then i + 1 else if i + 1 == |free| then 0 else i];
    assert free[0] == s[0];
    assert forall i | 0 < i < |free| :: free[i] == s[i] != s[0];
    assert forall i | 0 <= i < |busy| :: busy[i] == s[|free| + i] != s[0];
  }

  lemma RemovedFrom(free: seq<Request>, busy: seq<Request>, i: nat)
    requires NoneTwice(free + busy) && i < |busy|
    ensures NoneTwice(([busy[i]] + free) + (busy[..i] + busy[i + 1..]))
    ensures forall k | 0 <= k < |busy| && k != i :: busy[k] != busy[i]
    ensures forall j, k | 0 <= j < k < |busy| :: busy[j] != busy[k]
    ensures forall j, k | 0 <= j < |free| && 0 <= k < |busy| :: free[j] != busy[k]
  {
    var n := |free|;
    var s, s' := free + busy, ([busy[i]] + free) + (busy[..i] + busy[i + 1..]);
    assert forall k | 0 <= k < |s'| :: s'[k] == s[if k == 0 then n + i else if k <= n + i then k - 1 else k];
    assert forall k | 0 <= k < |busy| :: busy[k] == s[n + k];
    assert forall k | 0 <= k < |free| :: free[k] == s[k];
  }

  lemma OnlyOnce(free: seq<Request>, busy: seq<Request>, i: nat)
    requires NoneTwice(free + busy) && i < |busy|
    ensures forall k | 0 <= k < |busy| && k != i :: busy[k] != busy[i]
  {
    RemovedFrom(free, busy, i);
  }

  lemma FoundAt(busy: seq<Entry>, tid: nat, i: nat)
    requires i <= |busy| && (i < |busy| ==> busy[i].tid == tid) && forall k | 0 <= k < i :: busy[k].tid != tid
    ensures Find(busy, tid) == i
  {
  }
}

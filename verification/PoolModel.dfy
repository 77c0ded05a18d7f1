/**
 The request pool of a CPU wrapper, on values: the free list holds transaction ids, the busy
 list the requests that are under way, both in list order.
 */
module PoolModel {

  // rcv_data of a request that has not been answered.
  const NO_DATA: nat := 0xDEADDEAD

  const POOL_SIZE: nat := 100

  datatype Entry = Entry(tid: nat, write: bool, done: bool, data: nat)

  datatype Pool = Pool(free: seq<nat>, busy: seq<Entry>)

  // GetNewRequest, and the bWrite flag that its callers set at once.
  function GetNew(p: Pool, write: bool): Pool
    requires p.free != []
  {
    Pool(p.free[1..], [Entry(p.free[0], write, false, NO_DATA)] + p.busy)
  }

  // GetRequestByTid: the place of the first busy request with that tid, or the end of the list.
  function Find(busy: seq<Entry>, tid: nat): (i: nat)
    ensures i <= |busy|
    ensures i < |busy| ==> busy[i].tid == tid
    ensures forall k | 0 <= k < i :: busy[k].tid != tid
  {
    if busy == [] || busy[0].tid == tid then 0 else Find(busy[1..], tid) + 1
  }

  function Without(busy: seq<Entry>, i: nat): seq<Entry>
    requires i < |busy|
  {
    busy[..i] + busy[i + 1..]
  }

  // FreeRequest of the busy request at place i.
  function Free(p: Pool, i: nat): Pool
    requires i < |p.busy|
  {
    Pool([p.busy[i].tid] + p.free, Without(p.busy, i))
  }

  // rcv_rsp: the answer to a write that did not block frees its request, any other answer is kept
  // for the thread that waits; an answer with an unknown tid is dropped.
  function Receive(p: Pool, unblocking: bool, tid: nat, data: nat): Pool {
    var i := Find(p.busy, tid);
    if i == |p.busy| then p
    else if unblocking && p.busy[i].write then Free(p, i)
    else p.(busy := p.busy[i := p.busy[i].(done := true, data := data)])
  }

  function Initial(): Pool {
    Pool(seq(POOL_SIZE, i => i + 1), [])
  }

  function Tids(busy: seq<Entry>): (r: seq<nat>)
    ensures |r| == |busy|
    ensures forall i | 0 <= i < |busy| :: r[i] == busy[i].tid
  {
    seq(|busy|, i requires 0 <= i < |busy| => busy[i].tid)
  }

  ghost predicate Distinct(s: seq<nat>) {
    forall i, j | 0 <= i < j < |s| :: s[i] != s[j]
  }

  // Every request is on exactly one of the two lists.
  ghost predicate Sound(p: Pool) {
    && |p.free| + |p.busy| == POOL_SIZE
    && Distinct(p.free + Tids(p.busy))
  }

  lemma InitialIsSound()
    ensures Sound(Initial())
  {
  }

  lemma GetNewKeepsSound(p: Pool, write: bool)
    requires Sound(p) && p.free != []
    ensures Sound(GetNew(p, write))
  {
    var p' := GetNew(p, write);
    var s, s' := p.free + Tids(p.busy), p'.free + Tids(p'.busy);
    assert forall i | 0 <= i < |s'| ::
        s'[i] == s[if i < |p'.free| then i + 1 else if i == |p'.free| then 0 else i];
  }

  lemma FreeKeepsSound(p: Pool, i: nat)
    requires Sound(p) && i < |p.busy|
    ensures Sound(Free(p, i))
  {
    var p' := Free(p, i);
    var n := |p.free|;
    var s, s' := p.free + Tids(p.busy), p'.free + Tids(p'.busy);
    assert forall k | 0 <= k < |s'| ::
        s'[k] == s[if k == 0 then n + i else if k <= n + i then k - 1 else k];
  }

  lemma FindIs(busy: seq<Entry>, i: nat)
    requires i < |busy| && Distinct(Tids(busy))
    ensures Find(busy, busy[i].tid) == i
  {
    var f := Find(busy, busy[i].tid);
    assert f <= i && Tids(busy)[f] == Tids(busy)[i];
  }

  lemma SoundBusyDistinct(p: Pool)
    requires Sound(p)
    ensures Distinct(Tids(p.busy))
  {
    var s := p.free + Tids(p.busy);
    assert forall i | 0 <= i < |p.busy| :: Tids(p.busy)[i] == s[|p.free| + i];
  }

  // A request that is freed is the next one to be given out, and one that has just been given out is
  // put back where it was.
  lemma FreedIsNext(p: Pool, i: nat, write: bool)
    requires i < |p.busy|
    ensures Free(p, i).free != []
    ensures GetNew(Free(p, i), write)
            == Pool(p.free, [Entry(p.busy[i].tid, write, false, NO_DATA)] + Without(p.busy, i))
    ensures p.free != [] ==> Free(GetNew(p, write), 0) == p
  {
    if p.free != [] {
      assert [p.free[0]] + p.free[1..] == p.free;
      assert Without(GetNew(p, write).busy, 0) == p.busy;
    }
  }

  // Without keeps all others, in their order.
  lemma WithoutIs(busy: seq<Entry>, i: nat, k: nat)
    requires i < |busy|
    ensures |Without(busy, i)| == |busy| - 1
    ensures k < |busy| - 1 ==> Without(busy, i)[k] == busy[if k < i then k else k + 1]
  {
  }
}

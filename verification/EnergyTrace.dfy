/**
 The objects of etrace_if.cpp: the linked list of samples, the linked list of peripherals and
 the scope that owns both.  Each method is proved against its pure form in EnergyModel, so the
 theorems of EnergyAccounting speak about these lists.
 */
module EnergyTrace {
  import opened Arithmetic
  import opened EnergyModel

  class Sample {
    var next: Sample?
    var timeStamp: nat
    var costs: seq<PerCost>

    ghost function View(): Window
      reads this
    {
      Window(timeStamp, costs)
    }

    // sample_new: the stamp is the end of the period that follows the previous stamp.
    constructor (prevStamp: nat, period: nat)
      ensures next == null && View() == Fresh(prevStamp + period)
    {
      next := null;
      timeStamp := prevStamp + period;
      costs := seq(MAX_PERIPHERALS, _ => PerCost(false, 0));
    }

    // The part of one round of __r_update_samples that touches this sample.
    method ChargeHere(p: Periph, period: nat, lastTime: nat, time: nat)
      requires 0 < period && p.View().Valid() && p.lastChange < time && lastTime < time
      requires timeStamp == lastTime + period && |costs| == MAX_PERIPHERALS
      modifies this`costs
      ensures View() == old(View()).(costs := old(costs)[p.idx := HeadEntry(old(View()), period, p.View(), time)])
    {
      costs := costs[p.idx := costs[p.idx].(processed := true)];
      if timeStamp >= p.lastChange {
        var beginStamp := if lastTime < p.lastChange then p.lastChange else lastTime;
        var endStamp := if time > timeStamp then timeStamp else time;
        var spent := (endStamp - beginStamp) * p.View().CurrentCost();
        costs := costs[p.idx := costs[p.idx].(energy := (costs[p.idx].energy + spent) % TWO64)];
      }
    }

    // One round of the loop in get_sample.
    method SettleHere(p: Periph, period: nat, time: nat)
      requires p.View().Valid() && |costs| == MAX_PERIPHERALS
      modifies this`costs
      ensures View() == Settle(old(View()), period, p.View(), time)
    {
      var pc := costs[p.idx];
      var updateEn := Extra(pc, period, p.View(), time);
      costs := costs[p.idx := pc.(energy := (pc.energy + updateEn) % TWO64)];
    }
  }

  class Periph {
    const pclass: PeriphClass
    const groupId: nat
    var next: Periph?
    var idx: nat
    var lastChange: nat
    var currMode: nat
    var currFvset: nat

    function View(): PeriphState
      reads this
    {
      PeriphState(pclass, idx, lastChange, currMode, currFvset)
    }

    constructor (pclass: PeriphClass, groupId: nat)
      ensures this.pclass == pclass && this.groupId == groupId && next == null
      ensures View() == PeriphState(pclass, 0, 0, 0, 0)
    {
      this.pclass, this.groupId, next := pclass, groupId, null;
      idx, lastChange, currMode, currFvset := 0, 0, 0, 0;
    }

    // The last lines of etrace_if_mode_change.
    method Select(mode: nat, fvset: nat, time: nat)
      modifies this`currMode, this`currFvset, this`lastChange
      ensures View() == old(View()).(mode := mode, fvset := fvset, last := time)
    {
      currMode, currFvset, lastChange := mode, fvset, time;
    }
  }

  // The nodes of the list that starts at head, in order.
  ghost predicate Chained(head: Sample?, s: seq<Sample>)
    reads s
  {
    if s == [] then head == null
    else head == s[0] && s[0] !in s[1..] && Chained(s[0].next, s[1..])
  }

  ghost function Windows(s: seq<Sample>): (ws: seq<Window>)
    reads s
    ensures |ws| == |s|
  {
    if s == [] then [] else [s[0].View()] + Windows(s[1..])
  }

  // Pushing a node in front of a chain it is not part of.
  lemma ChainCons(n: Sample, s: seq<Sample>)
    requires n !in s && Chained(n.next, s)
    ensures Chained(n, [n] + s) && Windows([n] + s) == [n.View()] + Windows(s)
  {
    assert ([n] + s)[1..] == s;
  }

  // __r_update_samples: a null sample is replaced by a new one at the end of the list.
  method UpdateFrom(sample: Sample?, period: nat, p: Periph, time: nat, lastTime: nat, ghost chain: seq<Sample>)
    returns (head: Sample?, ghost newChain: seq<Sample>)
    requires 0 < period && p.View().Valid() && p.lastChange < time
    requires Chained(sample, chain) && Shaped(Windows(chain), lastTime, period)
    modifies chain
    ensures Chained(head, newChain)
    ensures Windows(newChain) == Charge(old(Windows(chain)), period, p.View(), time, lastTime)
    ensures forall x | x in newChain :: x in chain || fresh(x)
    decreases if time > lastTime then time - lastTime else 0, 1
  {
    head, newChain := sample, chain;
    if time > lastTime {
      if sample == null {
        var s := new Sample(lastTime, period);
        newChain := UpdateSample(s, period, p, time, lastTime, []);
        head := s;
      } else {
        newChain := UpdateSample(sample, period, p, time, lastTime, chain[1..]);
      }
    }
  }

  // The rest of __r_update_samples, for an existing sample that an update reaches.
  method UpdateSample(s: Sample, period: nat, p: Periph, time: nat, lastTime: nat, ghost rest: seq<Sample>)
    returns (ghost newChain: seq<Sample>)
    requires 0 < period && p.View().Valid() && p.lastChange < time && lastTime < time
    requires s !in rest && Chained(s.next, rest)
    requires s.timeStamp == lastTime + period && |s.costs| == MAX_PERIPHERALS
    requires Shaped(Windows(rest), s.timeStamp, period)
    modifies s, rest
    ensures Chained(s, newChain)
    ensures var w := old(s.View());
      Windows(newChain) ==
        [w.(costs := w.costs[p.idx := HeadEntry(w, period, p.View(), time)])]
        + if time > w.stamp then Charge(old(Windows(rest)), period, p.View(), time, w.stamp) else old(Windows(rest))
    ensures forall x | x in newChain :: x == s || x in rest || fresh(x)
    decreases time - lastTime, 0
  {
    s.ChargeHere(p, period, lastTime, time);
    ghost var tail := rest;
    if s.timeStamp < p.lastChange || time > s.timeStamp {
      var n;
      n, tail := UpdateFrom(s.next, period, p, time, s.timeStamp, rest);
      s.next := n;
    }
    ChainCons(s, tail);
    newChain := [s] + tail;
  }

  // ---------- the list of peripherals ----------

  ghost function NodeAt(ps: seq<Periph>, i: nat): Periph? {
    if i < |ps| then ps[i] else null
  }

  ghost predicate Listed(head: Periph?, ps: seq<Periph>)
    reads ps
  {
    && head == NodeAt(ps, 0)
    && (forall i {:trigger ps[i].next} | 0 <= i < |ps| :: ps[i].next == NodeAt(ps, i + 1))
    && (forall i, j | 0 <= i < j < |ps| :: ps[i] != ps[j])
  }

  ghost function Views(ps: seq<Periph>): (vs: seq<PeriphState>)
    reads ps
    ensures |vs| == |ps|
    ensures forall i | 0 <= i < |ps| :: vs[i] == ps[i].View()
  {
    seq(|ps|, i requires 0 <= i < |ps| reads ps => ps[i].View())
  }

  ghost predicate SortedByGroup(ps: seq<Periph>) {
    forall i, j | 0 <= i < j < |ps| :: ps[i].groupId <= ps[j].groupId
  }

  ghost function Insert(ps: seq<Periph>, p: Periph, k: nat): (qs: seq<Periph>)
    requires k <= |ps|
    ensures |qs| == |ps| + 1
    ensures forall i | 0 <= i < |qs| :: qs[i] == if i < k then ps[i] else if i == k then p else ps[i - 1]
  {
    ps[..k] + [p] + ps[k..]
  }

  // Linking p in at place k.
  lemma InsertedIsListed(head: Periph?, ps: seq<Periph>, p: Periph, k: nat)
    requires k <= |ps| && p !in ps && forall i, j | 0 <= i < j < |ps| :: ps[i] != ps[j]
    requires head == if k == 0 then p else ps[0]
    requires p.next == NodeAt(ps, k)
    requires forall i {:trigger ps[i].next} | 0 <= i < |ps| :: ps[i].next == if i + 1 == k then p else NodeAt(ps, i + 1)
    ensures Listed(head, Insert(ps, p, k))
  {
  }

  lemma InsertedIsSorted(ps: seq<Periph>, p: Periph, k: nat)
    requires k <= |ps| && SortedByGroup(ps)
    requires forall i | 0 <= i < k :: ps[i].groupId <= p.groupId
    requires k < |ps| ==> p.groupId < ps[k].groupId
    ensures SortedByGroup(Insert(ps, p, k))
  {
  }

  // The loop of add_periph: after every peripheral of the same or a smaller group.
  method LinkIn(head: Periph?, p: Periph, ghost ps: seq<Periph>) returns (newHead: Periph?, ghost place: nat)
    requires Listed(head, ps) && SortedByGroup(ps) && p !in ps
    modifies p`next, ps`next
    ensures place <= |ps| && Listed(newHead, Insert(ps, p, place)) && SortedByGroup(Insert(ps, p, place))
    ensures forall i | 0 <= i < |ps| :: i < place <==> ps[i].groupId <= p.groupId
  {
    var prev: Periph? := null;
    var cur := head;
    place := 0;
    while cur != null && p.groupId >= cur.groupId
      invariant place <= |ps| && cur == NodeAt(ps, place)
      invariant prev == if place == 0 then null else ps[place - 1]
      invariant forall i | 0 <= i < place :: ps[i].groupId <= p.groupId
      decreases |ps| - place
    {
      prev, cur, place := cur, cur.next, place + 1;
    }
    InsertedIsSorted(ps, p, place);
    p.next := cur;
    if prev == null {
      newHead := p;
    } else {
      prev.next := p;
      newHead := head;
    }
    InsertedIsListed(newHead, ps, p, place);
  }

  // ---------- the scope ----------

  class Scope {
    const period: nat
    var samplesHead: Sample?
    var lastMeasureStamp: nat
    var headPeriphs: Periph?
    var nbGroups: nat
    ghost var samples: seq<Sample>
    ghost var periphs: seq<Periph>

    ghost predicate Linked()
      reads this, samples, periphs
    {
      Chained(samplesHead, samples) && Listed(headPeriphs, periphs)
    }

    ghost function State(): Trace
      reads this, samples, periphs
    {
      Trace(period, lastMeasureStamp, Windows(samples), Views(periphs))
    }

    ghost predicate Valid()
      reads this, samples, periphs
    {
      Linked() && State().Valid()
    }

    constructor (period: nat)
      ensures Linked() && samples == [] && periphs == []
      ensures State() == Trace(period, 0, [], []) && nbGroups == 0
    {
      this.period := period;
      samplesHead, lastMeasureStamp, headPeriphs, nbGroups := null, 0, null, 0;
      samples, periphs := [], [];
    }

    // add_periph; a negative group asks for a new one.
    method AddPeriph(pclass: PeriphClass, group: int) returns (p: Periph, groupId: nat, ghost place: nat)
      requires Linked() && SortedByGroup(periphs)
      modifies this`headPeriphs, this`periphs, this`nbGroups, periphs`next
      ensures Linked() && SortedByGroup(periphs) && fresh(p)
      ensures groupId == (if group < 0 then old(nbGroups) else group) && p.groupId == groupId
      ensures nbGroups == old(nbGroups) + if group < 0 then 1 else 0
      ensures p.View() == PeriphState(pclass, 0, 0, 0, 0)
      ensures place <= |old(periphs)| && periphs == Insert(old(periphs), p, place)
      ensures forall i | 0 <= i < |old(periphs)| :: i < place <==> old(periphs)[i].groupId <= groupId
      ensures forall q | q in old(periphs) :: q.View() == old(q.View())
    {
      groupId := if group < 0 then nbGroups else group;
      if group < 0 {
        nbGroups := nbGroups + 1;
      }
      p := new Periph(pclass, groupId);
      headPeriphs, place := LinkIn(headPeriphs, p, periphs);
      periphs := Insert(periphs, p, place);
    }

    // The part of display_init that numbers the peripherals, group by group.
    method AssignSlots()
      requires Linked()
      modifies periphs`idx
      ensures Linked()
      ensures forall i | 0 <= i < |periphs| :: periphs[i].View() == old(periphs[i].View()).(idx := i)
    {
      var i := 0;
      var pperiph := headPeriphs;
      while pperiph != null
        invariant i <= |periphs| && pperiph == NodeAt(periphs, i)
        invariant forall k | 0 <= k < i :: periphs[k].idx == k
        decreases |periphs| - i
      {
        var groupId := pperiph.groupId;
        var tp, j := pperiph, i;
        while tp != null && tp.groupId == groupId
          invariant i <= j <= |periphs| && tp == NodeAt(periphs, j)
          invariant tp == pperiph || i < j
          invariant forall k | 0 <= k < j :: periphs[k].idx == k
          decreases |periphs| - j
        {
          tp.idx := j;
          j := j + 1;
          tp := tp.next;
        }
        i := j;
        pperiph := tp;
      }
    }

    // Numbered this way, at most twenty peripherals have a slot each.
    lemma SlotsAreValid()
      requires Linked() && samples == [] && lastMeasureStamp == 0 && 0 < period <= MAX_STAMP
      requires |periphs| <= MAX_PERIPHERALS && forall i | 0 <= i < |periphs| :: periphs[i].idx == i
      requires forall p | p in periphs :: p.View().(idx := 0).Valid()
      ensures Valid()
    {
    }

    // update_samples
    method UpdateSamples(p: Periph, time: nat)
      requires 0 < period && p.View().Valid() && p.lastChange < time
      requires Chained(samplesHead, samples) && Shaped(Windows(samples), lastMeasureStamp, period)
      modifies this`samplesHead, this`samples, samples
      ensures Chained(samplesHead, samples)
      ensures Windows(samples) == Charge(old(Windows(samples)), period, p.View(), time, lastMeasureStamp)
    {
      ghost var chain;
      samplesHead, chain := UpdateFrom(samplesHead, period, p, time, lastMeasureStamp, samples);
      samples := chain;
    }

    // The second half of etrace_if_mode_change, once the request has been accepted.
    method Accepted(p: Periph, mode: nat, fvset: nat, time: nat, ghost i: nat)
      requires Linked() && i < |periphs| && periphs[i] == p && p.lastChange <= time
      requires 0 < period && p.View().Valid() && Shaped(Windows(samples), lastMeasureStamp, period)
      modifies this`samplesHead, this`samples, samples, p
      ensures Linked()
      ensures Windows(samples) == var ws := old(Windows(samples));
        if time > old(p.lastChange) then Charge(ws, period, old(p.View()), time, lastMeasureStamp) else ws
      ensures Views(periphs) == old(Views(periphs))[i := old(p.View()).(last := time, mode := mode, fvset := fvset)]
    {
      if time > p.lastChange {
        UpdateSamples(p, time);
      }
      assert Views(periphs) == old(Views(periphs));
      SelectAt(p, mode, fvset, time, i);
    }

    // The registers of one peripheral change, the lists do not.
    method SelectAt(p: Periph, mode: nat, fvset: nat, time: nat, ghost i: nat)
      requires Linked() && i < |periphs| && periphs[i] == p
      modifies p`currMode, p`currFvset, p`lastChange
      ensures Linked() && Windows(samples) == old(Windows(samples))
      ensures Views(periphs) == old(Views(periphs))[i := old(p.View()).(last := time, mode := mode, fvset := fvset)]
    {
      p.Select(mode, fvset, time);
      assert p.View() == old(p.View()).(last := time, mode := mode, fvset := fvset);
    }

    // etrace_if_mode_change; i is the place of the peripheral in the list.  By the contract of
    // ModeChange the new state is valid again.
    method RequestMode(p: Periph, word: nat, time: nat, ghost i: nat)
      requires Valid() && i < |periphs| && periphs[i] == p && time <= MAX_STAMP
      modifies this`samplesHead, this`samples, samples, p
      ensures Linked()
      ensures State() == ModeChange(old(State()), i, word, time)
    {
      ghost var t := State();
      assert p.View() == t.periphs[i] && t.periphs[i] in t.periphs;
      var newMode, newFvset := ModeOf(word), FvsetOf(word);
      if newMode >= p.pclass.nmodes || newFvset >= p.pclass.nfvsets || time < p.lastChange {
        return;
      }
      Accepted(p, newMode, newFvset, time, i);
    }

    // The loop of get_sample over the peripherals.
    method SettlePeriphs(samp: Sample, time: nat)
      requires Listed(headPeriphs, periphs) && |samp.costs| == MAX_PERIPHERALS
      requires forall p | p in periphs :: p.View().Valid()
      modifies samp`costs
      ensures (forall v | v in Views(periphs) :: v.Valid())
      ensures samp.View() == SettleAll(old(samp.View()), period, Views(periphs), time)
    {
      ghost var vs := Views(periphs);
      ghost var k := 0;
      var p := headPeriphs;
      while p != null
        invariant k <= |periphs| && p == NodeAt(periphs, k)
        invariant |samp.costs| == MAX_PERIPHERALS
        invariant SettleAll(samp.View(), period, vs[k..], time) == SettleAll(old(samp.View()), period, vs, time)
        decreases |periphs| - k
      {
        assert p.View() == vs[k] && vs[k..][1..] == vs[k + 1..];
        samp.SettleHere(p, period, time);
        p, k := p.next, k + 1;
      }
    }

    // The second half of get_sample, once the right sample has been found.
    method HandOut(samp: Sample, time: nat, ghost rest: seq<Sample>)
      requires samp !in rest && Chained(samp.next, rest) && Listed(headPeriphs, periphs)
      requires |samp.costs| == MAX_PERIPHERALS && forall v | v in Views(periphs) :: v.Valid()
      modifies this`samplesHead, this`samples, this`lastMeasureStamp, samp`costs
      ensures Linked() && samples == rest && lastMeasureStamp == samp.timeStamp
      ensures Windows(rest) == old(Windows(rest)) && Views(periphs) == old(Views(periphs))
      ensures samp.View() == SettleAll(old(samp.View()), period, Views(periphs), time)
    {
      assert forall i | 0 <= i < |periphs| :: periphs[i].View() == Views(periphs)[i];
      SettlePeriphs(samp, time);
      samplesHead := samp.next;
      samples := rest;
      lastMeasureStamp := samp.timeStamp;
    }

    // get_sample.  By the contract of ReadSample the new state is valid again.
    method GetSample(time: nat) returns (samp: Sample?)
      requires Valid() && time <= MAX_STAMP
      modifies this`samplesHead, this`samples, this`lastMeasureStamp, samples
      ensures Linked()
      ensures var (w, t) := ReadSample(old(State()), time);
        && State() == t
        && (samp == null <==> w.None?)
        && (samp != null ==> samp.View() == w.value && samp !in samples)
    {
      ghost var t := State();
      samp := samplesHead;
      if samp == null {
        samp := new Sample(lastMeasureStamp, period);
      }
      ghost var rest := if samples == [] then [] else samples[1..];
      assert samp.View() == HeadWindow(t) && Chained(samp.next, rest);
      assert Windows(rest) == if t.windows == [] then [] else t.windows[1..];
      if samp.timeStamp != time {
        return null;
      }
      HandOut(samp, time, rest);
    }
  }
}

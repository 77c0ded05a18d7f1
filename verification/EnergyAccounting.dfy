/**
 Every window that get_sample hands out holds, for every peripheral, exactly the energy of the
 mode in effect at each of its instants: no gap, no double charge, over every run.
 */
module EnergyAccounting {
  import opened Arithmetic
  import opened EnergyModel

  // ---------- what one update does to the list of windows ----------

  // The instants of a window during which the mode that is now being left was in effect.
  function Overlap(w: Window, period: nat, last: nat, time: nat): nat
    requires period <= w.stamp
  {
    var lo := Max(w.stamp - period, last);
    var hi := Min(w.stamp, time);
    if lo < hi then hi - lo else 0
  }

  function Charged(w: Window, period: nat, p: PeriphState, time: nat): Window
    requires p.Valid() && period <= w.stamp && |w.costs| == MAX_PERIPHERALS
  {
    if time <= w.stamp - period then w
    else
      var e := (w.costs[p.idx].energy + Overlap(w, period, p.last, time) * p.CurrentCost()) % TWO64;
      w.(costs := w.costs[p.idx := PerCost(true, e)])
  }

  // Window k of a list that has been extended with fresh windows.
  function At(ws: seq<Window>, k: nat, stamp: nat): Window {
    if k < |ws| then ws[k] else Fresh(stamp)
  }

  lemma {:induction false} ShapedIndex(ws: seq<Window>, base: nat, period: nat)
    requires Shaped(ws, base, period)
    ensures base <= EndOf(ws, base)
    ensures forall k | 0 <= k < |ws| :: |ws[k].costs| == MAX_PERIPHERALS && base + period <= ws[k].stamp
  {
    if ws != [] {
      ShapedIndex(ws[1..], base + period, period);
      forall k | 0 <= k < |ws|
        ensures |ws[k].costs| == MAX_PERIPHERALS && base + period <= ws[k].stamp
      {
        if k > 0 {
          assert ws[k] == ws[1..][k - 1];
        }
      }
    }
  }

  // Window k of the updated list: the old one (or a fresh one) charged its own share.
  ghost predicate ChargedAt(r: seq<Window>, ws: seq<Window>, period: nat, p: PeriphState, time: nat, base: nat, k: nat)
    requires p.Valid() && k < |r|
  {
    var old' := At(ws, k, r[k].stamp);
    && period <= r[k].stamp
    && |old'.costs| == MAX_PERIPHERALS
    && old'.stamp == r[k].stamp
    && r[k] == Charged(old', period, p, time)
    && (|ws| <= k ==> EndOf(ws, base) <= r[k].stamp - period)
  }

  lemma HeadEntryIsCharged(w: Window, period: nat, p: PeriphState, time: nat)
    requires p.Valid() && p.last < time && period <= w.stamp && |w.costs| == MAX_PERIPHERALS
    requires 0 < period && w.stamp - period < time
    ensures Charged(w, period, p, time) == w.(costs := w.costs[p.idx := HeadEntry(w, period, p, time)])
  {
    if w.stamp < p.last {
      assert Overlap(w, period, p.last, time) == 0;
    } else {
      assert Overlap(w, period, p.last, time) == Min(w.stamp, time) - Max(w.stamp - period, p.last);
    }
  }

  lemma ChargeHead(ws: seq<Window>, period: nat, p: PeriphState, time: nat, base: nat)
    requires 0 < period && p.Valid() && p.last < time && Shaped(ws, base, period) && base < time
    ensures var r := Charge(ws, period, p, time, base);
      var rest := if ws == [] then [] else ws[1..];
      && |r| > 0 && r[0].stamp == base + period && Shaped(rest, base + period, period)
      && ChargedAt(r, ws, period, p, time, base, 0)
      && r[1..] == if time > base + period then Charge(rest, period, p, time, base + period) else rest
  {
    var w := At(ws, 0, base + period);
    HeadEntryIsCharged(w, period, p, time);
  }

  // What ChargeIsPointwise says of the updated list r.
  ghost predicate Pointwise(r: seq<Window>, ws: seq<Window>, period: nat, p: PeriphState, time: nat, base: nat)
    requires p.Valid()
  {
    && Shaped(r, base, period)
    && |ws| <= |r|
    && time <= EndOf(r, base)
    && EndOf(ws, base) <= EndOf(r, base)
    && forall k | 0 <= k < |r| :: ChargedAt(r, ws, period, p, time, base, k)
  }

  // The recursion visits each window once: it extends the list far enough, charges every
  // window its own share and leaves the windows after the change alone.
  lemma {:induction false} ChargeIsPointwise(ws: seq<Window>, period: nat, p: PeriphState, time: nat, base: nat)
    requires 0 < period && p.Valid() && p.last < time && Shaped(ws, base, period)
    ensures Pointwise(Charge(ws, period, p, time, base), ws, period, p, time, base)
    decreases if time > base then time - base else 0
  {
    var r := Charge(ws, period, p, time, base);
    if time > base {
      ChargeHead(ws, period, p, time, base);
      var rest := if ws == [] then [] else ws[1..];
      if time > base + period {
        ChargeIsPointwise(rest, period, p, time, base + period);
      } else {
        UntouchedIsPointwise(rest, period, p, time, base + period);
      }
      ChargeTail(r, r[1..], ws, rest, period, p, time, base);
    } else {
      UntouchedIsPointwise(ws, period, p, time, base);
    }
  }

  lemma UntouchedIsPointwise(ws: seq<Window>, period: nat, p: PeriphState, time: nat, base: nat)
    requires 0 < period && p.Valid() && Shaped(ws, base, period) && time <= base
    ensures Pointwise(ws, ws, period, p, time, base)
  {
    ShapedIndex(ws, base, period);
  }

  lemma ChargeTail(r: seq<Window>, tail: seq<Window>, ws: seq<Window>, rest: seq<Window>,
                   period: nat, p: PeriphState, time: nat, base: nat)
    requires 0 < period && p.Valid() && Shaped(ws, base, period) && r != [] && tail == r[1..]
    requires rest == if ws == [] then [] else ws[1..]
    requires r[0].stamp == base + period && ChargedAt(r, ws, period, p, time, base, 0)
    requires Pointwise(tail, rest, period, p, time, base + period)
    ensures Pointwise(r, ws, period, p, time, base)
  {
    ShapedIndex(ws, base, period);
    assert EndOf(r, base) == EndOf(tail, base + period);
    forall k | 0 <= k < |r|
      ensures ChargedAt(r, ws, period, p, time, base, k)
    {
      if k > 0 {
        assert r[k] == tail[k - 1];
        assert At(ws, k, r[k].stamp) == At(rest, k - 1, r[k].stamp);
        assert ChargedAt(tail, rest, period, p, time, base + period, k - 1);
      }
    }
  }

  // ---------- the accounting invariant ----------

  // The peripheral's registers hold the last entry of its history.
  ghost predicate Matches(p: PeriphState, h: History) {
    && p.Valid() && LegalHistory(p.pclass, h)
    && p.last == LastStamp(h)
    && p.mode == (if h == [] then 0 else h[|h| - 1].mode)
    && p.fvset == (if h == [] then 0 else h[|h| - 1].fvset)
  }

  // A window holds the energy of its instants up to the last change, and says it is processed
  // exactly when the last change lies after its start.
  ghost predicate Exact(w: Window, period: nat, p: PeriphState, h: History)
    requires Matches(p, h)
  {
    && period <= w.stamp && |w.costs| == MAX_PERIPHERALS
    && w.costs[p.idx].processed == (w.stamp - period < p.last)
    && w.costs[p.idx].energy == Energy(p.pclass, h, w.stamp - period, Min(p.last, w.stamp)) % TWO64
  }

  ghost predicate Accounted(t: Trace, hs: seq<History>) {
    && t.Valid() && |hs| == |t.periphs|
    && (forall i | 0 <= i < |hs| :: Matches(t.periphs[i], hs[i]) && t.periphs[i].last <= EndOf(t.windows, t.base))
    && (forall i, k | 0 <= i < |hs| && 0 <= k < |t.windows| :: Exact(t.windows[k], t.period, t.periphs[i], hs[i]))
  }

  // Adding modulo 2^64 window by window adds up.
  lemma AddModulo(e: nat, a: nat, b: nat, c: nat)
    requires e == a % TWO64 && a + b == c
    ensures (e + b) % TWO64 == c % TWO64
  {
    var k := c / TWO64 - a / TWO64;
    assert e + b == k * TWO64 + c % TWO64;
    ModuloUnique(e + b, k, c % TWO64);
  }

  lemma ModuloUnique(x: nat, k: int, r: nat)
    requires x == k * TWO64 + r && r < TWO64
    ensures x % TWO64 == r
  {
  }

  // The window's own share is the energy between the last change and the new one.
  lemma OverlapIsEnergy(w: Window, period: nat, p: PeriphState, h: History, time: nat)
    requires Matches(p, h) && p.last <= time && period <= w.stamp
    ensures var start := w.stamp - period;
      time > start ==>
        Energy(p.pclass, h, start, Min(p.last, w.stamp)) + Overlap(w, period, p.last, time) * p.CurrentCost()
        == Energy(p.pclass, h, start, Min(time, w.stamp))
  {
    var start := w.stamp - period;
    if time > start {
      var lo, hi := Max(start, p.last), Min(w.stamp, time);
      if lo < hi {
        EnergySplit(p.pclass, h, start, lo, hi);
        EnergyAfterLastChange(p.pclass, h, lo, hi);
      }
    }
  }

  lemma ChargedEnergy(w: Window, period: nat, p: PeriphState, h: History, c: Change)
    requires Exact'(w, period, p, h) && p.last <= c.stamp && LegalHistory(p.pclass, h + [c])
    ensures |w.costs| == MAX_PERIPHERALS && period <= w.stamp
    ensures w.stamp - period < c.stamp ==>
      (w.costs[p.idx].energy + Overlap(w, period, p.last, c.stamp) * p.CurrentCost()) % TWO64
      == Energy(p.pclass, h + [c], w.stamp - period, Min(c.stamp, w.stamp)) % TWO64
  {
    var start := w.stamp - period;
    EnergyBeforeChange(p.pclass, h, c, start, Min(c.stamp, w.stamp));
    if c.stamp > start {
      OverlapIsEnergy(w, period, p, h, c.stamp);
      AddModulo(w.costs[p.idx].energy, Energy(p.pclass, h, start, Min(p.last, w.stamp)),
                Overlap(w, period, p.last, c.stamp) * p.CurrentCost(),
                Energy(p.pclass, h, start, Min(c.stamp, w.stamp)));
    }
  }

  lemma ChargedIsExact(w: Window, period: nat, p: PeriphState, h: History, p': PeriphState, c: Change)
    requires Exact'(w, period, p, h) && p.last <= c.stamp
    requires Matches(p', h + [c]) && p'.pclass == p.pclass && p'.idx == p.idx
    ensures |w.costs| == MAX_PERIPHERALS && period <= w.stamp
    ensures Exact(Charged(w, period, p, c.stamp), period, p', h + [c])
  {
    ChargedEnergy(w, period, p, h, c);
  }

  ghost predicate Exact'(w: Window, period: nat, p: PeriphState, h: History) {
    Matches(p, h) && Exact(w, period, p, h)
  }

  // A window that no update has reached yet is exact for every peripheral.
  lemma FreshIsExact(stamp: nat, period: nat, p: PeriphState, h: History)
    requires Matches(p, h) && period <= stamp && p.last <= stamp - period
    ensures Exact(Fresh(stamp), period, p, h)
  {
  }

  // Charging one peripheral leaves the books of the others as they were.
  lemma ChargedForOthers(w: Window, period: nat, p: PeriphState, time: nat, q: PeriphState, h: History)
    requires p.Valid() && Exact'(w, period, q, h) && p.idx != q.idx
    ensures |w.costs| == MAX_PERIPHERALS && period <= w.stamp
    ensures Exact(Charged(w, period, p, time), period, q, h)
  {
  }

  lemma ChangeKeepsAccounts(t: Trace, hs: seq<History>, i: nat, word: nat, time: nat)
    requires Accounted(t, hs) && i < |hs| && time <= MAX_STAMP
    ensures var p := t.periphs[i];
      Accounted(ModeChange(t, i, word, time), hs[i := Accept(p.pclass, hs[i], word, time)])
  {
    var p := t.periphs[i];
    var h' := Accept(p.pclass, hs[i], word, time);
    var t' := ModeChange(t, i, word, time);
    var hs' := hs[i := h'];
    if h' == hs[i] {
      assert hs' == hs;
    } else {
      var c := Change(time, ModeOf(word), FvsetOf(word));
      var p' := t'.periphs[i];
      assert Matches(p', h');
      if time > p.last {
        ChargeIsPointwise(t.windows, t.period, p, time, t.base);
      }
      forall j, k | 0 <= j < |hs'| && 0 <= k < |t'.windows|
        ensures Exact(t'.windows[k], t.period, t'.periphs[j], hs'[j])
      {
        WindowAfterChange(t, hs, i, word, time, j, k);
      }
    }
  }

  // Window k before an accepted change of peripheral i, and how the change updates it.
  lemma WindowBeforeChange(t: Trace, hs: seq<History>, i: nat, word: nat, time: nat, k: nat)
    requires Accounted(t, hs) && i < |hs| && time <= MAX_STAMP
    requires var p := t.periphs[i];
      ModeOf(word) < p.pclass.nmodes && FvsetOf(word) < p.pclass.nfvsets && p.last <= time
    requires k < |ModeChange(t, i, word, time).windows|
    ensures var w' := ModeChange(t, i, word, time).windows[k];
      var w := At(t.windows, k, w'.stamp);
      && |w.costs| == MAX_PERIPHERALS && t.period <= w.stamp
      && (forall j | 0 <= j < |hs| :: Exact'(w, t.period, t.periphs[j], hs[j]))
      && w' == Charged(w, t.period, t.periphs[i], time)
  {
    var p := t.periphs[i];
    var w' := ModeChange(t, i, word, time).windows[k];
    var w := At(t.windows, k, w'.stamp);
    if time > p.last {
      ChargeIsPointwise(t.windows, t.period, p, time, t.base);
      assert ChargedAt(ModeChange(t, i, word, time).windows, t.windows, t.period, p, time, t.base, k);
    } else {
      ShapedIndex(t.windows, t.base, t.period);
      ChargeNothing(w, t.period, p, hs[i]);
    }
    forall j | 0 <= j < |hs|
      ensures Exact'(w, t.period, t.periphs[j], hs[j])
    {
      if k >= |t.windows| {
        FreshIsExact(w'.stamp, t.period, t.periphs[j], hs[j]);
      }
    }
  }

  lemma ChargeNothing(w: Window, period: nat, p: PeriphState, h: History)
    requires Exact'(w, period, p, h)
    ensures |w.costs| == MAX_PERIPHERALS && period <= w.stamp
    ensures Charged(w, period, p, p.last) == w
  {
    assert Overlap(w, period, p.last, p.last) == 0;
    if p.last > w.stamp - period {
      assert w.costs[p.idx := PerCost(true, w.costs[p.idx].energy)] == w.costs;
    }
  }

  // One window, one peripheral, across an accepted change.
  lemma WindowAfterChange(t: Trace, hs: seq<History>, i: nat, word: nat, time: nat, j: nat, k: nat)
    requires Accounted(t, hs) && i < |hs| && j < |hs| && time <= MAX_STAMP
    requires var p := t.periphs[i];
      ModeOf(word) < p.pclass.nmodes && FvsetOf(word) < p.pclass.nfvsets && p.last <= time
    requires k < |ModeChange(t, i, word, time).windows|
    ensures var t' := ModeChange(t, i, word, time);
      var h' := if j == i then hs[i] + [Change(time, ModeOf(word), FvsetOf(word))] else hs[j];
      Exact'(t'.windows[k], t.period, t'.periphs[j], h')
  {
    var p, q := t.periphs[i], t.periphs[j];
    var t' := ModeChange(t, i, word, time);
    WindowBeforeChange(t, hs, i, word, time, k);
    var w := At(t.windows, k, t'.windows[k].stamp);
    assert Exact'(w, t.period, q, hs[j]);
    if j == i {
      ChargedIsExact(w, t.period, p, hs[i], t'.periphs[i], Change(time, ModeOf(word), FvsetOf(word)));
    } else {
      assert p.idx != q.idx;
      ChargedForOthers(w, t.period, p, time, q, hs[j]);
    }
  }

  // ---------- reading a window ----------

  // Slots are distinct, so each peripheral is settled once and on its own slot.
  lemma {:induction false} SettleAllAt(w: Window, period: nat, ps: seq<PeriphState>, time: nat, i: nat)
    requires |w.costs| == MAX_PERIPHERALS && i < |ps| && forall p | p in ps :: p.Valid()
    requires forall a, b | 0 <= a < b < |ps| :: ps[a].idx != ps[b].idx
    ensures ps[i].Valid()
    ensures SettleAll(w, period, ps, time).costs[ps[i].idx] == Settle(w, period, ps[i], time).costs[ps[i].idx]
    decreases |ps|
  {
    var w' := Settle(w, period, ps[0], time);
    assert ps[i] in ps && ps[i].Valid();
    if i == 0 {
      SettleAllElsewhere(w', period, ps[1..], time, ps[0].idx);
    } else {
      assert ps[1..][i - 1] == ps[i];
      assert ps[0].idx != ps[i].idx;
      assert w'.costs[ps[i].idx] == w.costs[ps[i].idx];
      SettleAllAt(w', period, ps[1..], time, i - 1);
    }
  }

  lemma {:induction false} SettleAllElsewhere(w: Window, period: nat, ps: seq<PeriphState>, time: nat, idx: nat)
    requires |w.costs| == MAX_PERIPHERALS && idx < MAX_PERIPHERALS && forall p | p in ps :: p.Valid()
    requires forall a | 0 <= a < |ps| :: ps[a].idx != idx
    ensures SettleAll(w, period, ps, time).costs[idx] == w.costs[idx]
    decreases |ps|
  {
    if ps != [] {
      SettleAllElsewhere(Settle(w, period, ps[0], time), period, ps[1..], time, idx);
    }
  }

  // The end of the window after the last change is what get_sample still has to add; the
  // unsigned difference is short exactly when the last change lies inside the window.
  lemma SettleCompletes(w: Window, period: nat, p: PeriphState, h: History)
    requires Exact'(w, period, p, h) && 0 < period <= MAX_STAMP && w.stamp <= MAX_STAMP
    ensures |w.costs| == MAX_PERIPHERALS
    ensures Settle(w, period, p, w.stamp).costs[p.idx].energy
            == Energy(p.pclass, h, w.stamp - period, w.stamp) % TWO64
  {
    ExtraCompletes(w, period, p, h);
    AddModulo(w.costs[p.idx].energy, Energy(p.pclass, h, w.stamp - period, Min(p.last, w.stamp)),
              Extra(w.costs[p.idx], period, p, w.stamp), Energy(p.pclass, h, w.stamp - period, w.stamp));
    hide Energy, Extra;
  }

  lemma ExtraCompletes(w: Window, period: nat, p: PeriphState, h: History)
    requires Exact'(w, period, p, h) && 0 < period <= MAX_STAMP && w.stamp <= MAX_STAMP
    ensures |w.costs| == MAX_PERIPHERALS
    ensures Energy(p.pclass, h, w.stamp - period, Min(p.last, w.stamp)) + Extra(w.costs[p.idx], period, p, w.stamp)
            == Energy(p.pclass, h, w.stamp - period, w.stamp)
  {
    var start := w.stamp - period;
    if p.last > w.stamp {
      UnsignedDistance(w.stamp, p.last);
    } else if p.last > start {
      EnergySplit(p.pclass, h, start, p.last, w.stamp);
      EnergyAfterLastChange(p.pclass, h, p.last, w.stamp);
      ExtraInside(w.costs[p.idx], period, p, w.stamp);
    } else {
      EnergyAfterLastChange(p.pclass, h, start, w.stamp);
      ExtraIdle(w.costs[p.idx], period, p, w.stamp);
    }
  }

  lemma ExtraInside(pc: PerCost, period: nat, p: PeriphState, time: nat)
    requires p.Valid() && p.last <= time <= MAX_STAMP && time - p.last < period
    ensures Extra(pc, period, p, time) == (time - p.last) * p.CurrentCost()
  {
    UnsignedDistance(time, p.last);
    Commute(time - p.last, p.CurrentCost());
  }

  lemma ExtraIdle(pc: PerCost, period: nat, p: PeriphState, time: nat)
    requires p.Valid() && p.last <= time <= MAX_STAMP && period <= time - p.last && !pc.processed
    ensures Extra(pc, period, p, time) == period * p.CurrentCost()
  {
    UnsignedDistance(time, p.last);
    Commute(period, p.CurrentCost());
  }

  lemma Commute(a: int, b: int)
    ensures a * b == b * a
  {
  }

  lemma UnsignedDistance(a: nat, b: nat)
    requires a <= MAX_STAMP && b <= MAX_STAMP
    ensures (a - b) % TWO64 == if b <= a then a - b else a - b + TWO64
  {
  }

  // The answer to a read at the given time: a sample exactly when the caller asks for the end of
  // the oldest window, and then every peripheral's entry is the energy of its instants; otherwise
  // nothing changes.
  ghost predicate ReadsExactly(t: Trace, hs: seq<History>, time: nat)
    requires Accounted(t, hs)
  {
    var (w, t') := ReadSample(t, time);
    && (w.Some? <==> time == t.base + t.period)
    && (w.None? ==> t' == t)
    && (w.Some? ==> t'.base == time && WindowExact(w.value, t, hs) && w.value.stamp == time)
  }

  ghost predicate WindowExact(w: Window, t: Trace, hs: seq<History>)
    requires Accounted(t, hs)
  {
    && |w.costs| == MAX_PERIPHERALS && t.period <= w.stamp
    && forall i | 0 <= i < |hs| :: SlotExact(w, t.period, t.periphs[i], hs[i])
  }

  ghost predicate SlotExact(w: Window, period: nat, p: PeriphState, h: History)
    requires p.Valid() && LegalHistory(p.pclass, h) && |w.costs| == MAX_PERIPHERALS && period <= w.stamp
  {
    w.costs[p.idx].energy == Energy(p.pclass, h, w.stamp - period, w.stamp) % TWO64
  }

  lemma HeadSlotIsExact(t: Trace, hs: seq<History>, i: nat)
    requires Accounted(t, hs) && i < |hs| && HeadWindow(t).stamp <= MAX_STAMP
    ensures var w := SettleAll(HeadWindow(t), t.period, t.periphs, HeadWindow(t).stamp);
      t.period <= w.stamp && SlotExact(w, t.period, t.periphs[i], hs[i])
  {
    var w := HeadWindow(t);
    if t.windows == [] {
      FreshIsExact(w.stamp, t.period, t.periphs[i], hs[i]);
    }
    assert Exact'(w, t.period, t.periphs[i], hs[i]);
    SettleCompletes(w, t.period, t.periphs[i], hs[i]);
    SettleAllAt(w, t.period, t.periphs, w.stamp, i);
  }

  // Dropping the oldest window keeps the books of the others.
  lemma TailIsAccounted(t: Trace, hs: seq<History>)
    requires Accounted(t, hs) && t.base + t.period <= MAX_STAMP
    ensures Accounted(t.(windows := if t.windows == [] then [] else t.windows[1..], base := t.base + t.period), hs)
  {
    var t' := t.(windows := if t.windows == [] then [] else t.windows[1..], base := t.base + t.period);
    ShapedIndex(t.windows, t.base, t.period);
    ShapedIndex(t'.windows, t'.base, t'.period);
    assert forall k | 0 <= k < |t'.windows| :: t'.windows[k] == t.windows[k + 1];
  }

  lemma ReadIsExact(t: Trace, hs: seq<History>, time: nat)
    requires Accounted(t, hs) && time <= MAX_STAMP
    ensures ReadsExactly(t, hs, time)
    ensures Accounted(ReadSample(t, time).1, hs)
  {
    if HeadWindow(t).stamp == time {
      forall i | 0 <= i < |hs|
        ensures SlotExact(ReadSample(t, time).0.value, t.period, t.periphs[i], hs[i])
      {
        HeadSlotIsExact(t, hs, i);
      }
      TailIsAccounted(t, hs);
    }
  }

  // ---------- runs ----------

  datatype Event = Request(periph: nat, word: nat, time: nat) | Sample(time: nat)

  ghost predicate LegalEvent(n: nat, e: Event) {
    e.time <= MAX_STAMP && (e.Request? ==> e.periph < n)
  }

  // The state of the world: what the code keeps, what has been asked of it, what it has handed out.
  datatype World = World(trace: Trace, histories: seq<History>, samples: seq<Window>)

  ghost predicate Booted(s: World) {
    && s.trace.Valid() && s.trace.base == 0 && s.trace.windows == [] && s.samples == []
    && |s.histories| == |s.trace.periphs|
    && (forall h | h in s.histories :: h == [])
    && (forall p | p in s.trace.periphs :: p.last == 0 && p.mode == 0 && p.fvset == 0)
  }

  ghost function Step(s: World, e: Event): World
    requires s.trace.Valid() && |s.histories| == |s.trace.periphs| && LegalEvent(|s.histories|, e)
  {
    match e
    case Request(i, word, time) =>
      var h := Accept(s.trace.periphs[i].pclass, s.histories[i], word, time);
      s.(trace := ModeChange(s.trace, i, word, time), histories := s.histories[i := h])
    case Sample(time) =>
      var (w, t) := ReadSample(s.trace, time);
      s.(trace := t, samples := if w.Some? then s.samples + [w.value] else s.samples)
  }

  ghost predicate Sound(s: World) {
    Accounted(s.trace, s.histories)
  }

  lemma StepKeepsAccounts(s: World, e: Event)
    requires Sound(s) && LegalEvent(|s.histories|, e)
    ensures Sound(Step(s, e)) && |Step(s, e).histories| == |s.histories|
    ensures Step(s, e).trace.period == s.trace.period
  {
    match e
    case Request(i, word, time) =>
      ChangeKeepsAccounts(s.trace, s.histories, i, word, time);
    case Sample(time) =>
      ReadIsExact(s.trace, s.histories, time);
  }

  ghost function Run(s: World, es: seq<Event>): (r: World)
    requires Sound(s) && forall e | e in es :: LegalEvent(|s.histories|, e)
    ensures Sound(r) && |r.histories| == |s.histories| && r.trace.period == s.trace.period
  {
    if es == [] then s
    else
      var m := Run(s, es[..|es| - 1]);
      StepKeepsAccounts(m, es[|es| - 1]);
      Step(m, es[|es| - 1])
  }

  lemma BootIsSound(s: World)
    requires Booted(s)
    ensures Sound(s)
  {
    forall i | 0 <= i < |s.histories|
      ensures Matches(s.trace.periphs[i], s.histories[i])
    {
      assert s.histories[i] in s.histories && s.trace.periphs[i] in s.trace.periphs;
    }
  }

  // After any run, every read is answered exactly.
  lemma EveryReadIsExact(s: World, es: seq<Event>, time: nat)
    requires Booted(s) && time <= MAX_STAMP && forall e | e in es :: LegalEvent(|s.histories|, e)
    ensures Sound(s)
    ensures ReadsExactly(Run(s, es).trace, Run(s, es).histories, time)
  {
    BootIsSound(s);
    var r := Run(s, es);
    ReadIsExact(r.trace, r.histories, time);
  }

  // Simulated time does not go back: a request is not stamped before the last sample.
  ghost predicate Timely(s: World, es: seq<Event>)
    requires Sound(s) && forall e | e in es :: LegalEvent(|s.histories|, e)
  {
    es == [] ||
    var m := Run(s, es[..|es| - 1]);
    Timely(s, es[..|es| - 1]) && (es[|es| - 1].Request? ==> m.trace.base <= es[|es| - 1].time)
  }

  // Sample n covers the n-th period and is exact with respect to the whole history.
  ghost predicate SamplesExact(s: World)
    requires Sound(s)
  {
    && s.trace.base == |s.samples| * s.trace.period
    && forall n | 0 <= n < |s.samples| :: SampleExact(s, n)
  }

  ghost predicate SampleExact(s: World, n: nat)
    requires Sound(s) && n < |s.samples|
  {
    && s.samples[n].stamp == (n + 1) * s.trace.period
    && s.samples[n].stamp <= s.trace.base
    && WindowExact(s.samples[n], s.trace, s.histories)
  }

  // A change stamped after a window leaves what the window must hold as it was.
  lemma WindowStaysExact(w: Window, t: Trace, hs: seq<History>, i: nat, word: nat, time: nat)
    requires Accounted(t, hs) && WindowExact(w, t, hs) && i < |hs| && w.stamp <= time <= MAX_STAMP
    ensures var h' := Accept(t.periphs[i].pclass, hs[i], word, time);
      var t' := ModeChange(t, i, word, time);
      Accounted(t', hs[i := h']) && WindowExact(w, t', hs[i := h'])
  {
    ChangeKeepsAccounts(t, hs, i, word, time);
    var h' := Accept(t.periphs[i].pclass, hs[i], word, time);
    var t' := ModeChange(t, i, word, time);
    var c := Change(time, ModeOf(word), FvsetOf(word));
    forall j | 0 <= j < |hs|
      ensures SlotExact(w, t.period, t'.periphs[j], hs[i := h'][j])
    {
      assert SlotExact(w, t.period, t.periphs[j], hs[j]);
      if j == i && h' != hs[i] {
        EnergyBeforeChange(t.periphs[i].pclass, hs[i], c, w.stamp - t.period, w.stamp);
      }
    }
  }

  lemma TimelyRequestKeepsSamples(s: World, i: nat, word: nat, time: nat)
    requires Sound(s) && SamplesExact(s) && i < |s.histories| && s.trace.base <= time <= MAX_STAMP
    ensures Sound(Step(s, Request(i, word, time))) && SamplesExact(Step(s, Request(i, word, time)))
  {
    var s' := Step(s, Request(i, word, time));
    StepKeepsAccounts(s, Request(i, word, time));
    forall n | 0 <= n < |s'.samples|
      ensures SampleExact(s', n)
    {
      assert SampleExact(s, n);
      WindowStaysExact(s.samples[n], s.trace, s.histories, i, word, time);
    }
  }

  lemma ReadKeepsSamples(s: World, time: nat)
    requires Sound(s) && SamplesExact(s) && time <= MAX_STAMP
    ensures Sound(Step(s, Sample(time))) && SamplesExact(Step(s, Sample(time)))
  {
    var s' := Step(s, Sample(time));
    ReadIsExact(s.trace, s.histories, time);
    if ReadSample(s.trace, time).0.Some? {
      Distribute(|s.samples|, s.trace.period);
      forall n | 0 <= n < |s'.samples|
        ensures SampleExact(s', n)
      {
        if n < |s.samples| {
          assert SampleExact(s, n);
          SameWindow(s.samples[n], s.trace, s'.trace, s.histories);
        } else {
          SameWindow(s'.samples[n], s.trace, s'.trace, s.histories);
        }
      }
    }
  }

  lemma SameWindow(w: Window, t: Trace, t': Trace, hs: seq<History>)
    requires Accounted(t, hs) && Accounted(t', hs) && t.periphs == t'.periphs && t.period == t'.period
    requires WindowExact(w, t, hs)
    ensures WindowExact(w, t', hs)
  {
    forall i | 0 <= i < |hs|
      ensures SlotExact(w, t'.period, t'.periphs[i], hs[i])
    {
      assert SlotExact(w, t.period, t.periphs[i], hs[i]);
    }
  }

  lemma TimelyStepKeepsSamples(s: World, e: Event)
    requires Sound(s) && SamplesExact(s) && LegalEvent(|s.histories|, e)
    requires e.Request? ==> s.trace.base <= e.time
    ensures Sound(Step(s, e)) && SamplesExact(Step(s, e))
  {
    match e
    case Request(i, word, time) => TimelyRequestKeepsSamples(s, i, word, time);
    case Sample(time) => ReadKeepsSamples(s, time);
  }

  // The main result: over every run of mode changes and window reads, the samples handed out
  // tile simulated time from zero on, and each one holds for each peripheral the energy of the
  // mode in effect at each instant of its period.
  lemma {:induction false} EveryRunTilesTheEnergy(s: World, es: seq<Event>)
    requires Booted(s) && forall e | e in es :: LegalEvent(|s.histories|, e)
    requires Sound(s) && Timely(s, es)
    ensures SamplesExact(Run(s, es))
  {
    if es != [] {
      EveryRunTilesTheEnergy(s, es[..|es| - 1]);
      TimelyStepKeepsSamples(Run(s, es[..|es| - 1]), es[|es| - 1]);
    }
  }

  // A word that names a mode and an FV set, as the CPU wrappers make it: if both exist and time does not
  // go back, the history gets this change and the registers hold it, and nothing changes otherwise.
  lemma PackedIsSelected(t: Trace, h: History, i: nat, mode: nat, fvset: nat, time: nat)
    requires t.Valid() && i < |t.periphs| && time <= MAX_STAMP && Matches(t.periphs[i], h)
    requires mode < 32 && fvset < 8
    ensures var p, word := t.periphs[i], Packed(mode, fvset);
      if mode < p.pclass.nmodes && fvset < p.pclass.nfvsets && LastStamp(h) <= time then
        && Accept(p.pclass, h, word, time) == h + [Change(time, mode, fvset)]
        && ModeChange(t, i, word, time).periphs == t.periphs[i := p.(last := time, mode := mode, fvset := fvset)]
      else
        Accept(p.pclass, h, word, time) == h && ModeChange(t, i, word, time) == t
  {
    PackedIsDecoded(mode, fvset, 0);
  }

  // From then on, until the next change, every instant costs what the table has for the two.
  lemma PackedIsCharged(pc: PeriphClass, h: History, mode: nat, fvset: nat, time: nat, until: nat)
    requires LegalHistory(pc, h) && LastStamp(h) <= time <= until
    requires mode < 32 && fvset < 8 && mode < pc.nmodes && fvset < pc.nfvsets
    ensures var h' := Accept(pc, h, Packed(mode, fvset), time);
      && LegalHistory(pc, h') && pc.Index(mode, fvset) < |pc.modeCost|
      && Energy(pc, h', time, until) == (until - time) * pc.modeCost[pc.Index(mode, fvset)]
  {
    PackedIsDecoded(mode, fvset, 0);
    EnergyAfterLastChange(pc, h + [Change(time, mode, fvset)], time, until);
  }

  // A request for a mode or FV set that does not exist, or stamped before the last accepted
  // one, alters nothing at all.
  lemma RejectedAltersNothing(t: Trace, h: History, i: nat, word: nat, time: nat)
    requires t.Valid() && i < |t.periphs| && time <= MAX_STAMP && Matches(t.periphs[i], h)
    ensures Accept(t.periphs[i].pclass, h, word, time) == h <==>
            (ModeOf(word) >= t.periphs[i].pclass.nmodes || FvsetOf(word) >= t.periphs[i].pclass.nfvsets
             || time < LastStamp(h))
    ensures Accept(t.periphs[i].pclass, h, word, time) == h ==> ModeChange(t, i, word, time) == t
  {
    assert Accept(t.periphs[i].pclass, h, word, time) == h || |Accept(t.periphs[i].pclass, h, word, time)| == |h| + 1;
  }
}

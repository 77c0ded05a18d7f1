/**
 Energy accounting of etrace_if.cpp, on values.  First the meaning: a history of accepted mode
 changes says which mode is in effect at every instant, and the energy of an interval is the sum of
 its cost over the instants.
 Then the pure form of the two operations that keep the lazily grown list of sample windows.
 */
module EnergyModel {
  import opened Arithmetic
  import opened Options

  const MAX_PERIPHERALS: nat := 20

  // Callers pass sc_time_stamp().value() / 1000, a 64-bit count divided by a thousand.
  const MAX_STAMP: nat := 18446744073709551

  // ---------- the meaning ----------

  datatype PeriphClass = PeriphClass(nmodes: nat, nfvsets: nat, modeCost: seq<nat>) {
    // One row of mode costs per FV set.
    function Index(mode: nat, fvset: nat): nat { nmodes * fvset + mode }

    // Every (mode, fvset) pair that a change may select has a cost, and the boot mode exists.
    ghost predicate Valid() {
      && nmodes > 0 && nfvsets > 0
      && forall m: nat, f: nat | m < nmodes && f < nfvsets :: Index(m, f) < |modeCost|
    }

    function Cost(mode: nat, fvset: nat): nat
      requires Valid() && mode < nmodes && fvset < nfvsets
    {
      modeCost[Index(mode, fvset)]
    }
  }

  datatype Change = Change(stamp: nat, mode: nat, fvset: nat)

  // A change word carries the mode in its low five bits and the FV set in the next three.
  function ModeOf(word: nat): nat { word % 32 }

  function FvsetOf(word: nat): nat { (word / 32) % 8 }

  // ETRACE_MODE: the change word that the CPU wrappers send.
  function Packed(mode: nat, fvset: nat): nat { 32 * fvset + mode }

  // Decoding gives the mode and the FV set back, whatever stands above them in the word,
  lemma PackedIsDecoded(mode: nat, fvset: nat, above: nat)
    requires mode < 32 && fvset < 8
    ensures var word := 256 * above + Packed(mode, fvset);
      ModeOf(word) == mode && FvsetOf(word) == fvset
  {
    var word := 256 * above + Packed(mode, fvset);
    assert word == 32 * (8 * above + fvset) + mode;
  }

  // and packing gives the eight bits of the word back.
  lemma DecodedIsPacked(word: nat)
    ensures ModeOf(word) < 32 && FvsetOf(word) < 8 && Packed(ModeOf(word), FvsetOf(word)) == word % 256
  {
  }

  // The costs are numbered row by row: from 0, one further per mode, and the row of the next FV set
  // begins right behind the last mode.
  lemma IndexGoesOn(pc: PeriphClass, mode: nat, fvset: nat)
    requires mode < pc.nmodes
    ensures pc.Index(0, 0) == 0
    ensures pc.Index(mode, fvset) + 1
            == if mode + 1 < pc.nmodes then pc.Index(mode + 1, fvset) else pc.Index(0, fvset + 1)
  {
    Distribute(fvset, pc.nmodes);
  }

  type History = seq<Change>

  ghost predicate LegalHistory(pc: PeriphClass, h: History) {
    && pc.Valid()
    && forall c | c in h :: c.mode < pc.nmodes && c.fvset < pc.nfvsets
  }

  function LastStamp(h: History): nat { if h == [] then 0 else h[|h| - 1].stamp }

  // What a request to change mode adds to the history: nothing when it is rejected.
  function Accept(pc: PeriphClass, h: History, word: nat, time: nat): History {
    if ModeOf(word) < pc.nmodes && FvsetOf(word) < pc.nfvsets && LastStamp(h) <= time
    then h + [Change(time, ModeOf(word), FvsetOf(word))]
    else h
  }

  // The cost, per unit of time, of the mode in effect at instant t.
  ghost function CostAt(pc: PeriphClass, h: History, t: nat): nat
    requires LegalHistory(pc, h)
  {
    if h == [] then pc.Cost(0, 0)
    else
      var c := h[|h| - 1];
      if c.stamp <= t then pc.Cost(c.mode, c.fvset) else CostAt(pc, h[..|h| - 1], t)
  }

  // The energy spent over the instants a, a+1, ..., b-1.
  ghost function Energy(pc: PeriphClass, h: History, a: nat, b: nat): nat
    requires LegalHistory(pc, h)
    decreases b
  {
    if b <= a then 0 else Energy(pc, h, a, b - 1) + CostAt(pc, h, b - 1)
  }

  lemma {:induction false} EnergySplit(pc: PeriphClass, h: History, a: nat, b: nat, c: nat)
    requires LegalHistory(pc, h) && a <= b <= c
    ensures Energy(pc, h, a, c) == Energy(pc, h, a, b) + Energy(pc, h, b, c)
    decreases c
  {
    if b < c {
      EnergySplit(pc, h, a, b, c - 1);
    }
  }

  // The cost of the mode selected by the last change.
  ghost function LastCost(pc: PeriphClass, h: History): nat
    requires LegalHistory(pc, h)
  {
    if h == [] then pc.Cost(0, 0) else pc.Cost(h[|h| - 1].mode, h[|h| - 1].fvset)
  }

  // From its last change on, a peripheral burns the cost of its current mode.
  lemma {:induction false} EnergyAfterLastChange(pc: PeriphClass, h: History, a: nat, b: nat)
    requires LegalHistory(pc, h) && LastStamp(h) <= a <= b
    ensures Energy(pc, h, a, b) == (b - a) * LastCost(pc, h)
    decreases b
  {
    if a < b {
      EnergyAfterLastChange(pc, h, a, b - 1);
      Distribute(b - 1 - a, LastCost(pc, h));
    }
  }

  lemma Distribute(n: int, c: int)
    ensures (n + 1) * c == n * c + c
  {
  }

  // A change leaves the energy of everything before it as it was.
  lemma {:induction false} EnergyBeforeChange(pc: PeriphClass, h: History, c: Change, a: nat, b: nat)
    requires LegalHistory(pc, h + [c]) && LegalHistory(pc, h) && b <= c.stamp
    ensures Energy(pc, h + [c], a, b) == Energy(pc, h, a, b)
    decreases b
  {
    if a < b {
      EnergyBeforeChange(pc, h, c, a, b - 1);
      assert (h + [c])[..|h|] == h;
    }
  }

  // ---------- the operations, on values ----------

  datatype PerCost = PerCost(processed: bool, energy: u64)

  // A sample covers the sample period that ends at its stamp.
  datatype Window = Window(stamp: nat, costs: seq<PerCost>)

  datatype PeriphState = PeriphState(pclass: PeriphClass, idx: nat, last: nat, mode: nat, fvset: nat) {
    ghost predicate Valid() {
      && pclass.Valid() && mode < pclass.nmodes && fvset < pclass.nfvsets
      && idx < MAX_PERIPHERALS && last <= MAX_STAMP
    }

    function CurrentCost(): nat
      requires Valid()
    {
      pclass.Cost(mode, fvset)
    }
  }

  datatype Trace = Trace(period: nat, base: nat, windows: seq<Window>, periphs: seq<PeriphState>) {
    ghost predicate Valid() {
      && 0 < period <= MAX_STAMP
      && base <= MAX_STAMP
      && Shaped(windows, base, period)
      && (forall p | p in periphs :: p.Valid())
      && (forall i, j | 0 <= i < j < |periphs| :: periphs[i].idx != periphs[j].idx)
    }
  }

  function Fresh(stamp: nat): Window {
    Window(stamp, seq(MAX_PERIPHERALS, _ => PerCost(false, 0)))
  }

  // Consecutive windows, the first one starting at base.
  ghost predicate Shaped(ws: seq<Window>, base: nat, period: nat) {
    ws == [] ||
    (ws[0].stamp == base + period && |ws[0].costs| == MAX_PERIPHERALS && Shaped(ws[1..], base + period, period))
  }

  ghost function EndOf(ws: seq<Window>, base: nat): nat { if ws == [] then base else ws[|ws| - 1].stamp }

  lemma {:induction false} ShapedStamps(ws: seq<Window>, base: nat, period: nat, k: nat)
    requires Shaped(ws, base, period) && k < |ws|
    ensures ws[k].stamp == base + (k + 1) * period && |ws[k].costs| == MAX_PERIPHERALS
  {
    if k > 0 {
      ShapedStamps(ws[1..], base + period, period, k - 1);
      assert ws[k] == ws[1..][k - 1];
    }
  }

  function Max(a: nat, b: nat): nat { if a < b then b else a }

  // What one round of the recursion writes for the peripheral into the window w.  A window that
  // ends before the last change is only marked; otherwise the part since the last change is
  // added, and since an update always ends after the last change the difference does not wrap.
  function HeadEntry(w: Window, period: nat, p: PeriphState, time: nat): PerCost
    requires p.Valid() && period <= w.stamp && |w.costs| == MAX_PERIPHERALS && w.stamp - period < time
  {
    var pc := w.costs[p.idx];
    if w.stamp < p.last then pc.(processed := true)
    else
      var begin := Max(w.stamp - period, p.last);
      var end := Min(w.stamp, time);
      PerCost(true, (pc.energy + (end - begin) * p.CurrentCost()) % TWO64)
  }

  // __r_update_samples on the list of windows that starts at lastTime.
  function Charge(ws: seq<Window>, period: nat, p: PeriphState, time: nat, lastTime: nat): (r: seq<Window>)
    requires 0 < period && p.Valid() && Shaped(ws, lastTime, period)
    ensures Shaped(r, lastTime, period)
    decreases if time > lastTime then time - lastTime else 0
  {
    if time <= lastTime then ws
    else
      var w := if ws == [] then Fresh(lastTime + period) else ws[0];
      var rest := if ws == [] then [] else ws[1..];
      [w.(costs := w.costs[p.idx := HeadEntry(w, period, p, time)])]
      + if time > w.stamp then Charge(rest, period, p, time, w.stamp) else rest
  }

  // etrace_if_mode_change for the peripheral at position i of the list.
  function ModeChange(t: Trace, i: nat, word: nat, time: nat): (r: Trace)
    requires t.Valid() && i < |t.periphs| && time <= MAX_STAMP
    ensures r.Valid()
  {
    var p := t.periphs[i];
    if ModeOf(word) >= p.pclass.nmodes || FvsetOf(word) >= p.pclass.nfvsets || time < p.last then t
    else
      var ws := if time > p.last then Charge(t.windows, t.period, p, time, t.base) else t.windows;
      var q := p.(last := time, mode := ModeOf(word), fvset := FvsetOf(word));
      assert p in t.periphs && p.Valid();
      assert q.Valid() && forall x | x in t.periphs[i := q] :: x == q || x in t.periphs;
      t.(windows := ws, periphs := t.periphs[i := q])
  }

  // What get_sample adds for one peripheral; the subtraction is unsigned.
  function Extra(pc: PerCost, period: nat, p: PeriphState, time: nat): nat
    requires p.Valid()
  {
    var since := (time - p.last) % TWO64;
    if since < period then p.CurrentCost() * since
    else if !pc.processed then p.CurrentCost() * period
    else 0
  }

  function Settle(w: Window, period: nat, p: PeriphState, time: nat): Window
    requires p.Valid() && |w.costs| == MAX_PERIPHERALS
  {
    var pc := w.costs[p.idx];
    w.(costs := w.costs[p.idx := pc.(energy := (pc.energy + Extra(pc, period, p, time)) % TWO64)])
  }

  function SettleAll(w: Window, period: nat, ps: seq<PeriphState>, time: nat): (r: Window)
    requires |w.costs| == MAX_PERIPHERALS && forall p | p in ps :: p.Valid()
    ensures r.stamp == w.stamp && |r.costs| == MAX_PERIPHERALS
    decreases |ps|
  {
    if ps == [] then w
    else SettleAll(Settle(w, period, ps[0], time), period, ps[1..], time)
  }

  function HeadWindow(t: Trace): Window
    requires t.Valid()
  {
    if t.windows == [] then Fresh(t.base + t.period) else t.windows[0]
  }

  // get_sample: nothing happens unless the caller asks for the end of the oldest window.
  function ReadSample(t: Trace, time: nat): (r: (Option<Window>, Trace))
    requires t.Valid()
    ensures time <= MAX_STAMP ==> r.1.Valid()
  {
    if HeadWindow(t).stamp != time then (None, t)
    else (Some(SettleAll(HeadWindow(t), t.period, t.periphs, time)),
          t.(windows := if t.windows == [] then [] else t.windows[1..], base := time))
  }
}

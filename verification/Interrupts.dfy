/**
 The interrupt fan-out of a wrapper: edges of the ports, enables, software interrupts and the line
 that the emulator of every CPU was told last.  A register is the set of its one bits; port i has
 bit i, and there are at most 32 ports.
 */
module Interrupts {
  import opened BitSearch
  import opened LowestBit

  const WIDTH: nat := 32

  // The bits of the ports that are high, and of those that are routed to a CPU.
  function High(level: seq<bool>): set<nat> {
    set i | 0 <= i < |level| && level[i]
  }

  function Routed(masks: seq<set<nat>>, level: seq<bool>, cpu: nat): set<nat>
    requires |masks| == |level|
  {
    set i | 0 <= i < |level| && level[i] && cpu in masks[i]
  }

  // Some ports have been looked at, the others not yet.
  function Mixed(before: seq<bool>, now: seq<bool>, i: nat): seq<bool>
    requires |before| == |now| && i <= |now|
  {
    now[..i] + before[i..]
  }

  class FanOut {
    // m_irq_cpu_mask: the CPUs that a port interrupts.
    const masks: seq<set<nat>>
    const cpuRaw: array<set<nat>>
    const cpuStatus: array<set<nat>>
    const swi: array<set<nat>>
    // The level last sent to the emulator, per CPU.
    const line: array<bool>
    var raw: set<nat>
    var enable: set<nat>
    // The levels of the ports when the thread last looked.
    var level: seq<bool>

    ghost predicate Shaped()
      reads this
    {
      && cpuRaw.Length == cpuStatus.Length == swi.Length == line.Length
      && cpuRaw != cpuStatus && cpuRaw != swi && cpuStatus != swi
      && |masks| == |level| <= WIDTH
    }

    // The status registers of every CPU, when the ports have these levels.
    ghost predicate Follows(levels: seq<bool>)
      requires Shaped() && |levels| == |masks|
      reads this, cpuRaw, cpuStatus
    {
      && (forall c | 0 <= c < line.Length :: cpuRaw[c] == Routed(masks, levels, c))
      && (forall c | 0 <= c < line.Length :: cpuStatus[c] == cpuRaw[c] * enable)
    }

    // The line of a CPU is high exactly if something is pending for it.
    ghost predicate LinesOk(n: nat)
      requires Shaped() && n <= line.Length
      reads this, line, cpuStatus, swi
    {
      forall c | 0 <= c < n :: line[c] <==> cpuStatus[c] != {} || swi[c] != {}
    }

    // The interrupt line invariant.
    ghost predicate Valid()
      reads this, cpuRaw, cpuStatus, swi, line
    {
      Shaped() && raw == High(level) && Follows(level) && LinesOk(line.Length)
    }

    constructor (ncpu: nat, routing: seq<set<nat>>)
      requires |routing| <= WIDTH
      ensures Valid() && line.Length == ncpu && masks == routing
      ensures fresh(cpuRaw) && fresh(cpuStatus) && fresh(swi) && fresh(line)
      ensures level == seq(|routing|, i => false) && enable == {}
    {
      masks := routing;
      cpuRaw := new set<nat>[ncpu](_ => {});
      cpuStatus := new set<nat>[ncpu](_ => {});
      swi := new set<nat>[ncpu](_ => {});
      line := new bool[ncpu](_ => false);
      raw := {};
      enable := {};
      level := seq(|routing|, i => false);
    }

    // ---------- interrupts_thread ----------

    // The port i has risen: every CPU that it is routed to.
    method Raise(i: nat, bup: array<bool>)
      requires Shaped() && i < |masks| && bup.Length == line.Length && bup != line
      modifies cpuRaw, cpuStatus, bup
      ensures forall c | 0 <= c < line.Length && c in masks[i] ::
        && cpuRaw[c] == old(cpuRaw[c]) + {i}
        && cpuStatus[c] == (if i in enable then old(cpuStatus[c]) + {i} else old(cpuStatus[c]))
        && bup[c] == (old(bup[c]) || (i in enable && old(cpuStatus[c]) == {}))
      ensures forall c | 0 <= c < line.Length && c !in masks[i] ::
        cpuRaw[c] == old(cpuRaw[c]) && cpuStatus[c] == old(cpuStatus[c]) && bup[c] == old(bup[c])
    {
      for cpu := 0 to line.Length
        invariant forall c | 0 <= c < cpu && c in masks[i] ::
          && cpuRaw[c] == old(cpuRaw[c]) + {i}
          && cpuStatus[c] == (if i in enable then old(cpuStatus[c]) + {i} else old(cpuStatus[c]))
          && bup[c] == (old(bup[c]) || (i in enable && old(cpuStatus[c]) == {}))
        invariant forall c | 0 <= c < line.Length && (c >= cpu || c !in masks[i]) ::
          cpuRaw[c] == old(cpuRaw[c]) && cpuStatus[c] == old(cpuStatus[c]) && bup[c] == old(bup[c])
      {
        if cpu in masks[i] {
          cpuRaw[cpu] := cpuRaw[cpu] + {i};
          if i in enable {
            if cpuStatus[cpu] == {} {
              bup[cpu] := true;
            }
            cpuStatus[cpu] := cpuStatus[cpu] + {i};
          }
        }
      }
    }

    // The port i has fallen.
    method Lower(i: nat, bdown: array<bool>)
      requires Shaped() && i < |masks| && bdown.Length == line.Length && bdown != line
      modifies cpuRaw, cpuStatus, bdown
      ensures forall c | 0 <= c < line.Length && c in masks[i] ::
        && cpuRaw[c] == old(cpuRaw[c]) - {i}
        && cpuStatus[c] == (if i in enable then old(cpuStatus[c]) - {i} else old(cpuStatus[c]))
        && bdown[c] == (old(bdown[c]) || (i in enable && cpuStatus[c] == {}))
      ensures forall c | 0 <= c < line.Length && c !in masks[i] ::
        cpuRaw[c] == old(cpuRaw[c]) && cpuStatus[c] == old(cpuStatus[c]) && bdown[c] == old(bdown[c])
    {
      for cpu := 0 to line.Length
        invariant forall c | 0 <= c < cpu && c in masks[i] ::
          && cpuRaw[c] == old(cpuRaw[c]) - {i}
          && cpuStatus[c] == (if i in enable then old(cpuStatus[c]) - {i} else old(cpuStatus[c]))
          && bdown[c] == (old(bdown[c]) || (i in enable && cpuStatus[c] == {}))
        invariant forall c | 0 <= c < line.Length && (c >= cpu || c !in masks[i]) ::
          cpuRaw[c] == old(cpuRaw[c]) && cpuStatus[c] == old(cpuStatus[c]) && bdown[c] == old(bdown[c])
      {
        if cpu in masks[i] {
          cpuRaw[cpu] := cpuRaw[cpu] - {i};
          if i in enable {
            cpuStatus[cpu] := cpuStatus[cpu] - {i};
            if cpuStatus[cpu] == {} {
              bdown[cpu] := true;
            }
          }
        }
      }
    }

    // One port of the pass; an edge is a difference between the level before and the level now.
    method ScanPort(i: nat, was: bool, now: bool, bup: array<bool>, bdown: array<bool>)
      requires Shaped() && i < |masks| && bup.Length == bdown.Length == line.Length
      requires bup != bdown && bup != line && bdown != line
      modifies this`raw, cpuRaw, cpuStatus, bup, bdown
      ensures raw == if now == was then old(raw) else if now then old(raw) + {i} else old(raw) - {i}
      ensures forall c | 0 <= c < line.Length ::
        PortStep(c in masks[i], i, was, now, enable,
                 Regs(old(cpuRaw[c]), old(cpuStatus[c]), old(bup[c]), old(bdown[c])),
                 Regs(cpuRaw[c], cpuStatus[c], bup[c], bdown[c]))
    {
      if now && !was {
        raw := raw + {i};
        Raise(i, bup);
      } else if was && !now {
        raw := raw - {i};
        Lower(i, bdown);
      }
    }

    // The ports change to new levels and the thread wakes up: the loop over the ports.
    method ScanPorts(now: seq<bool>, bup: array<bool>, bdown: array<bool>)
      requires Valid() && |now| == |level|
      requires bup.Length == bdown.Length == line.Length && bup != bdown && bup != line && bdown != line
      requires forall c | 0 <= c < line.Length :: !bup[c] && !bdown[c]
      modifies this`raw, this`level, cpuRaw, cpuStatus, bup, bdown
      ensures Shaped() && level == now && raw == High(now)
      ensures Follows(now)
      ensures forall c | 0 <= c < line.Length :: Noted(cpuStatus[c], |now|, old(cpuStatus[c]), bup[c], bdown[c])
    {
      var was := level;
      assert Mixed(was, now, 0) == was;
      for i := 0 to |now|
        invariant Shaped() && level == was && raw == High(Mixed(was, now, i))
        invariant Follows(Mixed(was, now, i))
        invariant forall c | 0 <= c < line.Length :: Noted(cpuStatus[c], i, old(cpuStatus[c]), bup[c], bdown[c])
      {
        MixedHigh(was, now, i);
        ghost var regs := seq(line.Length, c requires 0 <= c < line.Length
          reads this, cpuRaw, cpuStatus, bup, bdown requires Shaped() && bup.Length == bdown.Length == line.Length =>
          Regs(cpuRaw[c], cpuStatus[c], bup[c], bdown[c]));
        ScanPort(i, was[i], now[i], bup, bdown);
        ghost var regs' := seq(line.Length, c requires 0 <= c < line.Length
          reads this, cpuRaw, cpuStatus, bup, bdown requires Shaped() && bup.Length == bdown.Length == line.Length =>
          Regs(cpuRaw[c], cpuStatus[c], bup[c], bdown[c]));
        PortFollowsForAll(masks, was, now, i, enable, old(cpuStatus[..]), regs, regs');
        assert forall c | 0 <= c < line.Length :: regs'[c] == Regs(cpuRaw[c], cpuStatus[c], bup[c], bdown[c]);
      }
      assert Mixed(was, now, |now|) == now;
      level := now;
    }

    // interrupts_thread, from one wake-up to the next.
    method PortsChange(now: seq<bool>)
      requires Valid() && |now| == |level|
      modifies this`raw, this`level, cpuRaw, cpuStatus, line
      ensures Valid() && level == now
    {
      var bup := new bool[line.Length](_ => false);
      var bdown := new bool[line.Length](_ => false);
      ScanPorts(now, bup, bdown);
      for cpu := 0 to line.Length
        invariant Shaped() && level == now && raw == High(now) && Follows(now) && LinesOk(cpu)
        invariant forall c | cpu <= c < line.Length :: line[c] == old(line[c])
        modifies line
      {
        assert Noted(cpuStatus[cpu], |now|, old(cpuStatus[cpu]), bup[cpu], bdown[cpu]);
        if bup[cpu] && swi[cpu] == {} {
          line[cpu] := true;
        } else if bdown[cpu] && swi[cpu] == {} {
          line[cpu] := false;
        }
      }
    }

    // ---------- calls of the wrappers ----------

    // generate_swi.  Its callers pass a bit; without one it raises lines for nothing.
    method GenerateSwi(cpus: set<nat>, bits: set<nat>)
      requires Valid()
      modifies swi, line
      ensures Shaped() && raw == High(level) && Follows(level)
      ensures forall c | 0 <= c < line.Length :: swi[c] == if c in cpus then old(swi[c]) + bits else old(swi[c])
      ensures forall c | 0 <= c < line.Length :: line[c] == (old(line[c]) || c in cpus)
      ensures Valid() <==> bits != {} || forall c | 0 <= c < line.Length && c in cpus :: old(line[c])
    {
      for cpu := 0 to line.Length
        invariant Shaped() && raw == High(level) && Follows(level)
        invariant forall c | 0 <= c < cpu :: swi[c] == if c in cpus then old(swi[c]) + bits else old(swi[c])
        invariant forall c | cpu <= c < line.Length :: swi[c] == old(swi[c])
        invariant forall c | 0 <= c < cpu :: line[c] == (old(line[c]) || c in cpus)
        invariant forall c | cpu <= c < line.Length :: line[c] == old(line[c])
        modifies swi, line
      {
        if cpu in cpus {
          swi[cpu] := swi[cpu] + bits;
          if cpuStatus[cpu] == {} {
            line[cpu] := true;
          }
        }
      }
      if bits == {} && exists c :: 0 <= c < line.Length && c in cpus && !old(line[c]) {
        var c :| 0 <= c < line.Length && c in cpus && !old(line[c]);
        assert line[c] && cpuStatus[c] == {} && swi[c] == {};
      }
    }

    // GENERATE_SWI, the only place that generates software interrupts: the bit is always the first
    // one, so that the invariant holds after every call of the program.
    method SendSwi(cpus: set<nat>)
      requires Valid()
      modifies swi, line
      ensures Valid()
      ensures forall c | 0 <= c < line.Length :: swi[c] == if c in cpus then old(swi[c]) + {0} else old(swi[c])
    {
      GenerateSwi(cpus, {0});
    }

    method SwiAck(cpu: nat, bits: set<nat>)
      requires Valid() && cpu < line.Length
      modifies swi, line
      ensures Valid()
      ensures forall c | 0 <= c < line.Length :: swi[c] == if c == cpu then old(swi[c]) - bits else old(swi[c])
    {
      if swi[cpu] == {} {
        return;
      }
      swi[cpu] := swi[cpu] - bits;
      if cpuStatus[cpu] == {} && swi[cpu] == {} {
        line[cpu] := false;
      }
    }

    method SetIntEnable(val: set<nat>)
      requires Valid()
      modifies this`enable, cpuStatus, line
      ensures Valid() && enable == val
    {
      for cpu := 0 to line.Length
        invariant Shaped() && raw == High(level) && enable == old(enable)
        invariant forall c | 0 <= c < line.Length :: cpuRaw[c] == Routed(masks, level, c)
        invariant forall c | 0 <= c < line.Length :: cpuStatus[c] == cpuRaw[c] * if c < cpu then val else enable
        invariant LinesOk(line.Length)
      {
        if cpuStatus[cpu] == {} && cpuRaw[cpu] * val != {} && swi[cpu] == {} {
          line[cpu] := true;
        } else if cpuStatus[cpu] != {} && cpuRaw[cpu] * val == {} && swi[cpu] == {} {
          line[cpu] := false;
        }
        cpuStatus[cpu] := cpuRaw[cpu] * val;
      }
      enable := val;
    }

    // get_int_status, the same for all CPUs.
    function IntStatus(): set<nat>
      reads this
    {
      raw * enable
    }
  }

  // What a pass over the ports holds for one CPU.
  datatype Regs = Regs(raw: set<nat>, status: set<nat>, up: bool, down: bool)

  // What one port does to it.
  ghost predicate PortStep(routed: bool, i: nat, was: bool, now: bool, enable: set<nat>, a: Regs, b: Regs) {
    if !routed || now == was then b == a
    else if now then
      && b.raw == a.raw + {i} && b.status == (if i in enable then a.status + {i} else a.status)
      && b.up == (a.up || (i in enable && a.status == {})) && b.down == a.down
    else
      && b.raw == a.raw - {i} && b.status == (if i in enable then a.status - {i} else a.status)
      && b.up == a.up && b.down == (a.down || (i in enable && b.status == {}))
  }

  lemma PortFollows(masks: seq<set<nat>>, was: seq<bool>, now: seq<bool>, i: nat, c: nat, enable: set<nat>,
                    before: set<nat>, a: Regs, b: Regs)
    requires |masks| == |was| == |now| && i < |now|
    requires a.raw == Routed(masks, Mixed(was, now, i), c) && a.status == a.raw * enable
    requires Noted(a.status, i, before, a.up, a.down)
    requires PortStep(c in masks[i], i, was[i], now[i], enable, a, b)
    ensures b.raw == Routed(masks, Mixed(was, now, i + 1), c) && b.status == b.raw * enable
    ensures Noted(b.status, i + 1, before, b.up, b.down)
  {
    assert a.up ==> exists k :: 0 <= k < i && k in a.status;
    if a.up {
      var k :| 0 <= k < i && k in a.status;
      assert k in b.status;
    } else if b.up {
      assert i in b.status;
    }
  }

  lemma PortFollowsForAll(masks: seq<set<nat>>, was: seq<bool>, now: seq<bool>, i: nat, enable: set<nat>,
                          before: seq<set<nat>>, a: seq<Regs>, b: seq<Regs>)
    requires |masks| == |was| == |now| && i < |now| && |before| == |a| == |b|
    requires forall c | 0 <= c < |a| ::
      && a[c].raw == Routed(masks, Mixed(was, now, i), c) && a[c].status == a[c].raw * enable
      && Noted(a[c].status, i, before[c], a[c].up, a[c].down)
      && PortStep(c in masks[i], i, was[i], now[i], enable, a[c], b[c])
    ensures forall c | 0 <= c < |a| ::
      && b[c].raw == Routed(masks, Mixed(was, now, i + 1), c) && b[c].status == b[c].raw * enable
      && Noted(b[c].status, i + 1, before[c], b[c].up, b[c].down)
  {
    forall c | 0 <= c < |a|
      ensures b[c].raw == Routed(masks, Mixed(was, now, i + 1), c) && b[c].status == b[c].raw * enable
      ensures Noted(b[c].status, i + 1, before[c], b[c].up, b[c].down)
    {
      PortFollows(masks, was, now, i, c, enable, before[c], a[c], b[c]);
    }
  }

  // What a pass over the ports has noted for a CPU after the ports before i, from its status.
  ghost predicate Noted(status: set<nat>, i: nat, before: set<nat>, up: bool, down: bool) {
    && (up ==> exists k :: 0 <= k < i && k in status)
    && (!up && before == {} ==> status == {})
    && (!up && down ==> status == {})
    && (!up && !down && before != {} ==> status != {})
  }

  lemma MixedHigh(was: seq<bool>, now: seq<bool>, i: nat)
    requires |was| == |now| && i < |now|
    ensures High(Mixed(was, now, i + 1))
            == if now[i] == was[i] then High(Mixed(was, now, i))
               else if now[i] then High(Mixed(was, now, i)) + {i} else High(Mixed(was, now, i)) - {i}
  {
  }

  // ---------- the pending-interrupt register ----------

  // The read of MAX_INT_PENDING: the weight of the lowest software interrupt, or 32 and the number
  // of the lowest pending port.
  method MaxIntPending(swi: bv32, status: bv32) returns (val: nat)
    ensures swi != 0 ==> val == One(Lowest(swi)) as nat
    ensures swi == 0 && status != 0 ==> val == 32 + Lowest(status)
    ensures swi == 0 && status == 0 ==> val == 1023
  {
    hide One, Digits, Lowest;
    if swi != 0 {
      var i := FindBit(swi);
      LowestWeightIs(swi);
      return i as nat;
    }
    if status == 0 {
      return 1023;
    }
    LowestWeightIs(status);
    var i := CountDigits(status & -status);
    return 32 + i - 1;
  }

  ghost predicate IsLeast(k: nat, s: set<nat>) { k in s && forall j | j in s :: k <= j }

  lemma LowestIsLeast(v: bv32, s: set<nat>)
    requires v != 0 && forall k: nat :: k in s <==> Bit(v, k)
    ensures IsLeast(Lowest(v), s)
  {
  }

  // The status register shows the ports that are high and enabled, and nothing else.
  lemma StatusIs(f: FanOut, k: nat)
    requires f.Valid()
    ensures k in f.IntStatus() <==> k < |f.level| && f.level[k] && k in f.enable
  {
  }

  // A word that shows a set has a bit exactly if the set has an element, and the lowest ones agree.
  lemma LowestOfSet(v: bv32, s: set<nat>)
    requires forall k: nat :: k in s <==> Bit(v, k)
    ensures v == 0 <==> s == {}
    ensures v != 0 ==> IsLeast(Lowest(v), s)
  {
    if v == 0 {
      forall k: nat
        ensures k !in s
      {
        ZeroHasNoBit(k);
      }
    } else {
      LowestIsLeast(v, s);
    }
  }

  // A CPU whose line is high without a software interrupt never reads 1023, but the number of the
  // lowest port of the whole system that is high and enabled.
  lemma HighLineReadsASource(f: FanOut, c: nat, status: bv32)
    requires f.Valid() && c < f.line.Length && f.line[c] && f.swi[c] == {}
    requires forall k: nat :: k in f.IntStatus() <==> Bit(status, k)
    ensures status != 0 && IsLeast(Lowest(status), High(f.level) * f.enable) && Lowest(status) < |f.masks|
  {
    assert f.cpuStatus[c] != {};
    var k :| k in f.cpuStatus[c];
    assert k in High(f.level) * f.enable;
    LowestOfSet(status, f.IntStatus());
  }

  // The status is the whole system's, not the CPU's own: the lowest pending port is the lowest that
  // is pending for CPU c exactly if it is routed to c.
  lemma OwnSourceIff(masks: seq<set<nat>>, level: seq<bool>, enable: set<nat>, c: nat, k: nat)
    requires |masks| == |level| && IsLeast(k, High(level) * enable)
    ensures k < |masks| && (IsLeast(k, Routed(masks, level, c) * enable) <==> c in masks[k])
  {
    assert forall j | j in Routed(masks, level, c) * enable :: j in High(level) * enable;
  }

  // MAX_INT_PENDING as a CPU reads it: the weight of its lowest software interrupt; without one, 32 and
  // the lowest port that is high and enabled, which is one of its own exactly if that port is routed to
  // it, or 1023 if there is none.  With its line high it reads an interrupt.
  method ReadMaxIntPending(f: FanOut, c: nat, swi: bv32, status: bv32) returns (val: nat)
    requires f.Valid() && c < f.line.Length
    requires forall k: nat :: k in f.swi[c] <==> Bit(swi, k)
    requires forall k: nat :: k in f.IntStatus() <==> Bit(status, k)
    ensures f.swi[c] != {} ==> exists k :: IsLeast(k, f.swi[c]) && val == One(k) as nat
    ensures f.swi[c] == {} && val != 1023 ==>
      var k := val - 32;
      && k >= 0 && IsLeast(k, High(f.level) * f.enable) && k < |f.masks|
      && (IsLeast(k, Routed(f.masks, f.level, c) * f.enable) <==> c in f.masks[k])
    ensures f.swi[c] == {} ==> (val == 1023 <==> High(f.level) * f.enable == {})
    ensures f.swi[c] == {} && f.line[c] ==> val != 1023
  {
    val := MaxIntPending(swi, status);
    hide One, Lowest, Bit;
    LowestOfSet(swi, f.swi[c]);
    LowestOfSet(status, f.IntStatus());
    assert f.IntStatus() == High(f.level) * f.enable;
    if swi == 0 && status != 0 {
      assert Lowest(status) in High(f.level);
      OwnSourceIff(f.masks, f.level, f.enable, c, Lowest(status));
    }
    if swi == 0 && f.line[c] {
      HighLineReadsASource(f, c, status);
    }
  }

  // Two CPUs with a port each, both high: CPU 1 is interrupted by port 1 and reads port 0.
  lemma OtherSourceRead()
    ensures var masks, level, enable := [{0}, {1}], [true, true], {0, 1};
      && IsLeast(0, High(level) * enable)
      && Routed(masks, level, 1) * enable == {1}
  {
    var masks: seq<set<nat>>, level, enable: set<nat> := [{0}, {1}], [true, true], {0, 1};
    assert 0 in High(level) * enable;
    assert Routed(masks, level, 1) == {1};
  }
}

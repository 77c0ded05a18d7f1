/**
 Any interleaving of natural accesses by any masters, through address maps, byte lanes and memory
 devices, is a run of plain loads and stores on flat byte memories at the translated addresses.
 */
module FlatMemory {
  import opened AddressMap
  import opened Bytes
  import opened MemoryLanes
  import opened Options

  datatype Op =
    | LoadOp(master: nat, addr: u32, n: nat)
    | StoreOp(master: nat, addr: u32, bytes: seq<byte>)
  {
    function Width(): nat { if LoadOp? then n else |bytes| }
  }

  // A memory device: its bytes and the lanes of its last response.
  datatype Device = Device(mem: seq<byte>, rdata: seq<byte>)

  // The address map translates whole groups.
  ghost predicate ByGroups(regions: seq<Region>) {
    forall i | 0 <= i < |regions| ::
      regions[i].begin % 8 == 0 && regions[i].end % 8 == 0 && regions[i].internOffset % 8 == 0
  }

  ghost predicate Memories(devs: seq<Device>) {
    forall s | 0 <= s < |devs| :: |devs[s].rdata| == 8
  }

  // A natural access to a group that the map gives to a memory that has it.
  ghost predicate Fits(maps: seq<seq<Region>>, devs: seq<Device>, op: Op) {
    && op.master < |maps| && Natural(op.addr, op.Width())
    && match Decode(maps[op.master], op.addr - op.addr % 8)
       case None => false
       case Some((s, g)) => s < |devs| && g + 8 <= |devs[s].mem|
  }

  // An access of one device, cut into lanes and put together again.
  ghost function StoreAt(d: Device, g: nat, ofs: nat, bytes: seq<byte>): Device
    requires Natural(ofs, |bytes|) && ofs < 8 && ofs + |bytes| <= 8 && g + 8 <= |d.mem|
  {
    d.(mem := Written(d.mem, g, MaskOf(|bytes|, ofs), LanesOf(ofs, bytes)))
  }

  ghost function LoadAt(d: Device, g: nat, ofs: nat, n: nat): (Device, seq<byte>)
    requires Natural(ofs, n) && ofs < 8 && ofs + n <= 8 && g + 8 <= |d.mem| && |d.rdata| == 8
  {
    LoadIsFlat(d.mem, g, ofs, n, d.rdata);
    var be := MaskOf(n, ofs);
    var rdata := ReadLanes(d.mem, g, be, d.rdata).value;
    (d.(rdata := rdata), rdata[Low(be, 0)..Low(be, 0) + n])
  }

  lemma StoreAtIsFlat(d: Device, g: nat, ofs: nat, bytes: seq<byte>)
    requires Natural(ofs, |bytes|) && ofs < 8 && ofs + |bytes| <= 8 && g + 8 <= |d.mem|
    ensures StoreAt(d, g, ofs, bytes) == d.(mem := Splice(d.mem, g + ofs, bytes))
  {
    StoreIsFlat(d.mem, g, ofs, bytes);
  }

  lemma LoadAtIsFlat(d: Device, g: nat, ofs: nat, n: nat)
    requires Natural(ofs, n) && ofs < 8 && ofs + n <= 8 && g + 8 <= |d.mem| && |d.rdata| == 8
    ensures var (d', answer) := LoadAt(d, g, ofs, n);
      d'.mem == d.mem && |d'.rdata| == 8 && answer == d.mem[g + ofs..g + ofs + n]
  {
    LoadIsFlat(d.mem, g, ofs, n, d.rdata);
  }

  // send_req, the dispatcher, mem_device and response_thread, one after the other.
  ghost function Through(maps: seq<seq<Region>>, devs: seq<Device>, op: Op): (seq<Device>, seq<byte>)
    requires Memories(devs) && Fits(maps, devs, op)
  {
    var ofs := op.addr % 8;
    NaturalLane(op.addr, op.Width());
    var (s, g) := Decode(maps[op.master], op.addr - ofs).value;
    match op
    case StoreOp(_, _, bytes) => (devs[s := StoreAt(devs[s], g, ofs, bytes)], [])
    case LoadOp(_, _, n) =>
      var (d, answer) := LoadAt(devs[s], g, ofs, n);
      (devs[s := d], answer)
  }

  // The same access on flat memories.
  ghost predicate InFlat(maps: seq<seq<Region>>, mems: seq<seq<byte>>, op: Op) {
    && op.master < |maps| && Decode(maps[op.master], op.addr).Some?
    && var (s, a) := Decode(maps[op.master], op.addr).value;
       s < |mems| && a + op.Width() <= |mems[s]|
  }

  ghost function Flat(maps: seq<seq<Region>>, mems: seq<seq<byte>>, op: Op): (seq<seq<byte>>, seq<byte>)
    requires InFlat(maps, mems, op)
  {
    var (s, a) := Decode(maps[op.master], op.addr).value;
    match op
    case StoreOp(_, _, bytes) => (mems[s := Splice(mems[s], a, bytes)], [])
    case LoadOp(_, _, n) => (mems, mems[s][a..a + n])
  }

  // The access does through the network what it does on flat memories.
  ghost predicate IsFlat(maps: seq<seq<Region>>, devs: seq<Device>, op: Op)
    requires Memories(devs) && Fits(maps, devs, op)
  {
    InFlat(maps, Contents(devs), op) &&
    (Contents(Through(maps, devs, op).0), Through(maps, devs, op).1) == Flat(maps, Contents(devs), op)
  }

  ghost function Contents(devs: seq<Device>): (r: seq<seq<byte>>)
    ensures |r| == |devs| && forall s | 0 <= s < |devs| :: r[s] == devs[s].mem
  {
    seq(|devs|, s requires 0 <= s < |devs| => devs[s].mem)
  }

  // ---------- one access ----------

  lemma SameGroup(r: Region, addr: u32)
    requires r.begin % 8 == 0 && r.end % 8 == 0 && r.internOffset % 8 == 0
    ensures var group := addr - addr % 8;
      && (r.Contains(addr) <==> r.Contains(group))
      && (r.Contains(addr) ==> r.ToOffset(addr) == r.ToOffset(group) + addr % 8)
  {
    var group := addr - addr % 8;
    if r.Contains(group) {
      NoWrap(group - r.begin + r.internOffset, addr % 8);
    }
  }

  lemma NoWrap(x: nat, l: nat)
    requires x % 8 == 0 && l < 8
    ensures (x + l) % TWO32 == x % TWO32 + l
  {
  }

  lemma {:induction false} GroupDecodes(regions: seq<Region>, addr: u32)
    requires ByGroups(regions)
    ensures AsItsGroup(regions, addr)
  {
    if regions != [] {
      SameGroup(regions[0], addr);
      GroupDecodes(regions[1..], addr);
    }
  }

  lemma NaturalLane(addr: nat, n: nat)
    requires Natural(addr, n)
    ensures Natural(addr % 8, n) && addr % 8 + n <= 8
  {
    if n == 2 {
      HalfwordLane(addr);
    } else if n == 4 {
      WordLane(addr);
    }
  }

  lemma HalfwordLane(addr: nat)
    requires addr % 2 == 0
    ensures addr % 8 % 2 == 0 && addr % 8 + 2 <= 8
  {
    assert addr % 8 == 2 * (addr / 2 - 4 * (addr / 8));
  }

  lemma WordLane(addr: nat)
    requires addr % 4 == 0
    ensures addr % 8 % 4 == 0 && addr % 8 + 4 <= 8
  {
    assert addr % 8 == 4 * (addr / 4 - 2 * (addr / 8));
  }

  // A store goes to the lane of the group, and the map has it at the address; a load likewise.
  lemma FlatStoreIs(maps: seq<seq<Region>>, devs: seq<Device>, op: Op)
    requires Memories(devs) && Fits(maps, devs, op) && op.StoreOp?
    ensures var (s, g) := Decode(maps[op.master], op.addr - op.addr % 8).value;
      var mems := Contents(devs);
      && g + op.addr % 8 + |op.bytes| <= |mems[s]|
      && Contents(Through(maps, devs, op).0) == mems[s := Splice(mems[s], g + op.addr % 8, op.bytes)]
      && (IsFlat(maps, devs, op) <==>
            InFlat(maps, mems, op) &&
            var (s', a) := Decode(maps[op.master], op.addr).value;
            mems[s := Splice(mems[s], g + op.addr % 8, op.bytes)] == mems[s' := Splice(mems[s'], a, op.bytes)])
  {
    var ofs := op.addr % 8;
    var (s, g) := Decode(maps[op.master], op.addr - ofs).value;
    NaturalLane(op.addr, op.Width());
    OneStore(devs, s, g, ofs, op.bytes);
    hide Decode, StoreAt, Contents, Natural, Splice;
  }

  lemma FlatLoadIs(maps: seq<seq<Region>>, devs: seq<Device>, op: Op)
    requires Memories(devs) && Fits(maps, devs, op) && op.LoadOp?
    ensures var (s, g) := Decode(maps[op.master], op.addr - op.addr % 8).value;
      var mems := Contents(devs);
      && g + op.addr % 8 + op.n <= |mems[s]|
      && (IsFlat(maps, devs, op) <==>
            InFlat(maps, mems, op) &&
            var (s', a) := Decode(maps[op.master], op.addr).value;
            mems[s][g + op.addr % 8..g + op.addr % 8 + op.n] == mems[s'][a..a + op.n])
  {
    var ofs := op.addr % 8;
    var (s, g) := Decode(maps[op.master], op.addr - ofs).value;
    NaturalLane(op.addr, op.Width());
    OneLoad(devs, s, g, ofs, op.n);
    hide Decode, LoadAt, Contents, Natural;
  }

  lemma OneAccess(maps: seq<seq<Region>>, devs: seq<Device>, op: Op)
    requires Memories(devs) && Fits(maps, devs, op) && AsItsGroup(maps[op.master], op.addr)
    ensures IsFlat(maps, devs, op)
  {
    if op.StoreOp? {
      FlatStoreIs(maps, devs, op);
    } else {
      FlatLoadIs(maps, devs, op);
    }
    hide Decode, Through, Flat, Contents, Splice, IsFlat, Natural;
  }

  // On the device that the map selects,
  lemma OneStore(devs: seq<Device>, s: nat, g: nat, ofs: nat, bytes: seq<byte>)
    requires Memories(devs) && s < |devs| && g + 8 <= |devs[s].mem|
    requires Natural(ofs, |bytes|) && ofs < 8 && ofs + |bytes| <= 8
    ensures var devs' := devs[s := StoreAt(devs[s], g, ofs, bytes)];
      Contents(devs') == Contents(devs)[s := Splice(Contents(devs)[s], g + ofs, bytes)]
  {
    StoreAtIsFlat(devs[s], g, ofs, bytes);
    hide StoreAt, Splice, Natural;
    BytesUpdate(devs, s, StoreAt(devs[s], g, ofs, bytes));
  }

  lemma OneLoad(devs: seq<Device>, s: nat, g: nat, ofs: nat, n: nat)
    requires Memories(devs) && s < |devs| && Natural(ofs, n) && ofs < 8 && ofs + n <= 8 && g + 8 <= |devs[s].mem|
    ensures var (d, answer) := LoadAt(devs[s], g, ofs, n);
      && Contents(devs[s := d]) == Contents(devs)
      && answer == Contents(devs)[s][g + ofs..g + ofs + n]
  {
    LoadAtIsFlat(devs[s], g, ofs, n);
    hide LoadAt, Natural;
    BytesUpdate(devs, s, LoadAt(devs[s], g, ofs, n).0);
    assert Contents(devs)[s := devs[s].mem] == Contents(devs);
  }

  lemma BytesUpdate(devs: seq<Device>, s: nat, d: Device)
    requires s < |devs|
    ensures Contents(devs[s := d]) == Contents(devs)[s := d.mem]
  {
  }

  // ---------- the exact condition ----------

  // Memories that are large enough for every offset, all bytes the same.
  ghost function Even(count: nat, b: byte): (devs: seq<Device>)
    ensures |devs| == count && Memories(devs)
    ensures forall s | 0 <= s < count :: |devs[s].mem| == TWO32 + 8
  {
    seq(count, s => Device(seq(TWO32 + 8, i => b), seq(8, i => 0)))
  }

  // How many memories the two decodings of an address need.
  ghost function Enough(regions: seq<Region>, addr: u32): (count: nat)
    ensures Decode(regions, addr).Some? ==> Decode(regions, addr).value.0 < count
    ensures Decode(regions, addr - addr % 8).Some? ==> Decode(regions, addr - addr % 8).value.0 < count
  {
    var s := if Decode(regions, addr).Some? then Decode(regions, addr).value.0 else 0;
    var t := if Decode(regions, addr - addr % 8).Some? then Decode(regions, addr - addr % 8).value.0 else 0;
    if s < t then t + 1 else s + 1
  }

  ghost function Ones(n: nat): (r: seq<byte>)
    ensures |r| == n && forall i | 0 <= i < n :: r[i] == 1
  {
    seq(n, i => 1)
  }

  // Two stores of ones into the same bytes elsewhere are told apart by the first byte of one of them.
  lemma StoresDiffer(mems: seq<seq<byte>>, s: nat, x: nat, s': nat, x': nat, n: nat)
    requires s < |mems| && s' < |mems| && x + n <= |mems[s]| && x' + n <= |mems[s']| && n > 0
    requires forall t, i | 0 <= t < |mems| && 0 <= i < |mems[t]| :: mems[t][i] == 0
    requires mems[s := Splice(mems[s], x, Ones(n))] == mems[s' := Splice(mems[s'], x', Ones(n))]
    ensures s == s' && x == x'
  {
    var m, m' := mems[s := Splice(mems[s], x, Ones(n))], mems[s' := Splice(mems[s'], x', Ones(n))];
    assert m[s][x] == 1 && m'[s'][x'] == 1;
    assert m'[s][x] == 1 && m[s'][x'] == 1;
  }

  // Where the map has an address elsewhere than its group, a store goes wrong.
  lemma Misrouted(maps: seq<seq<Region>>, m: nat, addr: u32, n: nat) returns (devs: seq<Device>)
    requires m < |maps| && Natural(addr, n) && Decode(maps[m], addr - addr % 8).Some? && !AsItsGroup(maps[m], addr)
    ensures var op := StoreOp(m, addr, Ones(n));
      Memories(devs) && Fits(maps, devs, op) && !IsFlat(maps, devs, op)
  {
    var op := StoreOp(m, addr, Ones(n));
    var (s, g) := Decode(maps[m], addr - addr % 8).value;
    devs := Even(Enough(maps[m], addr), 0);
    ZeroContents(devs);
    FlatStoreIs(maps, devs, op);
    if IsFlat(maps, devs, op) {
      var (s', a) := Decode(maps[m], addr).value;
      hide Decode, Through, IsFlat, Splice, Natural, Contents, Even, Ones;
      StoresDiffer(Contents(devs), s, g + addr % 8, s', a, n);
      assert false;
    }
  }

  lemma ZeroContents(devs: seq<Device>)
    requires forall s, i | 0 <= s < |devs| && 0 <= i < |devs[s].mem| :: devs[s].mem[i] == 0
    ensures forall t, i | 0 <= t < |Contents(devs)| && 0 <= i < |Contents(devs)[t]| :: Contents(devs)[t][i] == 0
  {
  }

  // Ones among zeros are read as ones at one place only.
  lemma OnesAreThere(mems: seq<seq<byte>>, s: nat, x: nat, s': nat, x': nat, n: nat)
    requires s < |mems| && s' < |mems| && x + n <= |mems[s]| && x' + n <= |mems[s']| && n > 0
    requires forall t, i | 0 <= t < |mems| && 0 <= i < |mems[t]| :: mems[t][i] == 0
    ensures Splice(mems[s], x, Ones(n))[x..x + n] == Ones(n)
    ensures mems[s := Splice(mems[s], x, Ones(n))][s'][x'..x' + n] == Ones(n) ==> s == s' && x == x'
  {
    var window := mems[s := Splice(mems[s], x, Ones(n))][s'][x'..x' + n];
    if window == Ones(n) {
      assert window[0] == 1 && window[n - 1] == 1;
    }
  }

  // And so does a load, from memories that hold ones where the load goes and zeros elsewhere.
  lemma Misread(maps: seq<seq<Region>>, m: nat, addr: u32, n: nat) returns (devs: seq<Device>)
    requires m < |maps| && Natural(addr, n) && Decode(maps[m], addr - addr % 8).Some? && !AsItsGroup(maps[m], addr)
    ensures Memories(devs) && Fits(maps, devs, LoadOp(m, addr, n)) && !IsFlat(maps, devs, LoadOp(m, addr, n))
  {
    var op, x := LoadOp(m, addr, n), addr % 8;
    var (s, g) := Decode(maps[m], addr - x).value;
    NaturalLane(addr, n);
    devs := Marked(Enough(maps[m], addr), s, g + x, n);
    ghost var zeros := Even(Enough(maps[m], addr), 0);
    FlatLoadIs(maps, devs, op);
    if IsFlat(maps, devs, op) {
      var (s', a) := Decode(maps[m], addr).value;
      hide Decode, IsFlat, Splice, Natural, Contents, Even, Ones;
      OnesAreThere(Contents(zeros), s, g + x, s', a, n);
      assert false;
    }
  }

  // Memories of zeros but for some ones.
  lemma Marked(count: nat, s: nat, x: nat, n: nat) returns (devs: seq<Device>)
    requires s < count && x + n <= TWO32 + 8
    ensures var zeros := Contents(Even(count, 0));
      && |devs| == count && Memories(devs) && (forall t | 0 <= t < count :: |devs[t].mem| == TWO32 + 8)
      && (forall t | 0 <= t < count :: |zeros[t]| == TWO32 + 8)
      && (forall t, i | 0 <= t < count && 0 <= i < |zeros[t]| :: zeros[t][i] == 0)
      && Contents(devs) == zeros[s := Splice(zeros[s], x, Ones(n))]
  {
    var even := Even(count, 0);
    ZeroContents(even);
    devs := even[s := even[s].(mem := Splice(even[s].mem, x, Ones(n)))];
    BytesUpdate(even, s, devs[s]);
  }

  // All stores, and all loads, of an address are flat if and only if the map has the address where it
  // has its group.
  lemma StoresFlatIff(maps: seq<seq<Region>>, m: nat, addr: u32, n: nat)
    requires m < |maps| && Natural(addr, n) && Decode(maps[m], addr - addr % 8).Some?
    ensures AsItsGroup(maps[m], addr)
            <==> forall devs, bytes | |bytes| == n && Memories(devs) && Fits(maps, devs, StoreOp(m, addr, bytes)) ::
                   IsFlat(maps, devs, StoreOp(m, addr, bytes))
  {
    hide Decode, AsItsGroup, IsFlat, Natural;
    if AsItsGroup(maps[m], addr) {
      forall devs, bytes | |bytes| == n && Memories(devs) && Fits(maps, devs, StoreOp(m, addr, bytes))
        ensures IsFlat(maps, devs, StoreOp(m, addr, bytes))
      {
        OneAccess(maps, devs, StoreOp(m, addr, bytes));
      }
    } else {
      var devs := Misrouted(maps, m, addr, n);
      assert |Ones(n)| == n;
    }
  }

  lemma LoadsFlatIff(maps: seq<seq<Region>>, m: nat, addr: u32, n: nat)
    requires m < |maps| && Natural(addr, n) && Decode(maps[m], addr - addr % 8).Some?
    ensures AsItsGroup(maps[m], addr)
            <==> forall devs | Memories(devs) && Fits(maps, devs, LoadOp(m, addr, n)) ::
                   IsFlat(maps, devs, LoadOp(m, addr, n))
  {
    hide Decode, AsItsGroup, IsFlat, Natural;
    if AsItsGroup(maps[m], addr) {
      forall devs | Memories(devs) && Fits(maps, devs, LoadOp(m, addr, n))
        ensures IsFlat(maps, devs, LoadOp(m, addr, n))
      {
        OneAccess(maps, devs, LoadOp(m, addr, n));
      }
    } else {
      var devs := Misread(maps, m, addr, n);
    }
  }

  // Two regions that share a group: address 4 is in the second one, and a word that is stored there
  // lands in the slave of the first one.
  lemma SharedGroup()
    ensures var maps, op := [[Region(0, 0, 4, 0), Region(1, 4, 8, 0)]], StoreOp(0, 4, [1, 2, 3, 4]);
      var devs := [Device([0, 0, 0, 0, 0, 0, 0, 0], [0, 0, 0, 0, 0, 0, 0, 0]),
                   Device([0, 0, 0, 0, 0, 0, 0, 0], [0, 0, 0, 0, 0, 0, 0, 0])];
      && !AsItsGroup(maps[0], 4)
      && Memories(devs) && Fits(maps, devs, op) && InFlat(maps, Contents(devs), op)
      && Contents(Through(maps, devs, op).0) == [[0, 0, 0, 0, 1, 2, 3, 4], [0, 0, 0, 0, 0, 0, 0, 0]]
      && Flat(maps, Contents(devs), op).0 == [[0, 0, 0, 0, 0, 0, 0, 0], [1, 2, 3, 4, 0, 0, 0, 0]]
  {
    var regions := [Region(0, 0, 4, 0), Region(1, 4, 8, 0)];
    var zeros: seq<byte> := [0, 0, 0, 0, 0, 0, 0, 0];
    var devs := [Device(zeros, zeros), Device(zeros, zeros)];
    assert Contents(devs) == [zeros, zeros];
    TwoDecodings();
    SplicedZeros(zeros);
    hide Decode, Contents, Through, Splice, IsFlat;
    FlatStoreIs([regions], devs, StoreOp(0, 4, [1, 2, 3, 4]));
  }

  lemma TwoDecodings()
    ensures var regions := [Region(0, 0, 4, 0), Region(1, 4, 8, 0)];
      Decode(regions, 4) == Some((1, 0)) && Decode(regions, 0) == Some((0, 0))
  {
    var regions := [Region(0, 0, 4, 0), Region(1, 4, 8, 0)];
    assert regions[1..] == [Region(1, 4, 8, 0)];
  }

  lemma SplicedZeros(zeros: seq<byte>)
    requires zeros == [0, 0, 0, 0, 0, 0, 0, 0]
    ensures Splice(zeros, 4, [1, 2, 3, 4]) == [0, 0, 0, 0, 1, 2, 3, 4]
    ensures Splice(zeros, 0, [1, 2, 3, 4]) == [1, 2, 3, 4, 0, 0, 0, 0]
  {
  }

  // ---------- runs ----------

  ghost predicate AllFit(maps: seq<seq<Region>>, devs: seq<Device>, ops: seq<Op>) {
    forall i | 0 <= i < |ops| :: Fits(maps, devs, ops[i])
  }

  ghost predicate AllAsTheirGroups(maps: seq<seq<Region>>, ops: seq<Op>) {
    forall i | 0 <= i < |ops| :: ops[i].master < |maps| && AsItsGroup(maps[ops[i].master], ops[i].addr)
  }

  ghost function RunThrough(maps: seq<seq<Region>>, devs: seq<Device>, ops: seq<Op>): (seq<Device>, seq<seq<byte>>)
    requires Memories(devs) && AllFit(maps, devs, ops)
    decreases |ops|
  {
    if ops == [] then (devs, [])
    else
      var (devs1, answer) := Through(maps, devs, ops[0]);
      StillFits(maps, devs, ops[0], ops[1..]);
      var (devs', answers) := RunThrough(maps, devs1, ops[1..]);
      (devs', [answer] + answers)
  }

  // Accesses keep the sizes of the memories.
  lemma StillFits(maps: seq<seq<Region>>, devs: seq<Device>, op: Op, ops: seq<Op>)
    requires Memories(devs) && Fits(maps, devs, op) && AllFit(maps, devs, ops)
    ensures Memories(Through(maps, devs, op).0) && AllFit(maps, Through(maps, devs, op).0, ops)
  {
    ThroughKeepsSizes(maps, devs, op);
    hide Through;
    var devs' := Through(maps, devs, op).0;
    forall i | 0 <= i < |ops|
      ensures Fits(maps, devs', ops[i])
    {
      assert Fits(maps, devs, ops[i]);
    }
  }

  lemma ThroughKeepsSizes(maps: seq<seq<Region>>, devs: seq<Device>, op: Op)
    requires Memories(devs) && Fits(maps, devs, op)
    ensures var devs' := Through(maps, devs, op).0;
      && |devs'| == |devs| && Memories(devs')
      && forall s | 0 <= s < |devs| :: |devs'[s].mem| == |devs[s].mem|
  {
    var ofs := op.addr % 8;
    var (s, g) := Decode(maps[op.master], op.addr - ofs).value;
    NaturalLane(op.addr, op.Width());
    if op.StoreOp? {
      StoreAtIsFlat(devs[s], g, ofs, op.bytes);
    } else {
      LoadAtIsFlat(devs[s], g, ofs, op.n);
    }
    hide Decode, StoreAt, LoadAt, Natural;
  }

  ghost predicate FlatRun(maps: seq<seq<Region>>, mems: seq<seq<byte>>, ops: seq<Op>,
                          mems': seq<seq<byte>>, answers: seq<seq<byte>>)
    decreases |ops|
  {
    if ops == [] then mems' == mems && answers == []
    else
      && InFlat(maps, mems, ops[0]) && answers != [] && Flat(maps, mems, ops[0]).1 == answers[0]
      && FlatRun(maps, Flat(maps, mems, ops[0]).0, ops[1..], mems', answers[1..])
  }

  // Every run through the network is a run on flat memories, with the same answers, as long as each
  // access is where its group is; a map of whole groups sees to that.
  lemma {:induction false} EveryRunIsFlat(maps: seq<seq<Region>>, devs: seq<Device>, ops: seq<Op>)
    requires Memories(devs) && AllFit(maps, devs, ops) && AllAsTheirGroups(maps, ops)
    ensures var (devs', answers) := RunThrough(maps, devs, ops);
      FlatRun(maps, Contents(devs), ops, Contents(devs'), answers)
    decreases |ops|
  {
    if ops != [] {
      OneAccess(maps, devs, ops[0]);
      StillFits(maps, devs, ops[0], ops[1..]);
      var (devs1, answer) := Through(maps, devs, ops[0]);
      EveryRunIsFlat(maps, devs1, ops[1..]);
      var (devs', answers) := RunThrough(maps, devs1, ops[1..]);
      assert ([answer] + answers)[1..] == answers;
    }
  }

  ghost predicate RunIsFlat(maps: seq<seq<Region>>, devs: seq<Device>, ops: seq<Op>)
    requires Memories(devs) && AllFit(maps, devs, ops)
  {
    var (devs', answers) := RunThrough(maps, devs, ops);
    FlatRun(maps, Contents(devs), ops, Contents(devs'), answers)
  }

  // The maps have every address that the dispatchers take where they have its group.
  ghost predicate MapsAgree(maps: seq<seq<Region>>) {
    forall m, addr: u32 | 0 <= m < |maps| && Decode(maps[m], addr - addr % 8).Some? :: AsItsGroup(maps[m], addr)
  }

  // All runs of all accesses are flat if and only if the maps are of that kind.
  lemma RunsFlatIff(maps: seq<seq<Region>>)
    ensures MapsAgree(maps)
            <==> forall devs, ops | Memories(devs) && AllFit(maps, devs, ops) :: RunIsFlat(maps, devs, ops)
  {
    if MapsAgree(maps) {
      forall devs, ops | Memories(devs) && AllFit(maps, devs, ops)
        ensures RunIsFlat(maps, devs, ops)
      {
        AgreeingRunIsFlat(maps, devs, ops);
      }
    } else {
      var m, addr: u32 :| 0 <= m < |maps| && Decode(maps[m], addr - addr % 8).Some? && !AsItsGroup(maps[m], addr);
      var devs := Misrouted(maps, m, addr, 1);
      OneOpRun(maps, devs, StoreOp(m, addr, Ones(1)));
    }
  }

  lemma AgreeingRunIsFlat(maps: seq<seq<Region>>, devs: seq<Device>, ops: seq<Op>)
    requires MapsAgree(maps) && Memories(devs) && AllFit(maps, devs, ops)
    ensures RunIsFlat(maps, devs, ops)
  {
    hide AsItsGroup, Decode, RunThrough, FlatRun;
    forall i | 0 <= i < |ops|
      ensures ops[i].master < |maps| && AsItsGroup(maps[ops[i].master], ops[i].addr)
    {
      assert Fits(maps, devs, ops[i]);
    }
    EveryRunIsFlat(maps, devs, ops);
  }

  lemma OneOpRun(maps: seq<seq<Region>>, devs: seq<Device>, op: Op)
    requires Memories(devs) && Fits(maps, devs, op)
    ensures AllFit(maps, devs, [op]) && (RunIsFlat(maps, devs, [op]) ==> IsFlat(maps, devs, op))
  {
    OneOpThrough(maps, devs, op);
    OneOpFlat(maps, Contents(devs), op, Contents(Through(maps, devs, op).0), Through(maps, devs, op).1);
    hide Through, Decode, Flat, InFlat, Contents, Fits, RunThrough, FlatRun;
  }

  lemma OneOpThrough(maps: seq<seq<Region>>, devs: seq<Device>, op: Op)
    requires Memories(devs) && Fits(maps, devs, op)
    ensures AllFit(maps, devs, [op])
    ensures RunThrough(maps, devs, [op]) == (Through(maps, devs, op).0, [Through(maps, devs, op).1])
  {
    hide Through, Fits;
    StillFits(maps, devs, op, []);
    assert [op][1..] == [] && [Through(maps, devs, op).1] + [] == [Through(maps, devs, op).1];
    assert RunThrough(maps, Through(maps, devs, op).0, []) == (Through(maps, devs, op).0, []);
  }

  lemma OneOpFlat(maps: seq<seq<Region>>, mems: seq<seq<byte>>, op: Op, mems': seq<seq<byte>>, answer: seq<byte>)
    ensures FlatRun(maps, mems, [op], mems', [answer])
            <==> InFlat(maps, mems, op) && Flat(maps, mems, op) == (mems', answer)
  {
    hide InFlat, Flat;
    assert [op][1..] == [] && [answer][1..] == [];
  }

  // Maps of whole groups are of that kind, so that every run of natural accesses is flat.
  lemma WholeGroupsAreFlat(maps: seq<seq<Region>>, devs: seq<Device>, ops: seq<Op>)
    requires forall m | 0 <= m < |maps| :: ByGroups(maps[m])
    requires Memories(devs) && AllFit(maps, devs, ops)
    ensures MapsAgree(maps) && RunIsFlat(maps, devs, ops)
  {
    forall m, addr: u32 | 0 <= m < |maps| && Decode(maps[m], addr - addr % 8).Some?
      ensures AsItsGroup(maps[m], addr)
    {
      GroupDecodes(maps[m], addr);
    }
    AgreeingRunIsFlat(maps, devs, ops);
  }
}

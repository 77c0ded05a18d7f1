/**
 The words of the network in the bytes of a memory device: what the devices of the network do with
 words, in any run, is what a memory does with the lanes of their requests and responses.
 */
module WordMemory {
  import opened AddressMap
  import opened Bytes
  import opened MemoryLanes
  import opened FlatMemory
  import opened Channels
  import opened ChannelRuns
  import opened Network
  import opened NetworkRefinement

  // ---------- words and bytes ----------

  // Little-endian, as the 32-bit host has it.
  function BytesOf(v: u32): (r: seq<byte>)
    ensures |r| == 4
  {
    [ByteOf(v % 256), ByteOf(v / 0x100 % 256), ByteOf(v / 0x1_0000 % 256), ByteOf(v / 0x100_0000)]
  }

  function WordOf(b: seq<byte>): nat
    requires |b| == 4
  {
    b[0] as int + 0x100 * (b[1] as int) + 0x1_0000 * (b[2] as int) + 0x100_0000 * (b[3] as int)
  }

  lemma Quarters(v: u32)
    ensures v == v % 256 + 0x100 * (v / 0x100 % 256) + 0x1_0000 * (v / 0x1_0000 % 256) + 0x100_0000 * (v / 0x100_0000)
  {
    assert v / 0x100 == v / 0x100 % 256 + 0x100 * (v / 0x100 / 256);
    assert v / 0x1_0000 == v / 0x1_0000 % 256 + 0x100 * (v / 0x1_0000 / 256);
    assert v / 0x100 / 256 == v / 0x1_0000 && v / 0x1_0000 / 256 == v / 0x100_0000;
  }

  lemma WordBack(v: u32)
    ensures WordOf(BytesOf(v)) == v
  {
    ByteBack(v % 256);
    ByteBack(v / 0x100 % 256);
    ByteBack(v / 0x1_0000 % 256);
    ByteBack(v / 0x100_0000);
    Quarters(v);
    hide ByteOf;
  }

  // The lowest byte is the first one, and the others are those of the rest of the word.
  lemma LowestFirst(v: u32, low: u8)
    requires 256 * v + low < TWO32
    ensures BytesOf(256 * v + low) == [ByteOf(low)] + BytesOf(v)[..3]
  {
    var x := 256 * v + low;
    assert x / 0x100 == v;
    assert x / 0x1_0000 == v / 0x100 && x / 0x100_0000 == v / 0x1_0000;
    hide ByteOf;
  }

  // ---------- a memory that holds words ----------

  predicate Inside(bytes: seq<byte>, offset: nat) { offset % 4 == 0 && offset + 4 <= |bytes| }

  ghost predicate Holds(bytes: seq<byte>, m: Mem) {
    forall o: nat | Inside(bytes, o) :: WordOf(bytes[o..o + 4]) == Load(m, o)
  }

  lemma StoreHolds(bytes: seq<byte>, m: Mem, offset: nat, v: u32)
    requires Holds(bytes, m) && Inside(bytes, offset)
    ensures Holds(Splice(bytes, offset, BytesOf(v)), m[offset := v])
  {
    var bytes' := Splice(bytes, offset, BytesOf(v));
    WordBack(v);
    hide BytesOf, WordOf;
    forall o: nat | Inside(bytes', o)
      ensures WordOf(bytes'[o..o + 4]) == Load(m[offset := v], o)
    {
      assert Inside(bytes, o);
      if o == offset {
        assert bytes'[o..o + 4] == BytesOf(v);
      } else {
        Apart(o, offset);
        assert bytes'[o..o + 4] == bytes[o..o + 4];
      }
    }
  }

  lemma Apart(x: nat, y: nat)
    requires x % 4 == 0 && y % 4 == 0 && x != y
    ensures x + 4 <= y || y + 4 <= x
  {
  }

  // ---------- one request ----------

  // The device has the group of the request.
  ghost predicate HasGroup(d: Device, r: Request) {
    && |d.rdata| == 8 && IsWord(r.addr, r.offset) && r.addr % 8 <= r.offset
    && r.offset - r.addr % 8 + 8 <= |d.mem|
  }

  lemma WordLanes(addr: u32)
    requires addr % 4 == 0
    ensures Natural(addr % 8, 4) && addr % 8 + 4 <= 8
  {
    WordLane(addr);
  }

  // The request through the lanes of a group: the device afterwards and the word of the response.
  ghost function InGroup(d: Device, g: nat, lane: nat, r: Request): (Device, nat)
    requires Natural(lane, 4) && lane + 4 <= 8 && g + 8 <= |d.mem| && |d.rdata| == 8
  {
    if r.write then (StoreAt(d, g, lane, BytesOf(r.data)), 0)
    else
      var (d', answer) := LoadAt(d, g, lane, 4);
      LoadAtIsFlat(d, g, lane, 4);
      (d', WordOf(answer))
  }

  ghost function ByLanes(d: Device, r: Request): (Device, nat)
    requires HasGroup(d, r)
  {
    WordLanes(r.addr);
    InGroup(d, r.offset - r.addr % 8, r.addr % 8, r)
  }

  lemma ByLanesIsAccess(d: Device, m: Mem, r: Request)
    requires HasGroup(d, r) && Holds(d.mem, m)
    ensures var (d', v) := ByLanes(d, r);
      && Holds(d'.mem, Access(Memory, m, r).0) && v == Access(Memory, m, r).1
      && |d'.mem| == |d.mem| && |d'.rdata| == 8
  {
    hide Holds, InGroup, Natural, Access;
    WordLanes(r.addr);
    assert r.offset % 4 == 0;
    InGroupIsAccess(d, m, r.offset - r.addr % 8, r.addr % 8, r);
  }

  lemma InGroupIsAccess(d: Device, m: Mem, g: nat, lane: nat, r: Request)
    requires Natural(lane, 4) && lane + 4 <= 8 && g + 8 <= |d.mem| && |d.rdata| == 8
    requires Holds(d.mem, m) && r.offset == g + lane && r.offset % 4 == 0
    ensures var (d', v) := InGroup(d, g, lane, r);
      && Holds(d'.mem, Access(Memory, m, r).0) && v == Access(Memory, m, r).1
      && |d'.mem| == |d.mem| && |d'.rdata| == 8
  {
    if r.write {
      StoreOneWord(d, m, g, lane, r.data);
    } else {
      LoadOneWord(d, m, g, lane);
    }
    hide StoreAt, LoadAt, BytesOf, WordOf, Natural, Holds;
  }

  lemma StoreOneWord(d: Device, m: Mem, g: nat, lane: nat, v: u32)
    requires Holds(d.mem, m) && Natural(lane, 4) && lane + 4 <= 8 && g + 8 <= |d.mem|
    requires (g + lane) % 4 == 0 && |d.rdata| == 8
    ensures var d' := StoreAt(d, g, lane, BytesOf(v));
      Holds(d'.mem, m[g + lane := v]) && |d'.mem| == |d.mem| && |d'.rdata| == 8
  {
    hide StoreAt, BytesOf, WordOf, Natural, Holds;
    StoreAtIsFlat(d, g, lane, BytesOf(v));
    StoreHolds(d.mem, m, g + lane, v);
  }

  lemma LoadOneWord(d: Device, m: Mem, g: nat, lane: nat)
    requires Holds(d.mem, m) && Natural(lane, 4) && lane + 4 <= 8 && g + 8 <= |d.mem|
    requires (g + lane) % 4 == 0 && |d.rdata| == 8
    ensures var (d', answer) := LoadAt(d, g, lane, 4);
      d'.mem == d.mem && |answer| == 4 && WordOf(answer) == Load(m, g + lane) && |d'.rdata| == 8
  {
    assert Inside(d.mem, g + lane) && WordOf(d.mem[g + lane..g + lane + 4]) == Load(m, g + lane);
    hide LoadAt, WordOf, Natural, Holds;
    LoadAtIsFlat(d, g, lane, 4);
  }

  // ---------- every run of the network ----------

  // The device s after it has performed the transactions of a log that are its own.
  ghost predicate AllHaveGroups(log: seq<Msg>, s: nat, d: Device) {
    forall k | 0 <= k < |log| && log[k].req.slave == s :: HasGroup(d, log[k].req)
  }

  ghost function DeviceAfter(cfg: Config, log: seq<Msg>, s: nat, d: Device): (r: Device)
    requires s < |cfg.kinds| && cfg.kinds[s].Memory? && AllHaveGroups(log, s, d) && Holds(d.mem, map[])
    ensures |r.mem| == |d.mem| && (|d.rdata| == 8 ==> |r.rdata| == 8) && Holds(r.mem, MemAfter(cfg, log, s))
  {
    if log == [] then d
    else
      var n := |log| - 1;
      var d1 := DeviceAfter(cfg, log[..n], s, d);
      if log[n].req.slave != s then d1
      else
        assert HasGroup(d, log[n].req);
        ByLanesIsAccess(d1, MemAfter(cfg, log[..n], s), log[n].req);
        ByLanes(d1, log[n].req).0
  }

  // In every run of the network a memory slave that starts with zeros, and has the groups that it is
  // asked for, could as well be a memory device with byte lanes: it holds the same words at the end,
  // and it has answered every request with the same word.
  lemma LanesServeTheNetwork(n: Net, moves: seq<Move>, s: nat, d: Device)
    requires NetInit(n) && NetLegal(n, moves) && s < |NetAfter(n, moves).cfg.kinds|
    requires NetAfter(n, moves).cfg.kinds[s].Memory? && Holds(d.mem, map[])
    requires AllHaveGroups(Services(n, moves), s, d)
    ensures var b, log := NetAfter(n, moves), Services(n, moves);
      && s < |b.slaves| && Holds(DeviceAfter(b.cfg, log, s, d).mem, b.slaves[s].mem)
      && forall k | 0 <= k < |log| && log[k].req.slave == s ::
           log[k].value == AnswerAt(b.cfg, log, s, d, k)
  {
    var steps := NetworkRefinesChannels(n, moves);
    var b, log := NetAfter(n, moves), Services(n, moves);
    var a := After(Start0(n), steps);
    assert b.slaves[s].mem == MemAfter(b.cfg, log, s);
    forall k | 0 <= k < |log| && log[k].req.slave == s
      ensures log[k].value == AnswerAt(b.cfg, log, s, d, k)
    {
      assert ValueOk(a.cfg, log, k);
      AnswerIs(b.cfg, log, s, d, k);
    }
  }

  ghost function AnswerAt(cfg: Config, log: seq<Msg>, s: nat, d: Device, k: nat): nat
    requires s < |cfg.kinds| && cfg.kinds[s].Memory? && AllHaveGroups(log, s, d) && Holds(d.mem, map[])
    requires k < |log| && log[k].req.slave == s
  {
    assert HasGroup(d, log[k].req);
    ByLanes(DeviceAfter(cfg, log[..k], s, d), log[k].req).1
  }

  lemma AnswerIs(cfg: Config, log: seq<Msg>, s: nat, d: Device, k: nat)
    requires s < |cfg.kinds| && cfg.kinds[s].Memory? && AllHaveGroups(log, s, d) && Holds(d.mem, map[])
    requires k < |log| && log[k].req.slave == s
    ensures AnswerAt(cfg, log, s, d, k) == Access(Memory, MemAfter(cfg, log[..k], s), log[k].req).1
  {
    assert HasGroup(d, log[k].req);
    ByLanesIsAccess(DeviceAfter(cfg, log[..k], s, d), MemAfter(cfg, log[..k], s), log[k].req);
    hide DeviceAfter, ByLanes, Holds;
  }

  // A device of zeros holds the words of the start.
  lemma ZerosHold(bytes: seq<byte>)
    requires forall i | 0 <= i < |bytes| :: bytes[i] == 0
    ensures Holds(bytes, map[])
  {
  }

  // Whatever the network asks of a memory lies in whole groups: only the size is left to the platform.
  lemma RequestsHaveGroups(n: Net, moves: seq<Move>, k: nat)
    requires NetInit(n) && NetLegal(n, moves) && k < |Services(n, moves)|
    ensures var r := Services(n, moves)[k].req;
      IsWord(r.addr, r.offset) && r.addr % 8 <= r.offset
  {
    var steps := NetworkRefinesChannels(n, moves);
    hide NetLegal, Legal, After, NetAfter, Init, NetInit, Start0, Services, IsWord;
    InitIsOk(Start0(n));
    RunKeepsOk(Start0(n), steps);
    LoggedIsWord(After(Start0(n), steps), k);
  }

  lemma LoggedIsWord(a: Sys, k: nat)
    requires Ok(a) && k < |a.log|
    ensures IsWord(a.log[k].req.addr, a.log[k].req.offset) && a.log[k].req.addr % 8 <= a.log[k].req.offset
  {
    assert EntryOk(a.cfg, a.cpus, a.log[k].req);
  }
}

/**
 Byte lanes: how an access of one, two or four bytes becomes an eight-byte group with byte
 enables, what a memory device does with it, and how the answer is cut out again.
 */
module MemoryLanes {
  import opened AddressMap
  import opened Bytes
  import opened Options

  // ---------- byte enables ----------

  type mask = x: int | 0 <= x < 256

  // be >> k and be << k, on eight bits.
  function Shr(be: mask, k: nat): mask {
    match k
    case 0 => be
    case 1 => be / 2
    case 2 => be / 4
    case 3 => be / 8
    case 4 => be / 16
    case 5 => be / 32
    case 6 => be / 64
    case 7 => be / 128
    case _ => 0
  }

  function Shl(be: mask, k: nat): mask {
    match k
    case 0 => be
    case 1 => be * 2 % 256
    case 2 => be * 4 % 256
    case 3 => be * 8 % 256
    case 4 => be * 16 % 256
    case 5 => be * 32 % 256
    case 6 => be * 64 % 256
    case 7 => be * 128 % 256
    case _ => 0
  }

  predicate Lane(be: mask, k: nat) { Shr(be, k) % 2 == 1 }

  // The first enabled, respectively disabled, lane from k on; 8 if there is none.
  function Low(be: mask, k: nat): (j: nat)
    requires k <= 8
    ensures k <= j <= 8 && (j < 8 ==> Lane(be, j)) && forall i | k <= i < j :: !Lane(be, i)
    decreases 8 - k
  {
    if k == 8 || Lane(be, k) then k else Low(be, k + 1)
  }

  function End(be: mask, k: nat): (j: nat)
    requires k <= 8
    ensures k <= j <= 8 && (j < 8 ==> !Lane(be, j)) && forall i | k <= i < j :: Lane(be, i)
    decreases 8 - k
  {
    if k == 8 || !Lane(be, k) then k else End(be, k + 1)
  }

  // The enabled lanes are those from lo up to lo + n.
  ghost predicate Run(be: mask, lo: nat, n: nat) {
    n > 0 && lo + n <= 8 && forall k | 0 <= k < 8 :: Lane(be, k) <==> lo <= k < lo + n
  }

  lemma RunBounds(be: mask, lo: nat, n: nat)
    requires Run(be, lo, n)
    ensures Low(be, 0) == lo && End(be, lo) == lo + n
  {
    assert Lane(be, lo);
  }

  lemma NextLane(be: mask, k: nat)
    requires k < 8
    ensures Shr(be, k) / 2 == Shr(be, k + 1)
  {
  }

  // ---------- the master's side ----------

  const OPERATION_MASKS: seq<mask> := [0xDE, 0x01, 0x03, 0xDE, 0x0F, 0xDE, 0xDE, 0xDE, 0xFF]

  // The accesses that a CPU makes: one, two or four bytes at a multiple of their number.
  predicate Natural(addr: nat, n: nat) { (n == 1 || n == 2 || n == 4) && addr % n == 0 }

  function MaskOf(n: nat, ofs: nat): mask
    requires n < 9 && ofs < 8
  {
    Shl(OPERATION_MASKS[n], ofs)
  }

  // ---------- the memory's side ----------

  // The place and the width of an access that the tables of mem_device know, in units of the width.
  function Aligned(be: mask): Option<(nat, nat)> {
    match be
    case 0x01 => Some((0, 1))
    case 0x02 => Some((1, 1))
    case 0x04 => Some((2, 1))
    case 0x08 => Some((3, 1))
    case 0x10 => Some((4, 1))
    case 0x20 => Some((5, 1))
    case 0x40 => Some((6, 1))
    case 0x80 => Some((7, 1))
    case 0x03 => Some((0, 2))
    case 0x0C => Some((1, 2))
    case 0x30 => Some((2, 2))
    case 0xC0 => Some((3, 2))
    case 0x0F => Some((0, 4))
    case 0xF0 => Some((1, 4))
    case _ => None
  }

  lemma AlignedIsRun(be: mask)
    requires Aligned(be).Some?
    ensures var (o, w) := Aligned(be).value;
      Run(be, o * w, w)
  {
    var (o, w) := Aligned(be).value;
    forall k | 0 <= k < 8
      ensures Lane(be, k) <==> o * w <= k < o * w + w
    {
      if k == 0 {} else if k == 1 {} else if k == 2 {} else if k == 3 {}
      else if k == 4 {} else if k == 5 {} else if k == 6 {} else {}
    }
  }

  // Natural accesses are in the tables, so that a memory serves them all.
  lemma MaskIsAligned(n: nat, ofs: nat)
    requires Natural(ofs, n) && ofs < 8
    ensures Aligned(MaskOf(n, ofs)) == Some((ofs / n, n))
  {
  }

  lemma MaskIsRun(n: nat, ofs: nat)
    requires Natural(ofs, n) && ofs < 8
    ensures Run(MaskOf(n, ofs), ofs, n)
  {
    MaskIsAligned(n, ofs);
    AlignedIsRun(MaskOf(n, ofs));
    assert ofs / n * n == ofs;
  }

  function Splice(m: seq<byte>, at: nat, bytes: seq<byte>): seq<byte>
    requires at + |bytes| <= |m|
  {
    m[..at] + bytes + m[at + |bytes|..]
  }

  // The bytes are in their place and all others stay.
  lemma SpliceIs(m: seq<byte>, at: nat, bytes: seq<byte>, i: nat)
    requires at + |bytes| <= |m|
    ensures |Splice(m, at, bytes)| == |m|
    ensures i < |m| ==> Splice(m, at, bytes)[i] == if at <= i < at + |bytes| then bytes[i - at] else m[i]
  {
  }

  // Behind the first stretch of enabled lanes.
  function Top(be: mask): (j: nat)
    ensures Low(be, 0) <= j <= 8
  {
    End(be, Low(be, 0))
  }

  // What a write leaves in the memory: the bytes of the first stretch of enabled lanes.
  function Written(m: seq<byte>, ofs: nat, be: mask, data: seq<byte>): seq<byte>
    requires |data| == 8 && ofs + Top(be) <= |m|
  {
    var lo := Low(be, 0);
    Splice(m, ofs + lo, data[lo..Top(be)])
  }

  // What a read leaves in the response, whose other lanes keep what they held.
  function ReadLanes(m: seq<byte>, ofs: nat, be: mask, rdata: seq<byte>): Option<seq<byte>>
    requires |rdata| == 8 && (ofs >= |m| || Aligned(be).None? || ofs + Top(be) <= |m|)
  {
    if ofs >= |m| || Aligned(be).None? then None
    else
      var lo := Low(be, 0);
      Some(Splice(rdata, lo, m[ofs + lo..ofs + Top(be)]))
  }

  // A write is reported unless its lanes are one stretch of a width that the bus knows.
  predicate Regular(be: mask) {
    var lo := Low(be, 0);
    var hi := End(be, lo);
    && (hi - lo == 1 || hi - lo == 2 || hi - lo == 4 || hi - lo == 8)
    && Low(be, hi) == 8
  }

  lemma RunIsRegular(be: mask, lo: nat, n: nat)
    requires Run(be, lo, n) && (n == 1 || n == 2 || n == 4 || n == 8)
    ensures Regular(be)
  {
    RunBounds(be, lo, n);
  }

  // And any other lanes are.
  lemma RegularIff(be: mask)
    ensures Regular(be) <==> exists lo, n :: Run(be, lo, n) && (n == 1 || n == 2 || n == 4 || n == 8)
  {
    if Regular(be) {
      var lo := Low(be, 0);
      assert Run(be, lo, End(be, lo) - lo);
    } else if lo, n :| Run(be, lo, n) && (n == 1 || n == 2 || n == 4 || n == 8) {
      RunIsRegular(be, lo, n);
    }
  }

  lemma {:induction false} ShiftedOut(be: mask, k: nat)
    requires k <= 8
    ensures Shr(be, k) == 0 <==> Low(be, k) == 8
    decreases 8 - k
  {
    if k < 8 {
      ShiftedOut(be, k + 1);
      NextLane(be, k);
    }
  }

  // ---------- mem_device ----------

  // The store of one unit; width is 1, 2, 4 or 8.
  method StoreUnit(mem: array<byte>, ofs: nat, data: seq<byte>, lo: nat, width: nat)
    requires |data| == 8 && lo + width <= 8 && ofs + lo + width <= mem.Length
    modifies mem
    ensures mem[..] == Splice(old(mem[..]), ofs + lo, data[lo..lo + width])
  {
    forall k | 0 <= k < width {
      mem[ofs + lo + k] := data[lo + k];
    }
  }

  // write; the result is what the source prints about.  Its range check is about the group: that the
  // enabled lanes lie in the memory is left to the address map.
  method Write(mem: array<byte>, ofs: nat, be: mask, data: seq<byte>) returns (bad: bool)
    requires |data| == 8 && (ofs > mem.Length || be == 0 || ofs + Top(be) <= mem.Length)
    modifies mem
    ensures bad <==> ofs > mem.Length || be == 0 || !Regular(be)
    ensures mem[..] == if ofs > mem.Length || be == 0 then old(mem[..]) else Written(old(mem[..]), ofs, be, data)
  {
    if ofs > mem.Length || be == 0 {
      return true;
    }
    var place := Aligned(be);
    if place.Some? {
      var w := place.value.1;
      var lo := place.value.0 * w;
      WrittenIs(mem[..], ofs, be, data, lo, w);
      StoreUnit(mem, ofs, data, lo, w);
      bad := false;
    } else if be == 0xFF {
      FullRun();
      StoreUnit(mem, ofs, data, 0, 8);
      bad := false;
    } else {
      bad := WriteStretch(mem, ofs, be, data);
    }
  }

  lemma WrittenIs(m: seq<byte>, ofs: nat, be: mask, data: seq<byte>, lo: nat, w: nat)
    requires |data| == 8 && ofs + Top(be) <= |m| && Aligned(be).Some?
    requires lo == Aligned(be).value.0 * Aligned(be).value.1 && w == Aligned(be).value.1
    ensures lo + w == Top(be) && Regular(be) && Written(m, ofs, be, data) == Splice(m, ofs + lo, data[lo..lo + w])
  {
    AlignedBounds(be);
  }

  lemma AlignedBounds(be: mask)
    requires Aligned(be).Some?
    ensures var (o, w) := Aligned(be).value;
      (w == 1 || w == 2 || w == 4) && Low(be, 0) == o * w && End(be, o * w) == o * w + w <= 8 && Regular(be)
  {
    AlignedIsRun(be);
    var (o, w) := Aligned(be).value;
    RunBounds(be, o * w, w);
    RunIsRegular(be, o * w, w);
  }

  lemma FullRun()
    ensures Low(0xFF, 0) == 0 && End(0xFF, 0) == 8 && Regular(0xFF)
  {
    forall k | 0 <= k < 8
      ensures Lane(0xFF, k)
    {
      if k == 0 {} else if k == 1 {} else if k == 2 {} else if k == 3 {}
      else if k == 4 {} else if k == 5 {} else if k == 6 {} else {}
    }
    RunBounds(0xFF, 0, 8);
    RunIsRegular(0xFF, 0, 8);
  }

  // The first loop: to the lowest enabled lane.
  method SkipDisabled(be: mask) returns (tbe: mask, lane: nat)
    requires be != 0
    ensures lane == Low(be, 0) < 8 && tbe == Shr(be, lane)
  {
    tbe, lane := be, 0;
    ShiftedOut(be, 0);
    while tbe % 2 == 0
      invariant lane <= 8 && tbe == Shr(be, lane) && tbe != 0 && Low(be, 0) == Low(be, lane)
      decreases 8 - lane
    {
      ShiftedOut(be, lane);
      NextLane(be, lane);
      tbe := tbe / 2;
      lane := lane + 1;
      ShiftedOut(be, lane);
    }
    ShiftedOut(be, lane);
  }

  // The default branch of write, lane by lane.
  method WriteStretch(mem: array<byte>, ofs: nat, be: mask, data: seq<byte>) returns (bad: bool)
    requires |data| == 8 && ofs + Top(be) <= mem.Length && be != 0
    modifies mem
    ensures bad <==> !Regular(be)
    ensures mem[..] == Written(old(mem[..]), ofs, be, data)
  {
    var tbe, lo := SkipDisabled(be);
    var lane: nat;
    tbe, lane := CopyEnabled(mem, ofs, be, tbe, lo, data);
    ShiftedOut(be, lane);
    var mod := lane - lo;
    bad := (mod != 1 && mod != 2 && mod != 4 && mod != 8) || tbe != 0;
  }

  // Its second loop: copies from an enabled lane to the next disabled one.
  method CopyEnabled(mem: array<byte>, ofs: nat, be: mask, from: mask, lo: nat, data: seq<byte>)
    returns (tbe: mask, lane: nat)
    requires |data| == 8 && lo <= 8 && ofs + End(be, lo) <= mem.Length && from == Shr(be, lo)
    modifies mem
    ensures lane == End(be, lo) && tbe == Shr(be, lane)
    ensures mem[..] == Splice(old(mem[..]), ofs + lo, data[lo..lane])
  {
    tbe, lane := from, lo;
    ghost var was := mem[..];
    assert mem[..] == Splice(was, ofs + lo, data[lo..lo]);
    hide Splice, End, Shr, Lane;
    while tbe % 2 == 1
      invariant lo <= lane <= 8 && tbe == Shr(be, lane) && End(be, lo) == End(be, lane)
      invariant mem[..] == Splice(was, ofs + lo, data[lo..lane])
      decreases 8 - lane
    {
      OneMore(be, lo, lane);
      assert lane + 1 <= End(be, lane + 1);
      CopyLane(mem, ofs, data, lo, lane, was);
      tbe := tbe / 2;
      lane := lane + 1;
    }
    StopsHere(be, lane);
  }

  method CopyLane(mem: array<byte>, ofs: nat, data: seq<byte>, ghost lo: nat, lane: nat, ghost was: seq<byte>)
    requires |data| == 8 && lo <= lane < 8 && ofs + lane < mem.Length == |was|
    requires mem[..] == Splice(was, ofs + lo, data[lo..lane])
    modifies mem
    ensures mem[..] == Splice(was, ofs + lo, data[lo..lane + 1])
  {
    SpliceMore(was, ofs + lo, data, lo, lane);
    ghost var before := mem[..];
    mem[ofs + lane] := data[lane];
    assert mem[..] == before[ofs + lane := data[lane]];
  }

  lemma StopsHere(be: mask, lane: nat)
    requires lane <= 8 && Shr(be, lane) % 2 == 0
    ensures End(be, lane) == lane
  {
  }

  lemma OneMore(be: mask, lo: nat, lane: nat)
    requires lo <= lane <= 8 && End(be, lo) == End(be, lane) && Shr(be, lane) % 2 == 1
    ensures lane < 8 && End(be, lo) == End(be, lane + 1) && Shr(be, lane) / 2 == Shr(be, lane + 1)
  {
    NextLane(be, lane);
  }

  lemma SpliceMore(m: seq<byte>, at: nat, data: seq<byte>, lo: nat, k: nat)
    requires lo <= k < |data| && at + (k - lo) < |m|
    ensures Splice(m, at, data[lo..k + 1]) == Splice(m, at, data[lo..k])[at + (k - lo) := data[k]]
  {
    assert data[lo..k + 1] == data[lo..k] + [data[k]];
  }

  // read of a single group; the result is the error flag of the response.
  method Read(mem: array<byte>, ofs: nat, be: mask, rdata: array<byte>) returns (bErr: bool)
    requires rdata.Length == 8 && rdata != mem
    requires ofs >= mem.Length || Aligned(be).None? || ofs + Top(be) <= mem.Length
    modifies rdata
    ensures var r := ReadLanes(mem[..], ofs, be, old(rdata[..]));
      bErr == r.None? && rdata[..] == if r.Some? then r.value else old(rdata[..])
  {
    var place := Aligned(be);
    if ofs >= mem.Length || place.None? {
      return true;
    }
    var w := place.value.1;
    var lo := place.value.0 * w;
    ReadLanesIs(mem[..], ofs, be, rdata[..], lo, w);
    LoadUnit(mem, ofs, rdata, lo, w);
    return false;
  }

  lemma ReadLanesIs(m: seq<byte>, ofs: nat, be: mask, rdata: seq<byte>, lo: nat, w: nat)
    requires |rdata| == 8 && ofs < |m| && ofs + Top(be) <= |m| && Aligned(be).Some?
    requires lo == Aligned(be).value.0 * Aligned(be).value.1 && w == Aligned(be).value.1
    ensures lo + w == Top(be) && ReadLanes(m, ofs, be, rdata) == Some(Splice(rdata, lo, m[ofs + lo..ofs + lo + w]))
  {
    AlignedBounds(be);
  }

  method LoadUnit(mem: array<byte>, ofs: nat, rdata: array<byte>, lo: nat, width: nat)
    requires rdata.Length == 8 && rdata != mem && lo + width <= 8 && ofs + lo + width <= mem.Length
    modifies rdata
    ensures rdata[..] == Splice(old(rdata[..]), lo, mem[ofs + lo..ofs + lo + width])
  {
    forall k | 0 <= k < width {
      rdata[lo + k] := mem[ofs + lo + k];
    }
  }

  // ---------- master_device ----------

  function Limited(nbytes: nat): nat { if nbytes > 4 then 4 else nbytes }

  // A request of a natural access enables its lanes; one for more bytes than a word, those of the first
  // word.
  method SendReq(addr: u32, data: seq<byte>, nbytes: nat, write: bool)
    returns (address: u32, be: mask, wdata: seq<byte>)
    requires addr % 8 + Limited(nbytes) <= 8 && (write ==> |data| == Limited(nbytes))
    ensures address == addr - addr % 8 && be == MaskOf(Limited(nbytes), addr % 8)
    ensures wdata == LanesOf(addr % 8, if write then data else [])
    ensures Natural(addr % 8, nbytes) ==> Run(be, addr % 8, nbytes)
    ensures Natural(addr % 8, 4) && nbytes >= 4 ==> Run(be, addr % 8, 4)
  {
    var n := Limited(nbytes);
    var ofs := addr % 8;
    SentLanes(ofs, nbytes);
    address := addr - ofs;
    be := Shl(OPERATION_MASKS[n], ofs);
    wdata := seq(8, i => 0);
    if write {
      for i := 0 to n
        invariant wdata == LanesOf(ofs, data[..i])
      {
        wdata := wdata[i + ofs := data[i]];
      }
      assert data[..n] == data;
    }
  }

  lemma SentLanes(ofs: nat, nbytes: nat)
    requires ofs + Limited(nbytes) <= 8
    ensures Natural(ofs, nbytes) ==> Run(MaskOf(Limited(nbytes), ofs), ofs, nbytes)
    ensures Natural(ofs, 4) && nbytes >= 4 ==> Run(MaskOf(Limited(nbytes), ofs), ofs, 4)
  {
    hide MaskOf, Run;
    if Natural(ofs, nbytes) {
      MaskIsRun(nbytes, ofs);
    } else if Natural(ofs, 4) && nbytes >= 4 {
      MaskIsRun(4, ofs);
    }
  }

  // The eight lanes of a group with some bytes in place and 0 elsewhere.
  function LanesOf(ofs: nat, bytes: seq<byte>): (r: seq<byte>)
    requires ofs + |bytes| <= 8
    ensures |r| == 8
  {
    Splice(seq(8, i => 0), ofs, bytes)
  }

  // The offset that response_thread finds, and the number of bytes.
  method FindLanes(rbe: mask) returns (ofs: nat, nbytes: nat)
    ensures rbe != 0 ==> ofs == Low(rbe, 0) && nbytes == End(rbe, ofs) - ofs
    ensures rbe == 0 ==> ofs == 0 && nbytes == 0
  {
    ofs := 0;
    nbytes := 0;
    if rbe != 0 {
      var be: mask;
      be, ofs := SkipDisabled(rbe);
      nbytes := CountEnabled(rbe, be, ofs);
    }
  }

  method CountEnabled(rbe: mask, from: mask, ofs: nat) returns (nbytes: nat)
    requires ofs <= 8 && from == Shr(rbe, ofs)
    ensures nbytes == End(rbe, ofs) - ofs
  {
    var be := from;
    nbytes := 0;
    while be % 2 == 1
      invariant ofs + nbytes <= 8 && be == Shr(rbe, ofs + nbytes) && End(rbe, ofs) == End(rbe, ofs + nbytes)
      decreases 8 - ofs - nbytes
    {
      NextLane(rbe, ofs + nbytes);
      nbytes := nbytes + 1;
      be := be / 2;
    }
  }

  // ---------- one flat memory ----------

  // The bytes that an access of n bytes at lane ofs of a group reads or writes are those at the
  // same place of the memory.
  lemma StoreIsFlat(m: seq<byte>, group: nat, ofs: nat, bytes: seq<byte>)
    requires Natural(ofs, |bytes|) && ofs < 8 && group + 8 <= |m|
    ensures Written(m, group, MaskOf(|bytes|, ofs), LanesOf(ofs, bytes)) == Splice(m, group + ofs, bytes)
  {
    MaskIsRun(|bytes|, ofs);
    RunBounds(MaskOf(|bytes|, ofs), ofs, |bytes|);
    assert LanesOf(ofs, bytes)[ofs..ofs + |bytes|] == bytes;
  }

  lemma LoadIsFlat(m: seq<byte>, group: nat, ofs: nat, n: nat, rdata: seq<byte>)
    requires Natural(ofs, n) && ofs < 8 && group + 8 <= |m| && |rdata| == 8
    ensures var be := MaskOf(n, ofs);
      var r := ReadLanes(m, group, be, rdata);
      && r.Some? && |r.value| == 8 && Low(be, 0) == ofs
      && r.value[ofs..ofs + n] == m[group + ofs..group + ofs + n]
  {
    var be := MaskOf(n, ofs);
    MaskIsRun(n, ofs);
    RunBounds(be, ofs, n);
    MaskIsAligned(n, ofs);
  }
}

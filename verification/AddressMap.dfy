/**
 The address map of an interconnect master: the translation of the request dispatcher and its
 inverse, get_liniar_address, on 32-bit addresses.
 */
module AddressMap {
  import opened Options

  const TWO32: nat := 0x1_0000_0000

  type u32 = x: int | 0 <= x < TWO32

  datatype Region = Region(slaveId: nat, begin: u32, end: u32, internOffset: u32) {
    predicate Contains(addr: u32) { begin <= addr < end }

    // The dispatcher's translation; unsigned arithmetic wraps.
    function ToOffset(addr: u32): u32 { (addr - begin + internOffset) % TWO32 }

    // get_liniar_address's translation.
    function ToAddress(offset: u32): u32 { (begin + offset - internOffset) % TWO32 }

    // The offsets that the region gives to its slave.
    predicate Window(offset: u32) { Contains(ToAddress(offset)) }
  }

  // Two translations of one region undo each other, wrapped or not.
  lemma OffsetOfAddress(r: Region, offset: u32)
    ensures r.ToOffset(r.ToAddress(offset)) == offset
  {
  }

  lemma AddressOfOffset(r: Region, addr: u32)
    ensures r.ToAddress(r.ToOffset(addr)) == addr
  {
  }

  // The first region that contains the address decides.
  function Decode(regions: seq<Region>, addr: u32): Option<(nat, u32)> {
    if regions == [] then None
    else if regions[0].Contains(addr) then Some((regions[0].slaveId, regions[0].ToOffset(addr)))
    else Decode(regions[1..], addr)
  }

  // Where the byte at an address is looked for: send_req gives the dispatcher the address of its group
  // of eight bytes, and the lane is added behind the group.
  function Locate(regions: seq<Region>, addr: u32): Option<(nat, nat)> {
    match Decode(regions, addr - addr % 8)
    case None => None
    case Some((slaveId, group)) => Some((slaveId, group + addr % 8))
  }

  // The map has the address behind its group, in the same slave.
  predicate AsItsGroup(regions: seq<Region>, addr: u32) {
    var group := addr - addr % 8;
    && (Decode(regions, addr).Some? <==> Decode(regions, group).Some?)
    && (Decode(regions, group).Some? ==>
          && Decode(regions, addr).value.0 == Decode(regions, group).value.0
          && Decode(regions, addr).value.1 == Decode(regions, group).value.1 + addr % 8)
  }

  // Then, and only then, is the byte looked for where the map has the address itself.
  lemma LocateIsDecode(regions: seq<Region>, addr: u32)
    ensures AsItsGroup(regions, addr)
            <==> match Decode(regions, addr)
                 case None => Locate(regions, addr) == None
                 case Some((slaveId, offset)) => Locate(regions, addr) == Some((slaveId, offset))
  {
    hide Decode;
  }

  // The first region that has an address.
  ghost predicate Decides(regions: seq<Region>, i: nat, addr: u32) {
    i < |regions| && regions[i].Contains(addr) && forall j | 0 <= j < i :: !regions[j].Contains(addr)
  }

  lemma {:induction false} DecodeIs(regions: seq<Region>, i: nat, addr: u32)
    requires Decides(regions, i, addr)
    ensures Decode(regions, addr) == Some((regions[i].slaveId, regions[i].ToOffset(addr)))
  {
    if i > 0 {
      assert forall j | 0 <= j < i - 1 :: regions[1..][j] == regions[j + 1];
      DecodeIs(regions[1..], i - 1, addr);
    }
  }

  // Two addresses of one region are as far apart at its slave as at the CPU, and the first one is at
  // the offset that the platform gives.
  lemma RegionIsShifted(regions: seq<Region>, i: nat, a: u32, b: u32)
    requires Decides(regions, i, a) && Decides(regions, i, b)
    requires AsItsGroup(regions, a) && AsItsGroup(regions, b)
    ensures Locate(regions, a).Some? && Locate(regions, b).Some?
    ensures var (s, x), (s', y) := Locate(regions, a).value, Locate(regions, b).value;
      && s == s' == regions[i].slaveId && x < TWO32 && y < TWO32
      && (y - x) % TWO32 == (b - a) % TWO32
      && (a == regions[i].begin ==> x == regions[i].internOffset)
  {
    LocateIsDecode(regions, a);
    LocateIsDecode(regions, b);
    DecodeIs(regions, i, a);
    DecodeIs(regions, i, b);
    hide Decode, Locate, AsItsGroup, Decides;
    Apart(a - regions[i].begin + regions[i].internOffset, b - regions[i].begin + regions[i].internOffset);
  }

  lemma Apart(x: int, y: int)
    ensures (y % TWO32 - x % TWO32) % TWO32 == (y - x) % TWO32
  {
    assert x == x / TWO32 * TWO32 + x % TWO32 && y == y / TWO32 * TWO32 + y % TWO32;
    var k := y / TWO32 - x / TWO32;
    assert y - x == k * TWO32 + (y % TWO32 - x % TWO32);
    Wrapped(y % TWO32 - x % TWO32, k);
  }

  lemma Wrapped(d: int, k: int)
    ensures (k * TWO32 + d) % TWO32 == d % TWO32
  {
  }

  // A region that begins where another one ends: each address of the two is in exactly one of them.
  lemma RegionsMeet(r: Region, q: Region, addr: u32)
    requires r.begin <= r.end == q.begin <= q.end
    ensures r.begin <= addr < q.end <==> (r.Contains(addr) || q.Contains(addr))
    ensures !(r.Contains(addr) && q.Contains(addr))
  {
  }

  // The first region of the slave whose window holds the offset decides.
  function Linear(regions: seq<Region>, slaveId: nat, offset: u32): Option<u32> {
    if regions == [] then None
    else if regions[0].slaveId == slaveId && regions[0].Window(offset) then Some(regions[0].ToAddress(offset))
    else Linear(regions[1..], slaveId, offset)
  }

  ghost predicate DisjointAddresses(regions: seq<Region>) {
    forall i, j, a: u32 | 0 <= i < j < |regions| :: !(regions[i].Contains(a) && regions[j].Contains(a))
  }

  ghost predicate DisjointWindows(regions: seq<Region>) {
    forall i, j, o: u32 | 0 <= i < j < |regions| && regions[i].slaveId == regions[j].slaveId ::
      !(regions[i].Window(o) && regions[j].Window(o))
  }

  lemma {:induction false} DecodeFinds(regions: seq<Region>, addr: u32) returns (i: nat)
    requires Decode(regions, addr).Some?
    ensures i < |regions| && regions[i].Contains(addr)
    ensures Decode(regions, addr) == Some((regions[i].slaveId, regions[i].ToOffset(addr)))
  {
    if regions[0].Contains(addr) {
      i := 0;
    } else {
      i := DecodeFinds(regions[1..], addr);
      i := i + 1;
    }
  }

  lemma {:induction false} LinearFinds(regions: seq<Region>, slaveId: nat, offset: u32) returns (i: nat)
    requires Linear(regions, slaveId, offset).Some?
    ensures i < |regions| && regions[i].slaveId == slaveId && regions[i].Window(offset)
    ensures Linear(regions, slaveId, offset) == Some(regions[i].ToAddress(offset))
  {
    if regions[0].slaveId == slaveId && regions[0].Window(offset) {
      i := 0;
    } else {
      i := LinearFinds(regions[1..], slaveId, offset);
      i := i + 1;
    }
  }

  lemma {:induction false} LinearIsFound(regions: seq<Region>, slaveId: nat, offset: u32, i: nat)
    requires i < |regions| && regions[i].slaveId == slaveId && regions[i].Window(offset)
    ensures Linear(regions, slaveId, offset).Some?
  {
    if i > 0 {
      LinearIsFound(regions[1..], slaveId, offset, i - 1);
    }
  }

  lemma {:induction false} DecodeIsFound(regions: seq<Region>, addr: u32, i: nat)
    requires i < |regions| && regions[i].Contains(addr)
    ensures Decode(regions, addr).Some?
  {
    if i > 0 {
      DecodeIsFound(regions[1..], addr, i - 1);
    }
  }

  // Going to the slave and back gives the address again.
  lemma LinearInvertsDecode(regions: seq<Region>, addr: u32)
    requires DisjointWindows(regions) && Decode(regions, addr).Some?
    ensures var (slaveId, offset) := Decode(regions, addr).value;
      Linear(regions, slaveId, offset) == Some(addr)
  {
    var (slaveId, offset) := Decode(regions, addr).value;
    var i := DecodeFinds(regions, addr);
    AddressOfOffset(regions[i], addr);
    LinearIsFound(regions, slaveId, offset, i);
    var j := LinearFinds(regions, slaveId, offset);
    assert !(i < j) && !(j < i);
  }

  // Coming from the slave and going back gives the slave and the offset again.
  lemma DecodeInvertsLinear(regions: seq<Region>, slaveId: nat, offset: u32)
    requires DisjointAddresses(regions) && Linear(regions, slaveId, offset).Some?
    ensures Decode(regions, Linear(regions, slaveId, offset).value) == Some((slaveId, offset))
  {
    var addr := Linear(regions, slaveId, offset).value;
    var i := LinearFinds(regions, slaveId, offset);
    OffsetOfAddress(regions[i], offset);
    DecodeIsFound(regions, addr, i);
    var j := DecodeFinds(regions, addr);
    assert !(i < j) && !(j < i);
  }

  // The search loop of dispatch_requests_thread; None stands for the exit of the simulator.
  method Dispatch(regions: array<Region>, addr: u32) returns (r: Option<(nat, u32)>)
    ensures r == Decode(regions[..], addr)
  {
    var i := 0;
    assert regions[0..] == regions[..];
    while i < regions.Length && !regions[i].Contains(addr)
      invariant i <= regions.Length
      invariant Decode(regions[..], addr) == Decode(regions[i..], addr)
    {
      assert regions[i..][1..] == regions[i + 1..];
      i := i + 1;
    }
    if i == regions.Length {
      return None;
    }
    return Some((regions[i].slaveId, regions[i].ToOffset(addr)));
  }

  // get_liniar_address
  method GetLinearAddress(regions: array<Region>, slaveId: nat, offset: u32) returns (r: Option<u32>)
    ensures r == Linear(regions[..], slaveId, offset)
  {
    assert regions[0..] == regions[..];
    for i := 0 to regions.Length
      invariant Linear(regions[..], slaveId, offset) == Linear(regions[i..], slaveId, offset)
    {
      if regions[i].slaveId == slaveId {
        var addr := regions[i].ToAddress(offset);
        if regions[i].Contains(addr) {
          return Some(addr);
        }
      }
      assert regions[i..][1..] == regions[i + 1..];
    }
    return None;
  }
}

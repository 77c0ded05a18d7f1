/**
 Memory as a master sees it through the bus, and transfers of many bytes to consecutive addresses.
 */
module BusMemory {
  import opened AddressMap
  import opened Bytes

  // Memory as the bus shows it; an access outside it is answered with an error.
  type Bus = map<u32, byte>

  // The distance of an address from the start of a buffer, around the address space.
  function Rel(x: u32, addr: u32): u32 { (x - addr) % TWO32 }

  function Place(addr: u32, i: nat): u32 {
    if i == 0 then addr
    else
      var a := Place(addr, i - 1);
      if a == TWO32 - 1 then 0 else a + 1
  }

  lemma {:induction false} PlaceIs(addr: u32, i: nat)
    ensures Place(addr, i) == (addr + i) % TWO32
  {
    if i > 0 {
      PlaceIs(addr, i - 1);
    }
  }

  // The memory after the first k bytes of a transfer to addr.
  function Laid(m: Bus, addr: u32, data: seq<byte>, k: nat): (r: Bus)
    requires k <= |data|
  {
    if k == 0 then m else Laid(m, addr, data, k - 1)[Place(addr, k - 1) := data[k - 1]]
  }

  // The first n addresses from addr on are memory.
  predicate Mapped(m: Bus, addr: u32, n: nat) {
    n == 0 || (Mapped(m, addr, n - 1) && Place(addr, n - 1) in m)
  }

  function Fetch(m: Bus, addr: u32, n: nat): (r: seq<byte>)
    requires Mapped(m, addr, n)
    ensures |r| == n
  {
    if n == 0 then [] else Fetch(m, addr, n - 1) + [m[Place(addr, n - 1)]]
  }

  // How far a transfer of n bytes comes before the first address that is not memory.
  function Reach(m: Bus, addr: u32, n: nat): (r: nat)
    ensures r <= n && Mapped(m, addr, r) && (r < n ==> Place(addr, r) !in m)
  {
    if n == 0 then 0
    else
      var r := Reach(m, addr, n - 1);
      if r == n - 1 && Place(addr, r) in m then n else r
  }

  lemma {:induction false} MappedPrefix(m: Bus, addr: u32, n: nat, all: nat)
    requires n <= all && Mapped(m, addr, all)
    ensures Mapped(m, addr, n) && Fetch(m, addr, all)[..n] == Fetch(m, addr, n)
    decreases all
  {
    if n < all {
      MappedPrefix(m, addr, n, all - 1);
    }
  }

  lemma ReachIs(m: Bus, addr: u32, n: nat, r: nat)
    requires r <= n && Mapped(m, addr, r) && (r < n ==> !Mapped(m, addr, r + 1))
    ensures Reach(m, addr, n) == r
  {
    var q := Reach(m, addr, n);
    if q < r {
      MappedPrefix(m, addr, q + 1, r);
    } else if r < q {
      MappedPrefix(m, addr, r + 1, q);
    }
  }

  lemma RelOfPlace(addr: u32, i: nat)
    requires i < TWO32
    ensures Rel(Place(addr, i), addr) == i
  {
    PlaceIs(addr, i);
  }

  lemma PlaceOfRel(addr: u32, x: u32)
    ensures Place(addr, Rel(x, addr)) == x
  {
    PlaceIs(addr, Rel(x, addr));
  }

  lemma PlaceFurther(addr: u32, k: nat, i: nat)
    ensures Place(Place(addr, k), i) == Place(addr, k + i)
  {
    PlaceIs(addr, k);
    PlaceIs(addr, k + i);
    PlaceIs(Place(addr, k), i);
  }

  lemma {:induction false} LaidKeys(m: Bus, addr: u32, data: seq<byte>, k: nat)
    requires k <= |data| && Mapped(m, addr, k)
    ensures Laid(m, addr, data, k).Keys == m.Keys
  {
    if k > 0 {
      LaidKeys(m, addr, data, k - 1);
    }
  }

  // Every byte of a transfer is in its place and nothing else has changed.
  lemma {:induction false} LaidIs(m: Bus, addr: u32, data: seq<byte>, k: nat, x: u32)
    requires k <= |data| && k <= TWO32 && Mapped(m, addr, k) && x in m
    ensures x in Laid(m, addr, data, k)
    ensures Laid(m, addr, data, k)[x] == if Rel(x, addr) < k then data[Rel(x, addr)] else m[x]
  {
    if k > 0 {
      LaidIs(m, addr, data, k - 1, x);
      RelOfPlace(addr, k - 1);
      PlaceOfRel(addr, x);
    }
  }

  // What was sent is fetched again.
  lemma {:induction false} FetchLaid(m: Bus, addr: u32, data: seq<byte>, k: nat, n: nat)
    requires n <= k <= |data| && k <= TWO32 && Mapped(m, addr, k)
    ensures Mapped(Laid(m, addr, data, k), addr, n) && Fetch(Laid(m, addr, data, k), addr, n) == data[..n]
  {
    MappedPrefix(m, addr, n, k);
    if n > 0 {
      FetchLaid(m, addr, data, k, n - 1);
      RelOfPlace(addr, n - 1);
      LaidIs(m, addr, data, k, Place(addr, n - 1));
    }
  }

  // A transfer in pieces.
  lemma {:induction false} MoreLaid(m: Bus, addr: u32, data: seq<byte>, k: nat, n: nat)
    requires k + n <= |data|
    ensures Laid(Laid(m, addr, data, k), Place(addr, k), data[k..k + n], n) == Laid(m, addr, data, k + n)
    decreases n
  {
    if n > 0 {
      MoreLaid(m, addr, data, k, n - 1);
      SamePrefix(Laid(m, addr, data, k), Place(addr, k), data[k..k + n - 1], data[k..k + n], n - 1);
      PlaceFurther(addr, k, n - 1);
    }
  }

  lemma {:induction false} SamePrefix(m: Bus, addr: u32, p: seq<byte>, q: seq<byte>, k: nat)
    requires k <= |p| <= |q| && p == q[..|p|]
    ensures Laid(m, addr, p, k) == Laid(m, addr, q, k)
  {
    if k > 0 {
      SamePrefix(m, addr, p, q, k - 1);
    }
  }

  lemma {:induction false} SameKeys(m: Bus, m': Bus, addr: u32, n: nat)
    requires m.Keys == m'.Keys
    ensures Mapped(m, addr, n) == Mapped(m', addr, n)
  {
    assert forall x :: x in m <==> x in m';
    if n > 0 {
      SameKeys(m, m', addr, n - 1);
    }
  }

  lemma {:induction false} MappedFurther(m: Bus, addr: u32, k: nat, n: nat)
    requires Mapped(m, addr, k)
    ensures Mapped(m, Place(addr, k), n) <==> Mapped(m, addr, k + n)
    ensures Mapped(m, addr, k + n) ==>
      Fetch(m, addr, k + n) == Fetch(m, addr, k) + Fetch(m, Place(addr, k), n)
  {
    if n > 0 {
      MappedFurther(m, addr, k, n - 1);
      PlaceFurther(addr, k, n - 1);
    }
  }

  lemma NotFurther(m: Bus, addr: u32, n: nat, all: nat)
    requires n <= all && !Mapped(m, addr, n)
    ensures !Mapped(m, addr, all)
  {
    if Mapped(m, addr, all) {
      MappedPrefix(m, addr, n, all);
    }
  }
}

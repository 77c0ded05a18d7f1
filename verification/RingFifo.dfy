/**
 The queue template of the network: a ring over an array with one slot more than its capacity,
 so that equal indices mean empty.
 */
module RingFifo {

  // The slot after slot i of a ring of m.
  function After(i: nat, m: nat): (j: nat)
    requires i < m
    ensures j < m && j == if i + 1 == m then 0 else i + 1
  {
    (i + 1) % m
  }

  // The entries between a read and a write index, oldest first: one stretch of the array, or the
  // end of it and its beginning.
  function Ring<T>(a: seq<T>, r: nat, w: nat): seq<T>
    requires r < |a| && w < |a|
  {
    if r <= w then a[r..w] else a[r..] + a[..w]
  }

  lemma RingIsEmpty<T>(a: seq<T>, r: nat, w: nat)
    requires r < |a| && w < |a|
    ensures Ring(a, r, w) == [] <==> r == w
  {
  }

  // The slot that is never used tells a full ring from an empty one.
  lemma RingIsFull<T>(a: seq<T>, r: nat, w: nat)
    requires r < |a| && w < |a|
    ensures |Ring(a, r, w)| < |a|
    ensures |Ring(a, r, w)| == |a| - 1 <==> r == After(w, |a|)
  {
  }

  lemma RingRead<T>(a: seq<T>, r: nat, w: nat)
    requires r < |a| && w < |a| && r != w
    ensures Ring(a, r, w) == [a[r]] + Ring(a, After(r, |a|), w)
  {
    hide After;
    if r < w {
      assert a[r..w] == [a[r]] + a[r + 1..w];
    } else if r + 1 == |a| {
      assert a[r..] == [a[r]] && a[0..w] == a[..w];
    } else {
      assert a[r..] == [a[r]] + a[r + 1..];
      assert Ring(a, r + 1, w) == a[r + 1..] + a[..w];
    }
  }

  lemma RingWrite<T>(a: seq<T>, r: nat, w: nat, p: T)
    requires r < |a| && w < |a| && r != After(w, |a|)
    ensures Ring(a[w := p], r, After(w, |a|)) == Ring(a, r, w) + [p]
  {
    hide After;
    if r <= w {
      assert a[w := p][r..w + 1] == a[r..w] + [p];
    } else {
      assert a[w := p][r..] == a[r..] && a[w := p][..w + 1] == a[..w] + [p];
    }
  }

  class Fifo<Item(0)> {
    const data: array<Item>
    var readAt: nat
    var writeAt: nat

    ghost predicate Valid()
      reads this
    {
      readAt < data.Length && writeAt < data.Length
    }

    ghost function Contents(): seq<Item>
      requires Valid()
      reads this, data
    {
      Ring(data[..], readAt, writeAt)
    }

    constructor (size: nat)
      ensures Valid() && fresh(data) && data.Length == size + 1 && Contents() == []
    {
      readAt := 0;
      writeAt := 0;
      data := new Item[size + 1];
    }

    method Reset()
      requires Valid()
      modifies this
      ensures Valid() && Contents() == []
    {
      readAt := 0;
      writeAt := 0;
    }

    method IsEmpty() returns (b: bool)
      requires Valid()
      ensures b <==> Contents() == []
    {
      RingIsEmpty(data[..], readAt, writeAt);
      b := readAt == writeAt;
    }

    method IsFull() returns (b: bool)
      requires Valid()
      ensures b <==> |Contents()| == data.Length - 1
    {
      RingIsFull(data[..], readAt, writeAt);
      b := readAt == (writeAt + 1) % data.Length;
    }

    // Read, once it has waited for an entry.
    method Read() returns (p: Item)
      requires Valid() && Contents() != []
      modifies this
      ensures Valid() && old(Contents()) == [p] + Contents()
    {
      RingRead(data[..], readAt, writeAt);
      var pos := readAt;
      readAt := (readAt + 1) % data.Length;
      return data[pos];
    }

    // Write, once it has waited for room.
    method Write(p: Item)
      requires Valid() && |Contents()| < data.Length - 1
      modifies this, data
      ensures Valid() && Contents() == old(Contents()) + [p]
    {
      RingIsFull(data[..], readAt, writeAt);
      RingWrite(data[..], readAt, writeAt, p);
      ghost var a := data[..];
      data[writeAt] := p;
      assert data[..] == a[writeAt := p];
      writeAt := (writeAt + 1) % data.Length;
    }
  }
}

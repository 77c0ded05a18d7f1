/**
 The block device: a host file behind registers, and a bus master that copies blocks between the
 file and memory in words and, at the end, bytes.
 */
module BlockDevice {
  import opened AddressMap
  import opened Arithmetic
  import opened BusMemory
  import opened Bytes

  // The largest file of a 32-bit host, which is also the largest offset that lseek takes.
  const MAX_FILE: nat := 0x7FFF_FFFF

  datatype Status = Idle | Busy | ReadSuccess | WriteSuccess | ReadError | WriteError

  // ---------- the host file ----------

  // read: as many bytes as the file has.
  function HostRead(file: seq<byte>, pos: nat, n: nat): seq<byte> {
    file[Min(pos, |file|)..Min(pos + n, |file|)]
  }

  // write: behind the end a gap is filled with zeros, and nothing is written past the largest
  // offset.
  function Room(pos: nat, n: nat): nat { Min(n, if pos < MAX_FILE then MAX_FILE - pos else 0) }

  function HostWrite(file: seq<byte>, pos: nat, bytes: seq<byte>): (r: seq<byte>)
    ensures |file| <= MAX_FILE ==> |r| <= MAX_FILE
  {
    var n := Room(pos, |bytes|);
    if n == 0 then file
    else
      file[..Min(pos, |file|)] + seq(if pos > |file| then pos - |file| else 0, i => 0)
      + bytes[..n] + file[Min(pos + n, |file|)..]
  }

  // lseek fails, and stays, at offsets that a signed offset cannot hold.
  function Seek(pos: nat, offset: u32): nat { if offset <= MAX_FILE then offset else pos }

  lemma ReadBack(file: seq<byte>, pos: nat, bytes: seq<byte>)
    requires pos + |bytes| <= MAX_FILE
    ensures HostRead(HostWrite(file, pos, bytes), pos, |bytes|) == bytes
  {
    if |bytes| > 0 {
      var head := file[..Min(pos, |file|)] + seq(if pos > |file| then pos - |file| else 0, i => 0);
      assert |head| == pos && bytes[..|bytes|] == bytes;
      assert HostWrite(file, pos, bytes) == head + bytes + file[Min(pos + |bytes|, |file|)..];
    }
  }

  // ---------- the device ----------

  class Device {
    const blockSize: u32
    var file: seq<byte>
    var isOpen: bool
    var pos: nat
    // Memory belongs to other devices; it is here because the transfers are about it.
    var mem: Bus
    var status: Status
    var buffer: u32
    var lba: u32
    var count: u32
    var size: nat
    var irqen: bool
    var irq: bool
    // func_ret of control_thread outlives a command.
    var funcRet: int

    ghost predicate Valid()
      reads this
    {
      blockSize > 0 && |file| <= MAX_FILE && buffer % 4 == 0
    }

    // The size of a transfer and the place in the file, on 32 bits.
    function Transfer(): u32
      reads this
    {
      count * blockSize % TWO32
    }

    function Start(): nat
      reads this
    {
      Seek(pos, lba * blockSize % TWO32)
    }

    // ---------- bus accesses ----------

    method CmdWrite(addr: u32, data: seq<byte>) returns (ok: bool)
      requires |data| <= 4
      modifies this`mem
      ensures ok == Mapped(old(mem), addr, |data|)
      ensures mem == if ok then Laid(old(mem), addr, data, |data|) else old(mem)
    {
      ok := Mapped(mem, addr, |data|);
      if ok {
        mem := Laid(mem, addr, data, |data|);
      }
    }

    method CmdRead(addr: u32, n: nat) returns (ok: bool, data: seq<byte>)
      ensures ok == Mapped(mem, addr, n) && |data| == n
      ensures ok ==> data == Fetch(mem, addr, n)
    {
      ok := Mapped(mem, addr, n);
      data := if ok then Fetch(mem, addr, n) else seq(n, i => 0);
    }

    // The two loops that send the data to memory, first words and then bytes; the second one goes
    // on where the first has stopped.
    method SendToMemory(addr: u32, data: seq<byte>) returns (offset: nat, ok: bool)
      requires 0 < |data| <= MAX_FILE
      modifies this`mem
      ensures offset == Reach(old(mem), addr, |data|) && ok == (offset == |data|)
      ensures mem == Laid(old(mem), addr, data, offset)
    {
      offset, ok := SendWords(mem, addr, data);
      if offset < |data| {
        offset, ok := SendBytes(old(mem), addr, data, offset);
      }
      ReachIs(old(mem), addr, |data|, offset);
    }

    method SendPiece(ghost m: Bus, addr: u32, data: seq<byte>, k: nat, n: nat) returns (ok: bool)
      requires k + n <= |data| <= MAX_FILE && n <= 4 && mem == Laid(m, addr, data, k) && Mapped(m, addr, k)
      modifies this`mem
      ensures ok <==> Mapped(m, addr, k + n)
      ensures mem == Laid(m, addr, data, if ok then k + n else k)
    {
      MoreLaid(m, addr, data, k, n);
      LaidKeys(m, addr, data, k);
      SameKeys(Laid(m, addr, data, k), m, Place(addr, k), n);
      MappedFurther(m, addr, k, n);
      PlaceIs(addr, k);
      ok := CmdWrite((addr + k) % TWO32, data[k..k + n]);
    }

    method SendWords(ghost m: Bus, addr: u32, data: seq<byte>) returns (offset: nat, ok: bool)
      requires |data| <= MAX_FILE && mem == m == Laid(m, addr, data, 0)
      modifies this`mem
      ensures offset <= |data| && mem == Laid(m, addr, data, offset) && Mapped(m, addr, offset)
      ensures ok ==> offset == |data| - |data| % 4
      ensures !ok ==> offset + 4 <= |data| && !Mapped(m, addr, offset + 4)
    {
      var limit := |data| - |data| % 4;
      ghost var w := 0;
      offset := 0;
      ok := true;
      assert limit == 4 * (|data| / 4);
      while offset < limit
        invariant offset == 4 * w <= limit
        invariant ok && mem == Laid(m, addr, data, offset) && Mapped(m, addr, offset)
      {
        ok := SendPiece(m, addr, data, offset, 4);
        if !ok {
          break;
        }
        offset := offset + 4;
        w := w + 1;
      }
    }

    method SendBytes(ghost m: Bus, addr: u32, data: seq<byte>, from: nat) returns (offset: nat, ok: bool)
      requires from < |data| <= MAX_FILE && mem == Laid(m, addr, data, from) && Mapped(m, addr, from)
      modifies this`mem
      ensures offset <= |data| && mem == Laid(m, addr, data, offset) && Mapped(m, addr, offset)
      ensures ok ==> offset == |data|
      ensures !ok ==> offset < |data| && !Mapped(m, addr, offset + 1)
    {
      offset := from;
      ok := true;
      while offset < |data|
        invariant 0 <= offset <= |data|
        invariant ok && mem == Laid(m, addr, data, offset) && Mapped(m, addr, offset)
      {
        ok := SendPiece(m, addr, data, offset, 1);
        if !ok {
          break;
        }
        offset := offset + 1;
      }
    }

    // ---------- commands ----------

    // What the host gives for the registers as they are.
    function Content(): seq<byte>
      reads this
    {
      if isOpen then HostRead(file, Start(), Transfer()) else []
    }

    // The READ branch of control_thread.  Memory receives the bytes that the file had, up to the
    // first address that is not memory; the count says how many blocks arrived.
    method ExecRead()
      requires Valid() && Transfer() <= MAX_FILE
      modifies this`mem, this`pos, this`status, this`count, this`irq, this`funcRet
      ensures Valid()
      ensures var data := old(Content());
        var n := Reach(old(mem), buffer, |data|);
        && mem == Laid(old(mem), buffer, data, n)
        && count == Blocks(n, blockSize)
        && status == (if old(isOpen) && n == |data| then ReadSuccess else ReadError)
        && irq == (old(irq) || (status == ReadSuccess && irqen))
        && (funcRet != 0 <==> !old(isOpen) || (n == |data| && data != []))
        && pos == if isOpen then old(Start()) + |data| else old(pos)
    {
      status := Busy;
      var data := Content();
      if isOpen {
        pos := Start() + |data|;
      }
      Receive(data);
    }

    method Receive(data: seq<byte>)
      requires Valid() && |data| <= MAX_FILE && (!isOpen ==> data == [])
      modifies this`mem, this`status, this`count, this`irq, this`funcRet
      ensures var n := Reach(old(mem), buffer, |data|);
        && mem == Laid(old(mem), buffer, data, n)
        && count == Blocks(n, blockSize)
        && status == (if isOpen && n == |data| then ReadSuccess else ReadError)
        && irq == (old(irq) || (status == ReadSuccess && irqen))
        && (funcRet != 0 <==> !isOpen || (n == |data| && data != []))
    {
      funcRet := if isOpen then |data| else -1;
      if funcRet < 0 {
        status := ReadError;
        count := 0;
        return;
      }
      count := Blocks(funcRet, blockSize);
      if |data| != 0 {
        var offset, ok := SendToMemory(buffer, data);
        funcRet := if ok then 1 else 0;
        if !ok {
          status := ReadError;
          count := Blocks(offset, blockSize);
          return;
        }
      }
      if irqen {
        irq := true;
      }
      status := ReadSuccess;
    }

    // The size register: without a file get_file_size answers -1, which is divided as an unsigned
    // number.
    function HostSize(): nat
      requires blockSize > 0
      reads this
    {
      Blocks(if isOpen then |file| else TWO32 - 1, blockSize)
    }

    // The WRITE branch.  The file receives all bytes or nothing; a transfer of no bytes succeeds
    // or fails with the result that the command before has left behind.
    method ExecWrite()
      requires Valid() && Transfer() <= MAX_FILE
      modifies this`file, this`pos, this`status, this`size, this`irq, this`funcRet
      ensures Valid()
      ensures var n := old(Transfer());
        var good := if n == 0 then old(funcRet) != 0 else Mapped(mem, buffer, Words(n));
        && status == (if good then WriteSuccess else WriteError)
        && (good && isOpen ==>
              Mapped(mem, buffer, n) && file == HostWrite(old(file), old(Start()), Fetch(mem, buffer, n)))
        && (!good || !isOpen ==> file == old(file))
        && irq == (old(irq) || (good && irqen))
        && (funcRet != 0 <==> good)
        && size == (if good then HostSize() else old(size))
        && pos == (if good && isOpen then old(Start()) + Room(old(Start()), n) else old(pos))
    {
      status := Busy;
      Store(Transfer(), Start());
    }

    method Store(n: nat, start: nat)
      requires Valid() && n <= MAX_FILE
      modifies this`file, this`pos, this`status, this`size, this`irq, this`funcRet
      ensures Valid()
      ensures var good := if n == 0 then old(funcRet) != 0 else Mapped(mem, buffer, Words(n));
        && status == (if good then WriteSuccess else WriteError)
        && (good && isOpen ==>
              Mapped(mem, buffer, n) && file == HostWrite(old(file), start, Fetch(mem, buffer, n)))
        && (!good || !isOpen ==> file == old(file))
        && irq == (old(irq) || (good && irqen))
        && (funcRet != 0 <==> good)
        && size == (if good then HostSize() else old(size))
        && pos == (if good && isOpen then start + Room(start, n) else old(pos))
    {
      var data := ReadFromMemory(n);
      if funcRet == 0 {
        status := WriteError;
        return;
      }
      MappedPrefix(mem, buffer, n, Words(n));
      if isOpen {
        file := HostWrite(file, start, data[..n]);
        pos := start + Room(start, n);
      }
      size := HostSize();
      if irqen {
        irq := true;
      }
      status := WriteSuccess;
    }

    method ReadPiece(k: nat, ghost data: seq<byte>) returns (ok: bool, word: seq<byte>)
      requires Mapped(mem, buffer, k) && data == Fetch(mem, buffer, k)
      ensures |word| == 4 && (ok <==> Mapped(mem, buffer, k + 4))
      ensures ok ==> data + word == Fetch(mem, buffer, k + 4)
    {
      PlaceIs(buffer, k);
      ok, word := CmdRead((buffer + k) % TWO32, 4);
      MappedFurther(mem, buffer, k, 4);
    }

    // The loop that reads whole words from memory, up to the first error.
    method ReadFromMemory(n: nat) returns (data: seq<byte>)
      modifies this`funcRet
      ensures n == 0 ==> funcRet == old(funcRet)
      ensures n > 0 ==> (funcRet != 0 <==> Mapped(mem, buffer, Words(n)))
      ensures n == 0 || funcRet != 0 ==> Mapped(mem, buffer, Words(n)) && data == Fetch(mem, buffer, Words(n))
    {
      data := [];
      var offset := 0;
      while offset < n
        invariant offset == |data| <= Words(n) && offset % 4 == 0
        invariant Mapped(mem, buffer, offset) && data == Fetch(mem, buffer, offset)
        invariant funcRet == if offset == 0 then old(funcRet) else 1
      {
        var ok, word := ReadPiece(offset, data);
        funcRet := if ok then 1 else 0;
        if !ok {
          NotFurther(mem, buffer, offset + 4, Words(n));
          break;
        }
        data := data + word;
        offset := offset + 4;
      }
    }
  }

  // What a WRITE reads: whole words, so that up to three bytes behind the data must be memory too.
  function Words(n: nat): (w: nat)
    ensures n <= w < n + 4 && w % 4 == 0
  {
    (n + 3) / 4 * 4
  }

  // Whole blocks.
  function Blocks(n: nat, blockSize: u32): (r: nat)
    requires blockSize > 0
    ensures r <= n
  {
    NotMore(n, blockSize, n / blockSize);
    n / blockSize
  }

  lemma NotMore(n: nat, b: int, q: int)
    requires b > 0 && q >= 0 && b * q <= n
    ensures q <= n
  {
    assert b * q == (b - 1) * q + q;
  }

  // ---------- round trip ----------

  // What a WRITE took from memory, a READ of the same place puts back, whatever memory holds by
  // then, and nothing else in memory changes.
  lemma RoundTrip(file: seq<byte>, pos: nat, m0: Bus, m1: Bus, addr: u32, n: nat)
    requires pos + n <= MAX_FILE && Mapped(m0, addr, n) && Mapped(m1, addr, n)
    ensures var data := HostRead(HostWrite(file, pos, Fetch(m0, addr, n)), pos, n);
      var m2 := Laid(m1, addr, data, Reach(m1, addr, |data|));
      && |data| == n && Reach(m1, addr, n) == n
      && m2.Keys == m1.Keys
      && Mapped(m2, addr, n) && Fetch(m2, addr, n) == Fetch(m0, addr, n)
      && forall x | x in m1 && Rel(x, addr) >= n :: m2[x] == m1[x]
  {
    var data := Fetch(m0, addr, n);
    ReadBack(file, pos, data);
    ReachIs(m1, addr, n, n);
    LaidKeys(m1, addr, data, n);
    FetchLaid(m1, addr, data, n, n);
    assert data[..n] == data;
    forall x | x in m1 && Rel(x, addr) >= n
      ensures Laid(m1, addr, data, n)[x] == m1[x]
    {
      LaidIs(m1, addr, data, n, x);
    }
  }

  lemma BlocksOfBytes(count: nat, blockSize: u32)
    requires blockSize > 0
    ensures Blocks(count * blockSize, blockSize) == count
  {
    var n := count * blockSize;
    var e := n / blockSize - count;
    assert e * blockSize == n / blockSize * blockSize - count * blockSize;
    AtLeastOnce(e, blockSize);
  }

  // The two commands on the device, with anything happening to memory in between.
  method WriteThenRead(d: Device, between: Bus)
    requires d.Valid() && d.isOpen && (d.lba + d.count) * d.blockSize <= MAX_FILE
    requires d.count > 0 && Mapped(d.mem, d.buffer, Words(d.count * d.blockSize))
    requires between.Keys == d.mem.Keys
    modifies d
    ensures var n := old(d.count) * d.blockSize;
      && d.status == ReadSuccess && d.count == old(d.count) && d.buffer == old(d.buffer)
      && Mapped(old(d.mem), d.buffer, n) && Mapped(d.mem, d.buffer, n)
      && Fetch(d.mem, d.buffer, n) == Fetch(old(d.mem), d.buffer, n)
      && d.mem.Keys == between.Keys
      && forall x | x in between && Rel(x, d.buffer) >= n :: d.mem[x] == between[x]
  {
    ghost var m0, file, n, pos := d.mem, d.file, d.count * d.blockSize, d.lba * d.blockSize;
    Sizes(d.lba, d.count, d.blockSize);
    MappedPrefix(m0, d.buffer, n, Words(n));
    SameKeys(m0, between, d.buffer, n);
    RoundTrip(file, pos, m0, between, d.buffer, n);
    BlocksOfBytes(d.count, d.blockSize);
    assert d.Transfer() == n && d.Start() == pos;
    d.ExecWrite();
    d.mem := between;
    assert d.Transfer() == n && d.Start() == pos;
    d.ExecRead();
  }

  // A READ of no blocks leaves its own result in func_ret: the number of bytes that were read, which is
  // 0, or -1 without a file.  The WRITE of no blocks that follows fails with a file and succeeds
  // without one.
  method ReadThenWriteNothing(d: Device)
    requires d.Valid() && d.count == 0
    modifies d
    ensures d.file == old(d.file) && d.mem == old(d.mem)
    ensures d.status == if d.isOpen then WriteError else WriteSuccess
  {
    assert d.Transfer() == 0;
    d.ExecRead();
    assert d.count == 0;
    d.ExecWrite();
  }

  lemma Sizes(lba: u32, count: u32, blockSize: u32)
    requires blockSize > 0 && count > 0 && (lba + count) * blockSize <= MAX_FILE
    ensures 0 < count * blockSize <= MAX_FILE && 0 <= lba * blockSize
    ensures lba * blockSize + count * blockSize <= MAX_FILE
    ensures count * blockSize % TWO32 == count * blockSize && lba * blockSize % TWO32 == lba * blockSize
  {
    assert (lba + count) * blockSize == lba * blockSize + count * blockSize;
    assert lba * blockSize >= 0 && count * blockSize > 0;
  }
}

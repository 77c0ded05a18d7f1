/**
 The block device in blocks: a WRITE puts each block of the transfer in its own place and leaves the
 content of all others, and a READ brings the blocks from where they are.
 */
module BlockContents {
  import opened AddressMap
  import opened Arithmetic
  import opened BlockDevice
  import opened BusMemory
  import opened Bytes

  // ---------- bytes ----------

  // The bytes of a file after a write: those that were written, as far as an offset reaches, those that
  // were there before, and zeros in a gap behind the old end.
  lemma BytesAfterWrite(file: seq<byte>, pos: nat, bytes: seq<byte>, i: nat)
    ensures var r, end := HostWrite(file, pos, bytes), Min(pos + |bytes|, MAX_FILE);
      && |r| == (if bytes != [] && pos < MAX_FILE && |file| < end then end else |file|)
      && (i < |r| ==> r[i] == if pos <= i < end then bytes[i - pos] else if i < |file| then file[i] else 0)
  {
    var n := Room(pos, |bytes|);
    assert n > 0 ==> |bytes[..n]| == n && pos + n == Min(pos + |bytes|, MAX_FILE);
  }

  // What is read is as much as the file has, from the place on.
  lemma BytesOfRead(file: seq<byte>, pos: nat, n: nat, i: nat)
    ensures var r := HostRead(file, pos, n);
      && |r| == (if |file| < pos then 0 else if |file| < pos + n then |file| - pos else n)
      && (i < |r| ==> r[i] == file[pos + i])
  {
  }

  lemma ReadInside(file: seq<byte>, pos: nat, bytes: seq<byte>, x: nat, n: nat)
    requires bytes != [] && pos + |bytes| <= MAX_FILE && x + n <= |bytes|
    ensures HostRead(HostWrite(file, pos, bytes), pos + x, n) == HostRead(bytes, x, n)
  {
    hide HostWrite, HostRead;
    var r := HostWrite(file, pos, bytes);
    var b, b' := HostRead(bytes, x, n), HostRead(r, pos + x, n);
    BytesAfterWrite(file, pos, bytes, 0);
    BytesOfRead(r, pos + x, n, 0);
    BytesOfRead(bytes, x, n, 0);
    forall i | 0 <= i < |b|
      ensures b'[i] == b[i]
    {
      BytesOfRead(r, pos + x, n, i);
      BytesOfRead(bytes, x, n, i);
      BytesAfterWrite(file, pos, bytes, pos + x + i);
    }
  }

  lemma ReadOutside(file: seq<byte>, pos: nat, bytes: seq<byte>, x: nat, n: nat)
    requires bytes != [] && pos + |bytes| <= MAX_FILE && (x + n <= pos || pos + |bytes| <= x)
    ensures HostRead(file, x, n) <= HostRead(HostWrite(file, pos, bytes), x, n)
  {
    hide HostWrite, HostRead;
    var r := HostWrite(file, pos, bytes);
    var b, b' := HostRead(file, x, n), HostRead(r, x, n);
    BytesAfterWrite(file, pos, bytes, 0);
    BytesOfRead(r, x, n, 0);
    BytesOfRead(file, x, n, 0);
    forall i | 0 <= i < |b|
      ensures b'[i] == b[i]
    {
      BytesOfRead(r, x, n, i);
      BytesOfRead(file, x, n, i);
      BytesAfterWrite(file, pos, bytes, x + i);
    }
  }

  lemma ReadOfRead(file: seq<byte>, pos: nat, n: nat, x: nat, k: nat)
    requires x + k <= n
    ensures HostRead(HostRead(file, pos, n), x, k) == HostRead(file, pos + x, k)
  {
  }

  // ---------- blocks ----------

  // Block k of a file, as much of it as the file has.
  function Block(file: seq<byte>, blockSize: nat, k: nat): seq<byte> {
    StartsAt(k, blockSize);
    HostRead(file, k * blockSize, blockSize)
  }

  lemma StartsAt(k: nat, blockSize: nat)
    ensures 0 <= k * blockSize && (k + 1) * blockSize == k * blockSize + blockSize
  {
  }

  lemma Ordered(a: nat, b: nat, c: nat)
    requires a <= b
    ensures a * c <= b * c
  {
    assert b * c - a * c == (b - a) * c;
    StartsAt(b - a, c);
  }

  lemma Further(a: nat, b: nat, c: nat)
    ensures (a + b) * c == a * c + b * c
  {
  }

  // The transfer of count blocks from lba on, in bytes.
  ghost predicate Blockwise(file: seq<byte>, file': seq<byte>, blockSize: nat, lba: nat, count: nat, data: seq<byte>) {
    && (forall j: nat | j < count :: Block(file', blockSize, lba + j) == Block(data, blockSize, j))
    && (forall k: nat | !(lba <= k < lba + count) :: Block(file, blockSize, k) <= Block(file', blockSize, k))
  }

  lemma WrittenBlockwise(file: seq<byte>, blockSize: nat, lba: nat, count: nat, data: seq<byte>)
    requires |data| == count * blockSize > 0 && (lba + count) * blockSize <= MAX_FILE
    ensures 0 <= lba * blockSize
    ensures Blockwise(file, HostWrite(file, lba * blockSize, data), blockSize, lba, count, data)
  {
    hide HostWrite, HostRead;
    StartsAt(lba, blockSize);
    Further(lba, count, blockSize);
    forall j: nat | j < count
      ensures Block(HostWrite(file, lba * blockSize, data), blockSize, lba + j) == Block(data, blockSize, j)
    {
      StartsAt(j, blockSize);
      Ordered(j + 1, count, blockSize);
      Further(lba, j, blockSize);
      ReadInside(file, lba * blockSize, data, j * blockSize, blockSize);
    }
    forall k: nat | !(lba <= k < lba + count)
      ensures Block(file, blockSize, k) <= Block(HostWrite(file, lba * blockSize, data), blockSize, k)
    {
      StartsAt(k, blockSize);
      if k < lba {
        Ordered(k + 1, lba, blockSize);
      } else {
        Ordered(lba + count, k, blockSize);
      }
      ReadOutside(file, lba * blockSize, data, k * blockSize, blockSize);
    }
  }

  lemma ReadBlockwise(file: seq<byte>, blockSize: nat, lba: nat, count: nat, j: nat)
    requires j < count
    ensures 0 <= lba * blockSize && 0 <= count * blockSize
    ensures Block(HostRead(file, lba * blockSize, count * blockSize), blockSize, j) == Block(file, blockSize, lba + j)
  {
    StartsAt(lba, blockSize);
    StartsAt(j, blockSize);
    StartsAt(count, blockSize);
    Ordered(j + 1, count, blockSize);
    Further(lba, j, blockSize);
    hide HostRead;
    ReadOfRead(file, lba * blockSize, count * blockSize, j * blockSize, blockSize);
  }

  // ---------- the commands ----------

  // A WRITE of some blocks: block lba + j of the file is block j of memory, and all other blocks have
  // what they had.
  method WriteBlocks(d: Device)
    requires d.Valid() && d.isOpen && d.count > 0 && (d.lba + d.count) * d.blockSize <= MAX_FILE
    requires Mapped(d.mem, d.buffer, Words(d.count * d.blockSize))
    modifies d
    ensures d.status == WriteSuccess && d.lba == old(d.lba) && d.count == old(d.count)
    ensures d.buffer == old(d.buffer) && d.mem == old(d.mem) && Mapped(d.mem, d.buffer, d.count * d.blockSize)
    ensures Blockwise(old(d.file), d.file, d.blockSize, d.lba, d.count, Fetch(d.mem, d.buffer, d.count * d.blockSize))
  {
    ghost var file, n := d.file, d.count * d.blockSize;
    Sizes(d.lba, d.count, d.blockSize);
    assert d.Transfer() == n && d.Start() == d.lba * d.blockSize;
    MappedPrefix(d.mem, d.buffer, n, Words(n));
    hide HostWrite, Mapped, Fetch, Blockwise;
    WrittenBlockwise(file, d.blockSize, d.lba, d.count, Fetch(d.mem, d.buffer, n));
    d.ExecWrite();
  }

  // A READ of some blocks that the file has: block j of memory is block lba + j of the file.
  method ReadBlocks(d: Device)
    requires d.Valid() && d.isOpen && d.count > 0
    requires (d.lba + d.count) * d.blockSize <= |d.file|
    requires Mapped(d.mem, d.buffer, d.count * d.blockSize)
    modifies d
    ensures d.status == ReadSuccess && d.file == old(d.file) && d.lba == old(d.lba) && d.count == old(d.count)
    ensures d.buffer == old(d.buffer) && Mapped(d.mem, d.buffer, d.count * d.blockSize)
    ensures var data := Fetch(d.mem, d.buffer, d.count * d.blockSize);
      forall j: nat | j < d.count :: Block(data, d.blockSize, j) == Block(d.file, d.blockSize, d.lba + j)
  {
    hide Mapped, Fetch, Laid, Reach, Block, HostRead;
    ghost var n := d.count * d.blockSize;
    Sizes(d.lba, d.count, d.blockSize);
    assert d.Transfer() == n && d.Start() == d.lba * d.blockSize;
    BytesOfRead(d.file, d.lba * d.blockSize, n, 0);
    ghost var data := d.Content();
    DataArrives(d.mem, d.buffer, data);
    BlocksOfBytes(d.count, d.blockSize);
    d.ExecRead();
    BlocksOfContent(d.file, d.blockSize, d.lba, d.count, data);
  }

  lemma DataArrives(m: Bus, addr: u32, data: seq<byte>)
    requires Mapped(m, addr, |data|) && |data| <= TWO32
    ensures Reach(m, addr, |data|) == |data|
    ensures var m' := Laid(m, addr, data, |data|);
      Mapped(m', addr, |data|) && Fetch(m', addr, |data|) == data
  {
    ReachIs(m, addr, |data|, |data|);
    FetchLaid(m, addr, data, |data|, |data|);
    assert data[..|data|] == data;
  }

  lemma BlocksOfContent(file: seq<byte>, blockSize: nat, lba: nat, count: nat, data: seq<byte>)
    requires 0 <= lba * blockSize && 0 <= count * blockSize
    requires data == HostRead(file, lba * blockSize, count * blockSize)
    ensures forall j: nat | j < count :: Block(data, blockSize, j) == Block(file, blockSize, lba + j)
  {
    hide Block, HostRead;
    forall j: nat | j < count
      ensures Block(data, blockSize, j) == Block(file, blockSize, lba + j)
    {
      ReadBlockwise(file, blockSize, lba, count, j);
    }
  }

  // A command for a place that an offset cannot name goes on where the file stands: the result of lseek
  // is not looked at.
  method WriteOutOfReach(d: Device)
    requires d.Valid() && d.isOpen && d.lba * d.blockSize % TWO32 > MAX_FILE
    requires 0 < d.Transfer() <= MAX_FILE && Mapped(d.mem, d.buffer, Words(d.Transfer()))
    modifies d
    ensures var n := old(d.Transfer());
      && d.status == WriteSuccess && Mapped(d.mem, d.buffer, n)
      && d.file == HostWrite(old(d.file), old(d.pos), Fetch(d.mem, d.buffer, n))
  {
    hide HostWrite, Mapped, Fetch;
    d.ExecWrite();
  }

  // Counts and sizes in blocks are whole ones.
  lemma WholeBlocks(n: nat, blockSize: u32)
    requires blockSize > 0
    ensures Blocks(n, blockSize) * blockSize <= n < (Blocks(n, blockSize) + 1) * blockSize
  {
    assert n == n / blockSize * blockSize + n % blockSize;
    StartsAt(n / blockSize, blockSize);
  }
}

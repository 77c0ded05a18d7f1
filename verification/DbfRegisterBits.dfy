/**
 The registers of the deblocking accelerator as software sees them: which bits the completions set
 and an acknowledgement clears, and what the bytes that software writes come to.
 */
module DbfRegisterBits {
  import opened AddressMap
  import opened Bytes
  import opened DbfStore
  import opened DbfSlices
  import opened DbfRegisters
  import opened DbfTransfer

  // ---------- the interrupt, bit by bit ----------

  predicate OneBit(b: byte) {
    b == 1 || b == 2 || b == 4 || b == 8 || b == 0x10 || b == 0x20 || b == 0x40 || b == 0x80
  }

  lemma LeftBits(status: byte, data: byte, bit: byte)
    requires OneBit(bit)
    ensures bit != GENERATED_BIT ==> (Hit(Left(status, data), bit) <==> Hit(status, bit) && !Hit(data, bit))
    ensures Hit(Left(status, data), GENERATED_BIT) <==> Hit(status, GENERATED_BIT) && Hit(Left(status, data), 0x7F)
  {
  }

  // An acknowledgement of an enabled status bit clears the acknowledged bits and keeps all others; the
  // bit that says that an interrupt was generated goes with the last of them, and the line falls with
  // the last enabled one.  Any other acknowledgement changes nothing.
  lemma AckClears(i: Intr, data: byte, bit: byte)
    requires OneBit(bit)
    ensures var r := AckIntr(i, data);
      && r.enable == i.enable
      && (!Hit(And(data, i.status), i.enable) ==> r == i)
      && (Hit(And(data, i.status), i.enable) ==>
            && (bit != GENERATED_BIT ==> (Hit(r.status, bit) <==> Hit(i.status, bit) && !Hit(data, bit)))
            && (Hit(r.status, GENERATED_BIT) <==> Hit(i.status, GENERATED_BIT) && Hit(r.status, 0x7F))
            && (r.irq <==> i.irq && Hit(r.status, i.enable)))
  {
    LeftBits(i.status, data, bit);
    hide Left, Hit, And;
  }

  // An interrupt sets its own bits and keeps all others; if an enabled one is set then, so is the bit that
  // says so, and the line rises.
  lemma RaiseSets(i: Intr, bits: byte, bit: byte)
    requires OneBit(bit) && !Hit(bits, GENERATED_BIT)
    ensures var r := RaiseIntr(i, bits);
      && r.enable == i.enable
      && (bit != GENERATED_BIT ==> (Hit(r.status, bit) <==> Hit(i.status, bit) || Hit(bits, bit)))
      && (Hit(r.status, GENERATED_BIT)
          <==> Hit(i.status, GENERATED_BIT) || Hit(i.status, i.enable) || Hit(bits, i.enable))
      && (r.irq <==> i.irq || Hit(i.status, i.enable) || Hit(bits, i.enable))
  {
    OrHits(i.status, bits, bit);
    OrHits(i.status, bits, i.enable);
    OrHits(Or(i.status, bits), GENERATED_BIT, bit);
    OrHits(Or(i.status, bits), GENERATED_BIT, GENERATED_BIT);
    OrHits(i.status, bits, GENERATED_BIT);
    OtherBit(bit);
    hide Or, Hit;
  }

  lemma OrHits(a: byte, b: byte, mask: byte)
    ensures Hit(Or(a, b), mask) <==> Hit(a, mask) || Hit(b, mask)
  {
  }

  lemma OtherBit(bit: byte)
    requires OneBit(bit)
    ensures Hit(GENERATED_BIT, bit) <==> bit == GENERATED_BIT
  {
  }

  // Enabling takes all bits but that one.
  lemma EnableTakes(i: Intr, data: byte, bit: byte)
    requires OneBit(bit)
    ensures var r := EnableIntr(i, data);
      r.status == i.status && (Hit(r.enable, bit) <==> Hit(data, bit) && bit != GENERATED_BIT)
  {
    MaskTakes(data, bit);
    hide Hit;
  }

  lemma MaskTakes(data: byte, bit: byte)
    requires OneBit(bit)
    ensures Hit(data & 0x7F, bit) <==> Hit(data, bit) && bit != GENERATED_BIT
  {
  }

  // ---------- what a write over the bus does to the store ----------

  // The registers that are no plain bytes.
  predicate Special(address: nat) {
    || address == REG_INT_STATUS || address == REG_NSLICES || address == REG_INT_ENABLE || address == REG_INT_ACK
    || exists s: nat :: s < N_SLICE_THREADS && address == REG_SLI_CLEAR + SLICE_OFFSET * s
  }

  lemma SliceOfIs(base: nat, address: nat, s: nat)
    requires s < N_SLICE_THREADS
    ensures SliceOf(base, address) == s <==> address == base + SLICE_OFFSET * s
  {
  }

  lemma NoClear(address: nat)
    requires !Special(address)
    ensures SliceOf(REG_SLI_CLEAR, address) == N_SLICE_THREADS
  {
  }

  // A plain byte holds what is written and nothing else in the store changes; a write to the register
  // FILLOW of a slice starts this slice, and a 1 written to FRA_SRAM a transfer, each once.
  lemma PlainByte(d: Dbf, address: nat, data: byte)
    requires address < SIZE && !Special(address)
    ensures var d' := SetData(d, address, data);
      && d'.m == d.m[address := data] && d'.irq == d.irq
      && d'.transfers == d.transfers + (if address == REG_FRA_SRAM && data == 1 then 1 else 0)
      && (forall s: nat | s < N_SLICE_THREADS && address == REG_SLI_FILLOW + SLICE_OFFSET * s ::
            d'.started == d.started + [s])
      && ((forall s: nat | s < N_SLICE_THREADS :: address != REG_SLI_FILLOW + SLICE_OFFSET * s) ==>
            d'.started == d.started)
  {
    NoClear(address);
    forall s: nat | s < N_SLICE_THREADS
      ensures SliceOf(REG_SLI_FILLOW, address) == s <==> address == REG_SLI_FILLOW + SLICE_OFFSET * s
    {
      SliceOfIs(REG_SLI_FILLOW, address, s);
    }
    hide ClearSlice, EnableIntr, AckIntr, SliceOf;
  }

  // The status and the number of slices cannot be written.
  lemma ReadOnly(d: Dbf, address: nat, data: byte)
    requires address == REG_INT_STATUS || address == REG_NSLICES
    ensures SetData(d, address, data) == d
  {
  }

  // A clear empties the macroblocks of the slice but for the quantisers, which it sets to -1, and
  // writes nothing else but 0 to the register that started it.
  lemma ClearEmpties(d: Dbf, slice: nat, data: byte, a: nat)
    requires slice < N_SLICE_THREADS && a < SIZE
    ensures var address := REG_SLI_CLEAR + SLICE_OFFSET * slice;
      var d' := SetData(d, address, data);
      && d'.irq == d.irq && d'.started == d.started && d'.transfers == d.transfers && d'.m[address] == 0
      && (a != address && Offset(d.m, slice) <= a / BLOCK < Offset(d.m, slice) + Length(d.m, slice) ==>
            (if a % BLOCK == 0x1D0 || a % BLOCK == 0x1D1 then SignedChar(d'.m[a] as int) == -1 else d'.m[a] == 0))
      && (a != address && !(Offset(d.m, slice) <= a / BLOCK < Offset(d.m, slice) + Length(d.m, slice)) ==>
            d'.m[a] == d.m[a])
  {
    hide Offset, Length, EnableIntr, AckIntr, ClearBlocks, SliceOf;
    var address := REG_SLI_CLEAR + SLICE_OFFSET * slice;
    SliceOfIs(REG_SLI_CLEAR, address, slice);
    NotStarted(address, slice);
    SameDescription(d.m, slice, address, data);
    ClearedAt(d.m[address := data], Offset(d.m, slice), End(d.m, slice), a);
  }

  lemma NotStarted(address: nat, slice: nat)
    requires slice < N_SLICE_THREADS && address == REG_SLI_CLEAR + SLICE_OFFSET * slice
    ensures SliceOf(REG_SLI_FILLOW, address) == N_SLICE_THREADS
  {
  }

  lemma ClearedAt(m: Store, lo: nat, hi: nat, a: nat)
    requires a < SIZE
    ensures ClearBlocks(m, lo, hi)[a] == if !(lo <= a / BLOCK < hi) then m[a]
                                         else if a % BLOCK == 0x1D0 || a % BLOCK == 0x1D1 then 0xFF else 0
    ensures SignedChar((0xFF as byte) as int) == -1
  {
    OwnByBlock(a, lo, hi);
  }

  lemma SameDescription(m: Store, slice: nat, address: nat, data: byte)
    requires slice < N_SLICE_THREADS && address == REG_SLI_CLEAR + SLICE_OFFSET * slice
    ensures Offset(m[address := data], slice) == Offset(m, slice)
    ensures Length(m[address := data], slice) == Length(m, slice)
  {
  }

  // It stays in the store if and only if no macroblock of the slice reaches past it.
  lemma ClearFitsIff(m: Store, slice: nat)
    requires slice < N_SLICE_THREADS
    ensures ClearFits(m, slice)
            <==> forall mb, i | Offset(m, slice) <= mb < End(m, slice) && 0 <= i < BLOCK :: InMb(mb, i) < SIZE
  {
    if !ClearFits(m, slice) {
      assert InMb(End(m, slice) - 1, BLOCK - 1) >= SIZE;
    }
    hide Offset, Length;
  }

  // Byte i of a macroblock.
  function InMb(mb: nat, i: nat): nat { BLOCK * mb + i }

  // ---------- completions ----------

  // The two bytes that tell how much of a slice has been filtered, 0 while nothing has.
  function Told(m: Store, slice: nat): nat
    requires slice < N_SLICE_THREADS
  {
    m[REG_SLI_EMPHI + SLICE_OFFSET * slice] as int * 256 + m[REG_SLI_EMPLOW + SLICE_OFFSET * slice] as int
  }

  lemma ByteParts(length: nat)
    requires length < 0x1_0000
    ensures (length / 256) as byte as int * 256 + (length % 256) as byte as int == length
  {
    ByteBack(length / 256);
    ByteBack(length % 256);
  }

  lemma TellingIsPlain(d: Dbf, slice: nat, offset: nat, data: byte)
    requires slice < N_SLICE_THREADS && (offset == REG_SLI_EMPHI || offset == REG_SLI_EMPLOW)
    ensures SetData(d, offset + SLICE_OFFSET * slice, data) == d.(m := d.m[offset + SLICE_OFFSET * slice := data])
  {
    PlainByte(d, offset + SLICE_OFFSET * slice, data);
    hide SetData;
  }

  // At the end of a slice they tell its length, and nothing else in the store has changed.
  lemma LengthIsTold(d: Dbf, slice: nat)
    requires slice < N_SLICE_THREADS
    ensures var hi, lo := REG_SLI_EMPHI + SLICE_OFFSET * slice, REG_SLI_EMPLOW + SLICE_OFFSET * slice;
      var d' := StoreLength(d, slice);
      d' == d.(m := d.m[hi := d'.m[hi]][lo := d'.m[lo]]) && Told(d'.m, slice) == Length(d.m, slice)
  {
    var high, low := LengthBytes(d, slice);
    hide SetData, Length, Told, StoreLength;
    TwoBytes(d, slice, high, low);
  }

  lemma LengthBytes(d: Dbf, slice: nat) returns (high: byte, low: byte)
    requires slice < N_SLICE_THREADS
    ensures high as int * 256 + low as int == Length(d.m, slice)
    ensures StoreLength(d, slice)
            == SetData(SetData(d, REG_SLI_EMPHI + SLICE_OFFSET * slice, high),
                       REG_SLI_EMPLOW + SLICE_OFFSET * slice, low)
  {
    LengthIsShort(d.m, slice);
    ByteParts(Length(d.m, slice));
    hide SetData, Length;
    high, low := (Length(d.m, slice) / 256) as byte, (Length(d.m, slice) % 256) as byte;
  }

  lemma TwoBytes(d: Dbf, slice: nat, high: byte, low: byte)
    requires slice < N_SLICE_THREADS
    ensures var hi, lo := REG_SLI_EMPHI + SLICE_OFFSET * slice, REG_SLI_EMPLOW + SLICE_OFFSET * slice;
      var d' := SetData(SetData(d, hi, high), lo, low);
      && d' == d.(m := d.m[hi := high][lo := low]) && d'.m[hi] == high && d'.m[lo] == low
      && Told(d'.m, slice) == high as int * 256 + low as int
  {
    TellingIsPlain(d, slice, REG_SLI_EMPHI, high);
    TellingIsPlain(SetData(d, REG_SLI_EMPHI + SLICE_OFFSET * slice, high), slice, REG_SLI_EMPLOW, low);
    hide SetData;
  }

  // The slices before n that have told a length.
  function Finishers(m: Store, n: nat): set<nat>
    requires n <= N_SLICE_THREADS
  {
    set s: nat | s < n && Told(m, s) != 0
  }

  lemma OneFinisherMore(m: Store, n: nat)
    requires n < N_SLICE_THREADS
    ensures |Finishers(m, n + 1)| == |Finishers(m, n)| + Finished(m, n)
  {
    ZeroByte(m[REG_SLI_EMPHI + SLICE_OFFSET * n]);
    ZeroByte(m[REG_SLI_EMPLOW + SLICE_OFFSET * n]);
    assert Finished(m, n) == if Told(m, n) != 0 then 1 else 0;
    hide Finished, Told;
    assert Finishers(m, n + 1) == if Told(m, n) != 0 then Finishers(m, n) + {n} else Finishers(m, n);
  }

  lemma ZeroByte(b: byte)
    ensures b == 0 <==> b as int == 0
  {
  }

  lemma FinishedCounts(m: Store)
    ensures Finished(m, 0) + Finished(m, 1) + Finished(m, 2) + Finished(m, 3) == |Finishers(m, N_SLICE_THREADS)|
  {
    assert Finishers(m, 0) == {};
    OneFinisherMore(m, 0);
    OneFinisherMore(m, 1);
    OneFinisherMore(m, 2);
    OneFinisherMore(m, 3);
    hide Finishers, Finished;
  }

  // The end of a slice sets its own bit of the four, and the bit for all of them exactly if as many slices
  // have told a length as software waits for.
  lemma DoneSets(m: Store, slice: nat, bit: byte)
    requires slice < N_SLICE_THREADS && OneBit(bit)
    ensures Hit(DoneBits(m, slice), bit)
            <==> bit as int == Power(slice)
                 || (bit == 0x10 && |Finishers(m, N_SLICE_THREADS)| >= m[REG_NSLICES_INTR] as int)
  {
    FinishedCounts(m);
    SliceBits(slice, bit);
    hide Finishers, Finished;
  }

  // So the status gains these two at most, and the length is told.
  lemma SliceDoneSets(d: Dbf, slice: nat, bit: byte)
    requires slice < N_SLICE_THREADS && OneBit(bit)
    ensures var told, d' := StoreLength(d, slice).m, SliceDone(d, slice);
      && Told(told, slice) == Length(d.m, slice)
      && (bit != GENERATED_BIT ==>
            (Hit(IntrOf(d').status, bit)
             <==> Hit(IntrOf(d).status, bit) || bit as int == Power(slice)
                  || (bit == 0x10 && |Finishers(told, N_SLICE_THREADS)| >= told[REG_NSLICES_INTR] as int)))
  {
    LengthIsTold(d, slice);
    StoreLengthIntr(d, slice);
    var d1 := StoreLength(d, slice);
    DoneSets(d1.m, slice, bit);
    DoneSets(d1.m, slice, GENERATED_BIT);
    PowersAreLow(slice);
    hide Hit, DoneBits, StoreLength, Finishers, RaiseIntr, Power, Told, Length;
    RaiseSets(IntrOf(d1), DoneBits(d1.m, slice), bit);
  }

  lemma PowersAreLow(slice: nat)
    requires slice < N_SLICE_THREADS
    ensures Power(slice) <= 8 && GENERATED_BIT as int == 0x80
  {
    assert Power(1) == 2 && Power(2) == 4 && Power(3) == 8;
  }

  function Power(n: nat): nat { if n == 0 then 1 else 2 * Power(n - 1) }

  lemma SliceBits(slice: nat, bit: byte)
    requires slice < N_SLICE_THREADS && OneBit(bit)
    ensures Hit(SliceBit(slice) | 0, bit) <==> bit as int == Power(slice)
    ensures Hit(SliceBit(slice) | ALLSLICES_BIT, bit) <==> bit as int == Power(slice) || bit == 0x10
  {
    assert Power(1) == 2 && Power(2) == 4 && Power(3) == 8;
  }

  // The end of a transfer resets the register that started it, and sets the bit 0x20.
  lemma TransferDoneSets(d: Dbf, bit: byte)
    requires OneBit(bit)
    ensures var d' := TransferDone(d);
      && d'.m[REG_FRA_SRAM] == 0 && d'.transfers == d.transfers && d'.started == d.started
      && (bit != GENERATED_BIT ==>
            (Hit(IntrOf(d').status, bit) <==> Hit(IntrOf(d).status, bit) || bit == 0x20))
  {
    PlainByte(d, REG_FRA_SRAM, 0);
    RaiseSets(IntrOf(d), SRAM_BIT, bit);
    SramBit(bit);
    hide Hit, RaiseIntr, SetData;
  }

  lemma SramBit(bit: byte)
    requires OneBit(bit)
    ensures Hit(SRAM_BIT, bit) <==> bit == 0x20
  {
  }

  // ---------- what software describes ----------

  lemma Plain(d: Dbf, address: nat, data: byte)
    requires address < SIZE && !Special(address)
    ensures SetData(d, address, data).m == d.m[address := data]
  {
    PlainByte(d, address, data);
    hide SetData;
  }

  // Slice s is the length macroblocks from offset on if software writes the low byte of the offset; its
  // high four bits below the low four of the length; and the rest of the length.
  lemma SliceIsDescribed(d: Dbf, s: nat, offset: nat, length: nat, b0: byte, b1: byte, b2: byte)
    requires s < N_SLICE_THREADS && offset < 0x1000 && length < 0x1000
    requires b0 as int == offset % 0x100 && b1 as int == offset / 0x100 + 16 * (length % 16) && b2 as int == length / 16
    ensures var at := SLICE_OFFSET * s;
      var m := SetData(SetData(SetData(d, 0x38010 + at, b0), 0x38011 + at, b1), 0x38012 + at, b2).m;
      Offset(m, s) == offset && Length(m, s) == length
  {
    hide SetData, Offset, Length;
    var at := SLICE_OFFSET * s;
    var d1 := SetData(d, 0x38010 + at, b0);
    var d2 := SetData(d1, 0x38011 + at, b1);
    Plain(d, 0x38010 + at, b0);
    Plain(d1, 0x38011 + at, b1);
    Plain(d2, 0x38012 + at, b2);
    hide Special;
    DescribedIs(SetData(d2, 0x38012 + at, b2).m, s, offset, length, b0, b1, b2);
  }

  lemma DescribedIs(m: Store, s: nat, offset: nat, length: nat, b0: byte, b1: byte, b2: byte)
    requires s < N_SLICE_THREADS && offset < 0x1000 && length < 0x1000
    requires b0 as int == offset % 0x100 && b1 as int == offset / 0x100 + 16 * (length % 16) && b2 as int == length / 16
    requires m[0x38010 + SLICE_OFFSET * s] == b0 && m[0x38011 + SLICE_OFFSET * s] == b1
    requires m[0x38012 + SLICE_OFFSET * s] == b2
    ensures Offset(m, s) == offset && Length(m, s) == length
  {
    Nibbles(b1, offset / 0x100, length % 16);
  }

  lemma Nibbles(b: byte, low: nat, high: nat)
    requires low < 16 && high < 16 && b as int == low + 16 * high
    ensures (b & 0x0F) as int == low && ((b & 0xF0) >> 4) as int == high
  {
  }

  // Bits 4 and 5 of the control byte are the format of the picture.
  lemma FormatIsDescribed(d: Dbf, b: byte, format: nat, low: nat, high: nat)
    requires format < 4 && low < 16 && high < 4 && b as int == low + 16 * format + 64 * high
    ensures Format(SetData(d, 0x34004, b).m) == format
  {
    Plain(d, 0x34004, b);
    MiddleBits(b, low, format, high);
    hide SetData;
  }

  lemma MiddleBits(b: byte, low: nat, middle: nat, high: nat)
    requires low < 16 && middle < 4 && high < 4 && b as int == low + 16 * middle + 64 * high
    ensures ((b & 0x30) >> 4) as int == middle
  {
  }

  // The picture goes to the address whose bytes software writes, the lowest one first.
  lemma DestinationIsDescribed(d: Dbf, address: u32, b0: byte, b1: byte, b2: byte, b3: byte)
    requires b0 as int == address % 0x100 && b1 as int == address / 0x100 % 0x100
    requires b2 as int == address / 0x1_0000 % 0x100 && b3 as int == address / 0x100_0000
    ensures var m := SetData(SetData(SetData(SetData(d, 0x39010, b0), 0x39011, b1), 0x39012, b2), 0x39013, b3).m;
      Destination(m) == address
  {
    var d1 := SetData(d, 0x39010, b0);
    var d2 := SetData(d1, 0x39011, b1);
    var d3 := SetData(d2, 0x39012, b2);
    Plain(d, 0x39010, b0);
    Plain(d1, 0x39011, b1);
    Plain(d2, 0x39012, b2);
    Plain(d3, 0x39013, b3);
    hide SetData;
    FourBytesOf(address);
  }

  lemma FourBytesOf(v: nat)
    ensures v == v % 0x100 + v / 0x100 % 0x100 * 0x100 + v / 0x1_0000 % 0x100 * 0x1_0000 + v / 0x100_0000 * 0x100_0000
  {
    assert v / 0x100 == v / 0x100 / 0x100 * 0x100 + v / 0x100 % 0x100;
    assert v / 0x1_0000 == v / 0x1_0000 / 0x100 * 0x100 + v / 0x1_0000 % 0x100;
    assert v / 0x100 / 0x100 == v / 0x1_0000 && v / 0x1_0000 / 0x100 == v / 0x100_0000;
  }
}

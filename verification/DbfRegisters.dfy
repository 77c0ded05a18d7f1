/**
 The register file of the deblocking accelerator: writes over the bus, the completions of slices
 and of the transfer to memory, and the interrupt that they raise and clear.
 */
module DbfRegisters {
  import opened Bytes
  import opened DbfStore
  import opened DbfSlices

  const REG_FRA_SRAM: nat := 0x38008
  const REG_SLI_FILLOW: nat := 0x38018
  const REG_SLI_EMPLOW: nat := 0x3801A
  const REG_SLI_EMPHI: nat := 0x3801B
  const REG_SLI_CLEAR: nat := 0x3801C
  const REG_NSLICES: nat := 0x39000
  const REG_INT_ACK: nat := 0x39004
  const REG_INT_STATUS: nat := 0x39008
  const REG_INT_ENABLE: nat := 0x3900C
  const REG_NSLICES_INTR: nat := 0x39018

  const ALLSLICES_BIT: byte := 0x10
  const SRAM_BIT: byte := 0x20
  const GENERATED_BIT: byte := 0x80

  // irq is m_irq_stat; started and transfers are the notifications of the other threads.
  datatype Dbf = Dbf(m: Store, irq: bool, started: seq<nat>, transfers: nat)

  // ---------- the interrupt ----------

  // The two registers and the line.
  datatype Intr = Intr(status: byte, enable: byte, irq: bool)

  function IntrOf(d: Dbf): Intr { Intr(d.m[REG_INT_STATUS], d.m[REG_INT_ENABLE], d.irq) }

  function WithIntr(d: Dbf, i: Intr): (r: Dbf)
    ensures IntrOf(r) == i
  {
    d.(m := d.m[REG_INT_STATUS := i.status][REG_INT_ENABLE := i.enable], irq := i.irq)
  }

  // Some bit is set in both.
  predicate Hit(a: byte, b: byte) { a & b != 0 }

  function Or(a: byte, b: byte): byte { a | b }

  function And(a: byte, b: byte): byte { a & b }

  // The status without the acknowledged bits; the last bit goes when no other is left.
  function Left(status: byte, data: byte): byte {
    var left := status & (!data | 0x80);
    if left == 0x80 then 0 else left
  }

  // The invariant: the line is raised exactly if an enabled status bit is set, and the bit that says
  // that an interrupt was generated is not enabled itself.
  predicate IntrOk(i: Intr) { (i.irq <==> Hit(i.status, i.enable)) && !Hit(i.enable, GENERATED_BIT) }

  predicate IrqOk(d: Dbf) { IntrOk(IntrOf(d)) }

  function EnableIntr(i: Intr, data: byte): Intr {
    var value := data & 0x7F;
    Intr(i.status, value,
         if !Hit(i.status, i.enable) && Hit(i.status, value) then true
         else if Hit(i.status, i.enable) && !Hit(i.status, value) then false
         else i.irq)
  }

  function AckIntr(i: Intr, data: byte): Intr {
    if Hit(And(data, i.status), i.enable) then
      var status := Left(i.status, data);
      Intr(status, i.enable, i.irq && Hit(status, i.enable))
    else i
  }

  // The last lines of process_slice and of master_request.
  function RaiseIntr(i: Intr, bits: byte): Intr {
    var status := Or(i.status, bits);
    if Hit(status, i.enable) then i.(status := Or(status, GENERATED_BIT), irq := true) else i.(status := status)
  }

  lemma OrKeeps(s: byte, bits: byte, e: byte)
    ensures Hit(s, e) ==> Hit(Or(s, bits), e)
  {
  }

  lemma MaskedIsNotEnabled(data: byte)
    ensures !Hit(data & 0x7F, GENERATED_BIT)
  {
  }

  lemma AndHits(data: byte, s: byte, e: byte)
    ensures Hit(And(data, s), e) ==> Hit(s, e)
  {
  }

  lemma EnableStaysOk(i: Intr, data: byte)
    requires IntrOk(i)
    ensures IntrOk(EnableIntr(i, data))
  {
    MaskedIsNotEnabled(data);
  }

  lemma AckStaysOk(i: Intr, data: byte)
    requires IntrOk(i)
    ensures IntrOk(AckIntr(i, data))
  {
    AndHits(data, i.status, i.enable);
  }

  lemma RaiseStaysOk(i: Intr, bits: byte)
    requires IntrOk(i)
    ensures IntrOk(RaiseIntr(i, bits))
  {
    OrKeeps(i.status, bits, i.enable);
    OrKeeps(Or(i.status, bits), GENERATED_BIT, i.enable);
  }

  // ---------- clear_slice ----------

  // The quantisation bytes of a cleared macroblock are 0xFF, all others 0.
  function Cleared(a: nat): byte { if a % BLOCK == QUANT || a % BLOCK == QUANT + 1 then 0xFF else 0 }

  function ClearBlocks(m: Store, lo: nat, hi: nat): Store {
    seq(SIZE, a requires 0 <= a < SIZE => if Own(a, lo, hi) then Cleared(a) else m[a])
  }

  // A clear stays in the store; one of no macroblocks does, wherever it is.
  predicate ClearFits(m: Store, slice: nat)
    requires slice < N_SLICE_THREADS
  {
    Length(m, slice) == 0 || End(m, slice) * BLOCK <= SIZE
  }

  function ClearSlice(m: Store, slice: nat): Store
    requires slice < N_SLICE_THREADS
  {
    ClearBlocks(m, Offset(m, slice), End(m, slice))
  }

  // ---------- set_data ----------

  // The slice whose register at base this address is, or 4.
  function SliceOf(base: nat, address: nat): (s: nat)
    ensures s <= N_SLICE_THREADS && (s < N_SLICE_THREADS ==> address == base + SLICE_OFFSET * s)
  {
    if address == base then 0
    else if address == base + SLICE_OFFSET then 1
    else if address == base + SLICE_OFFSET * 2 then 2
    else if address == base + SLICE_OFFSET * 3 then 3
    else 4
  }

  function SetData(d: Dbf, address: nat, data: byte): Dbf
    requires address < SIZE
  {
    if address == REG_INT_STATUS || address == REG_NSLICES then d
    else if address == REG_INT_ENABLE then WithIntr(d, EnableIntr(IntrOf(d), data))
    else
      var d' := d.(m := d.m[address := data]);
      var fill, clear := SliceOf(REG_SLI_FILLOW, address), SliceOf(REG_SLI_CLEAR, address);
      if address == REG_INT_ACK then WithIntr(d', AckIntr(IntrOf(d'), data))
      else if fill < N_SLICE_THREADS then d'.(started := d.started + [fill])
      else if clear < N_SLICE_THREADS then d'.(m := ClearSlice(d'.m, clear)[address := 0])
      else if address == REG_FRA_SRAM && data == 1 then d'.(transfers := d.transfers + 1)
      else d'
  }

  // ---------- completions ----------

  function Finished(m: Store, slice: nat): nat
    requires slice < N_SLICE_THREADS
  {
    if m[REG_SLI_EMPHI + SLICE_OFFSET * slice] != 0 || m[REG_SLI_EMPLOW + SLICE_OFFSET * slice] != 0 then 1 else 0
  }

  function SliceBit(slice: nat): byte
    requires slice < N_SLICE_THREADS
  {
    match slice
    case 0 => 1
    case 1 => 2
    case 2 => 4
    case _ => 8
  }

  // process_slice, after filter_slice has returned.
  function StoreLength(d: Dbf, slice: nat): Dbf
    requires slice < N_SLICE_THREADS
  {
    LengthIsShort(d.m, slice);
    var length := Length(d.m, slice);
    var d1 := SetData(d, REG_SLI_EMPHI + SLICE_OFFSET * slice, (length / 256) as byte);
    SetData(d1, REG_SLI_EMPLOW + SLICE_OFFSET * slice, (length % 256) as byte)
  }

  function DoneBits(m: Store, slice: nat): byte
    requires slice < N_SLICE_THREADS
  {
    var n := Finished(m, 0) + Finished(m, 1) + Finished(m, 2) + Finished(m, 3);
    SliceBit(slice) | (if n >= m[REG_NSLICES_INTR] as int then ALLSLICES_BIT else 0)
  }

  function SliceDone(d: Dbf, slice: nat): Dbf
    requires slice < N_SLICE_THREADS
  {
    var d1 := StoreLength(d, slice);
    WithIntr(d1, RaiseIntr(IntrOf(d1), DoneBits(d1.m, slice)))
  }

  lemma LengthIsShort(m: Store, slice: nat)
    requires slice < N_SLICE_THREADS
    ensures Length(m, slice) < 0x1000
  {
    var b := m[SLICE_OFFSET * slice + REG_SLI_LGTOFF];
    assert (b & 0xF0) >> 4 <= 15;
  }

  // master_request, after the last packet.
  function TransferDone(d: Dbf): Dbf {
    var d1 := SetData(d, REG_FRA_SRAM, 0);
    WithIntr(d1, RaiseIntr(IntrOf(d1), SRAM_BIT))
  }

  // ---------- the invariant ----------

  // A clear reaches the interrupt registers if macroblock 456 is in the slice.
  predicate Reaches(m: Store, slice: nat)
    requires slice < N_SLICE_THREADS
  {
    Offset(m, slice) <= 456 < End(m, slice)
  }

  lemma ClearBlocksIntr(d: Dbf, lo: nat, hi: nat)
    ensures IntrOf(d.(m := ClearBlocks(d.m, lo, hi))) == if lo <= 456 < hi then Intr(0, 0, d.irq) else IntrOf(d)
  {
    assert REG_INT_STATUS % BLOCK == 8 && REG_INT_ENABLE % BLOCK == 12;
    assert Own(REG_INT_STATUS, lo, hi) <==> lo <= 456 < hi;
    assert Own(REG_INT_ENABLE, lo, hi) <==> lo <= 456 < hi;
  }

  // What a write over the bus does to the interrupt.
  lemma SetDataIntr(d: Dbf, address: nat, data: byte)
    requires address < SIZE
    ensures var i, slice := IntrOf(SetData(d, address, data)), SliceOf(REG_SLI_CLEAR, address);
      i == if address == REG_INT_ENABLE then EnableIntr(IntrOf(d), data)
           else if address == REG_INT_ACK then AckIntr(IntrOf(d), data)
           else if slice < N_SLICE_THREADS && Reaches(d.m[address := data], slice) then Intr(0, 0, d.irq)
           else IntrOf(d)
  {
    if address != REG_INT_STATUS && address != REG_NSLICES && address != REG_INT_ENABLE {
      var d' := d.(m := d.m[address := data]);
      var slice := SliceOf(REG_SLI_CLEAR, address);
      if slice < N_SLICE_THREADS {
        ClearBlocksIntr(d', Offset(d'.m, slice), End(d'.m, slice));
      }
    }
  }

  // The registers of the slice are not the one that is written to clear it.
  lemma ClearRegister(m: Store, slice: nat, data: byte)
    requires slice < N_SLICE_THREADS
    ensures Reaches(m[REG_SLI_CLEAR + SLICE_OFFSET * slice := data], slice) == Reaches(m, slice)
  {
  }

  // A write over the bus keeps the invariant, unless it clears a slice that reaches over the
  // interrupt registers while the interrupt is raised.
  lemma SetDataKeepsIrq(d: Dbf, address: nat, data: byte)
    requires IrqOk(d) && address < SIZE
    ensures var slice := SliceOf(REG_SLI_CLEAR, address);
      IrqOk(SetData(d, address, data)) <==> !(slice < N_SLICE_THREADS && Reaches(d.m, slice) && d.irq)
  {
    SetDataIntr(d, address, data);
    EnableStaysOk(IntrOf(d), data);
    AckStaysOk(IntrOf(d), data);
    var slice := SliceOf(REG_SLI_CLEAR, address);
    if slice < N_SLICE_THREADS {
      ClearRegister(d.m, slice, data);
    }
  }

  // The registers that tell how much of a slice has been filtered are plain bytes.
  lemma PlainWrite(d: Dbf, address: nat, data: byte)
    requires address < SIZE && address != REG_INT_ENABLE && address != REG_INT_ACK
    requires SliceOf(REG_SLI_CLEAR, address) == N_SLICE_THREADS
    ensures IntrOf(SetData(d, address, data)) == IntrOf(d)
  {
    SetDataIntr(d, address, data);
  }

  lemma StoreLengthIntr(d: Dbf, slice: nat)
    requires slice < N_SLICE_THREADS
    ensures IntrOf(StoreLength(d, slice)) == IntrOf(d)
  {
    LengthIsShort(d.m, slice);
    var length := Length(d.m, slice);
    var d1 := SetData(d, REG_SLI_EMPHI + SLICE_OFFSET * slice, (length / 256) as byte);
    PlainWrite(d, REG_SLI_EMPHI + SLICE_OFFSET * slice, (length / 256) as byte);
    PlainWrite(d1, REG_SLI_EMPLOW + SLICE_OFFSET * slice, (length % 256) as byte);
  }

  lemma SliceDoneKeepsIrq(d: Dbf, slice: nat)
    requires IrqOk(d) && slice < N_SLICE_THREADS
    ensures IrqOk(SliceDone(d, slice))
  {
    StoreLengthIntr(d, slice);
    RaiseStaysOk(IntrOf(d), DoneBits(StoreLength(d, slice).m, slice));
  }

  lemma TransferDoneKeepsIrq(d: Dbf)
    requires IrqOk(d)
    ensures IrqOk(TransferDone(d))
  {
    PlainWrite(d, REG_FRA_SRAM, 0);
    RaiseStaysOk(IntrOf(d), SRAM_BIT);
  }

  lemma FilteringKeepsIrq(t: Tables, d: Dbf, slice: nat)
    requires IrqOk(d) && Ready(d.m, slice)
    ensures IrqOk(d.(m := FilterSlice(t, d.m, slice)))
  {
    SliceKeepsRegisters(t, d.m, slice);
  }

  // ---------- runs ----------

  // What the threads of the device do, one after the other.
  datatype Event =
    | BusWrite(address: nat, data: byte)
    | Filter(slice: nat)
    | SliceEnds(slice: nat)
    | TransferEnds

  predicate Possible(d: Dbf, e: Event) {
    match e
    case BusWrite(address, _) => address < SIZE
    case Filter(slice) => Ready(d.m, slice)
    case SliceEnds(slice) => slice < N_SLICE_THREADS
    case TransferEnds => true
  }

  ghost function After(t: Tables, d: Dbf, e: Event): Dbf
    requires Possible(d, e)
  {
    match e
    case BusWrite(address, data) => SetData(d, address, data)
    case Filter(slice) => d.(m := FilterSlice(t, d.m, slice))
    case SliceEnds(slice) => SliceDone(d, slice)
    case TransferEnds => TransferDone(d)
  }

  // No slice is cleared over the registers while the interrupt is raised.
  predicate Tame(d: Dbf, e: Event) {
    e.BusWrite? && SliceOf(REG_SLI_CLEAR, e.address) < N_SLICE_THREADS ==>
      !(Reaches(d.m, SliceOf(REG_SLI_CLEAR, e.address)) && d.irq)
  }

  ghost predicate Run(t: Tables, d: Dbf, es: seq<Event>)
    decreases |es|
  {
    es == [] || (Possible(d, es[0]) && Run(t, After(t, d, es[0]), es[1..]))
  }

  ghost predicate TameRun(t: Tables, d: Dbf, es: seq<Event>)
    requires Run(t, d, es)
    decreases |es|
  {
    es == [] || (Tame(d, es[0]) && TameRun(t, After(t, d, es[0]), es[1..]))
  }

  // The invariant in every state of a run.
  ghost predicate IrqOkThroughout(t: Tables, d: Dbf, es: seq<Event>)
    requires Run(t, d, es)
    decreases |es|
  {
    IrqOk(d) && (es == [] || IrqOkThroughout(t, After(t, d, es[0]), es[1..]))
  }

  // init: everything is 0 but the number of slices.
  function Initial(): Dbf { Dbf(seq(SIZE, i => 0)[REG_NSLICES := 4], false, [], 0) }

  // In every state of a run the interrupt is raised exactly if an enabled status bit is set, and the
  // bit that says so is not enabled itself, if and only if no slice is cleared over the registers
  // while the interrupt is raised.
  lemma IrqAlwaysOk(t: Tables, es: seq<Event>)
    requires Run(t, Initial(), es)
    ensures IrqOkThroughout(t, Initial(), es) <==> TameRun(t, Initial(), es)
  {
    RunKeepsIrq(t, Initial(), es);
  }

  lemma {:induction false} RunKeepsIrq(t: Tables, d: Dbf, es: seq<Event>)
    requires IrqOk(d) && Run(t, d, es)
    ensures IrqOkThroughout(t, d, es) <==> TameRun(t, d, es)
    decreases |es|
  {
    hide SetData, SliceDone, TransferDone, FilterSlice, Reaches, Ready;
    if es != [] {
      StepKeepsIrq(t, d, es[0]);
      if Tame(d, es[0]) {
        RunKeepsIrq(t, After(t, d, es[0]), es[1..]);
      }
    }
  }

  lemma StepKeepsIrq(t: Tables, d: Dbf, e: Event)
    requires IrqOk(d) && Possible(d, e)
    ensures IrqOk(After(t, d, e)) <==> Tame(d, e)
  {
    hide SetData, SliceDone, TransferDone, FilterSlice, Reaches;
    match e
    case BusWrite(address, data) => SetDataKeepsIrq(d, address, data);
    case Filter(slice) => FilteringKeepsIrq(t, d, slice);
    case SliceEnds(slice) => SliceDoneKeepsIrq(d, slice);
    case TransferEnds => TransferDoneKeepsIrq(d);
  }

  // A slice of one macroblock, number 456, is cleared while the interrupt of slice 0 is raised: the
  // registers are 0 afterwards and the interrupt stays.
  lemma ClearCanBreakIrq()
    ensures var m := seq(SIZE, i => 0)[REG_SLI_OFFSET := 0xC8][REG_SLI_LGTOFF := 0x11]
                     [REG_INT_STATUS := 0x81][REG_INT_ENABLE := 1];
      var d := Dbf(m, true, [], 0);
      IrqOk(d) && IntrOf(SetData(d, REG_SLI_CLEAR, 1)) == Intr(0, 0, true)
  {
    var m: Store := seq(SIZE, i => 0)[REG_SLI_OFFSET := 0xC8][REG_SLI_LGTOFF := 0x11]
                    [REG_INT_STATUS := 0x81][REG_INT_ENABLE := 1];
    var d := Dbf(m, true, [], 0);
    assert (0x11 as byte) & 0x0F == 1 && ((0x11 as byte) & 0xF0) >> 4 == 1;
    assert Offset(m, 0) == 456 && Length(m, 0) == 1;
    ClearRegister(m, 0, 1);
    SetDataIntr(d, REG_SLI_CLEAR, 1);
  }

  // The same over a run from the start: the interrupt is enabled, slice 0, which is empty, is started,
  // filtered and raises it, and then a slice of one macroblock, number 456, is described and cleared.
  function BreakingRun(): seq<Event> {
    [BusWrite(REG_NSLICES_INTR, 5)] + ([BusWrite(REG_INT_ENABLE, 1)] + ([BusWrite(REG_SLI_FILLOW, 1)] + Ending()))
  }

  function Ending(): seq<Event> { [Filter(0)] + FromSliceEnd() }

  function FromSliceEnd(): seq<Event> {
    [SliceEnds(0)] + ([BusWrite(REG_SLI_OFFSET, 0xC8)] + ([BusWrite(REG_SLI_LGTOFF, 0x11)] + Clear()))
  }

  function Clear(): seq<Event> { [BusWrite(REG_SLI_CLEAR, 1)] + [] }

  lemma OneMoreEvent(t: Tables, d: Dbf, e: Event, es: seq<Event>)
    requires Possible(d, e) && Run(t, After(t, d, e), es)
    ensures Run(t, d, [e] + es) && (TameRun(t, d, [e] + es) ==> Tame(d, e) && TameRun(t, After(t, d, e), es))
  {
    hide Tame, Possible, After;
    assert ([e] + es)[1..] == es;
  }

  // The end of slice 0 raises an interrupt that is enabled for it.
  lemma FirstSliceRaises(d: Dbf)
    requires IntrOf(d).enable == 1
    ensures SliceDone(d, 0).irq
  {
    StoreLengthIntr(d, 0);
    hide StoreLength, Finished;
    var d1 := StoreLength(d, 0);
    FirstBitHits(IntrOf(d1).status, if Finished(d1.m, 0) + Finished(d1.m, 1) + Finished(d1.m, 2) + Finished(d1.m, 3)
                                       >= d1.m[REG_NSLICES_INTR] as int then ALLSLICES_BIT else 0);
  }

  lemma FirstBitHits(status: byte, more: byte)
    ensures Hit(Or(status, 1 | more), 1)
  {
  }

  lemma DescribedReaches(d: Dbf)
    ensures Reaches(SetData(SetData(d, REG_SLI_OFFSET, 0xC8), REG_SLI_LGTOFF, 0x11).m, 0)
  {
    var m := SetData(SetData(d, REG_SLI_OFFSET, 0xC8), REG_SLI_LGTOFF, 0x11).m;
    assert m[REG_SLI_OFFSET] == 0xC8 && m[REG_SLI_LGTOFF] == 0x11;
    hide SetData;
    assert (0x11 as byte) & 0x0F == 1 && ((0x11 as byte) & 0xF0) >> 4 == 1;
    assert Offset(m, 0) == 456 && Length(m, 0) >= 1;
  }

  lemma EmptyIsReady(m: Store)
    requires m[REG_GLO_CTRL] == 0 && m[REG_SLI_OFFSET] == 0 && m[REG_SLI_LGTOFF] == 0 && m[REG_SLI_LGTOFF + 1] == 0
    ensures Ready(m, 0)
  {
    assert (0 as byte) & 0x30 >> 4 == 0 && (0 as byte) & 0x0F == 0 && ((0 as byte) & 0xF0) >> 4 == 0;
    assert Format(m) == 0 && Offset(m, 0) == 0 && Length(m, 0) == 0;
  }

  lemma StartedIs(d1: Dbf, d2: Dbf, d3: Dbf)
    requires d1 == SetData(Initial(), REG_NSLICES_INTR, 5) && d2 == SetData(d1, REG_INT_ENABLE, 1)
    requires d3 == SetData(d2, REG_SLI_FILLOW, 1)
    ensures IntrOf(d3).enable == 1 && Ready(d3.m, 0)
  {
    EmptyIsReady(d3.m);
    SetDataIntr(d1, REG_INT_ENABLE, 1);
    PlainWrite(d2, REG_SLI_FILLOW, 1);
  }

  lemma ClearIsNotTame(d: Dbf)
    requires IntrOf(d).enable == 1
    ensures var described := SetData(SetData(SliceDone(d, 0), REG_SLI_OFFSET, 0xC8), REG_SLI_LGTOFF, 0x11);
      !Tame(described, BusWrite(REG_SLI_CLEAR, 1))
  {
    var d1 := SliceDone(d, 0);
    FirstSliceRaises(d);
    PlainWrite(d1, REG_SLI_OFFSET, 0xC8);
    PlainWrite(SetData(d1, REG_SLI_OFFSET, 0xC8), REG_SLI_LGTOFF, 0x11);
    DescribedReaches(d1);
    hide SetData, SliceDone, Reaches;
  }

  lemma FilteringKeepsIntr(t: Tables, d: Dbf)
    requires Ready(d.m, 0)
    ensures IntrOf(d.(m := FilterSlice(t, d.m, 0))) == IntrOf(d)
  {
    hide FilterSlice, Ready;
    SliceKeepsRegisters(t, d.m, 0);
  }

  lemma ClearRun(t: Tables, d: Dbf)
    requires !Tame(d, BusWrite(REG_SLI_CLEAR, 1))
    ensures Run(t, d, Clear()) && !TameRun(t, d, Clear())
  {
    hide SetData, Tame, Reaches;
    OneMoreEvent(t, d, BusWrite(REG_SLI_CLEAR, 1), []);
  }

  // The last four events, from a store with the interrupt enabled for slice 0,
  lemma SliceEndsAndClear(t: Tables, d: Dbf)
    requires IntrOf(d).enable == 1
    ensures Run(t, d, FromSliceEnd()) && !TameRun(t, d, FromSliceEnd())
  {
    hide SetData, SliceDone, Reaches, Tame, IntrOf, Clear, Run, TameRun;
    var d2 := SliceDone(d, 0);
    var d3 := SetData(d2, REG_SLI_OFFSET, 0xC8);
    var d4 := SetData(d3, REG_SLI_LGTOFF, 0x11);
    ClearIsNotTame(d);
    ClearRun(t, d4);
    var es2 := [BusWrite(REG_SLI_LGTOFF, 0x11)] + Clear();
    OneMoreEvent(t, d3, BusWrite(REG_SLI_LGTOFF, 0x11), Clear());
    OneMoreEvent(t, d2, BusWrite(REG_SLI_OFFSET, 0xC8), es2);
    OneMoreEvent(t, d, SliceEnds(0), [BusWrite(REG_SLI_OFFSET, 0xC8)] + es2);
  }

  // and the last five, if that slice is empty.
  lemma EndingIsNotTame(t: Tables, d: Dbf)
    requires IntrOf(d).enable == 1 && Ready(d.m, 0)
    ensures Run(t, d, Ending()) && !TameRun(t, d, Ending())
  {
    FilteringKeepsIntr(t, d);
    hide FilterSlice, Ready, IntrOf, FromSliceEnd, Run, TameRun, Tame;
    SliceEndsAndClear(t, d.(m := FilterSlice(t, d.m, 0)));
    OneMoreEvent(t, d, Filter(0), FromSliceEnd());
  }

  lemma RunCanBreakIrq(t: Tables)
    ensures Run(t, Initial(), BreakingRun()) && !IrqOkThroughout(t, Initial(), BreakingRun())
  {
    var d := Initial();
    var d1 := SetData(d, REG_NSLICES_INTR, 5);
    var d2 := SetData(d1, REG_INT_ENABLE, 1);
    var d3 := SetData(d2, REG_SLI_FILLOW, 1);
    StartedIs(d1, d2, d3);
    hide SetData, Ready, Tame, Initial, IntrOf, Ending, Run, TameRun, IrqOkThroughout;
    EndingIsNotTame(t, d3);
    var es2 := [BusWrite(REG_SLI_FILLOW, 1)] + Ending();
    OneMoreEvent(t, d2, BusWrite(REG_SLI_FILLOW, 1), Ending());
    var es1 := [BusWrite(REG_INT_ENABLE, 1)] + es2;
    OneMoreEvent(t, d1, BusWrite(REG_INT_ENABLE, 1), es2);
    OneMoreEvent(t, d, BusWrite(REG_NSLICES_INTR, 5), es1);
    IrqAlwaysOk(t, BreakingRun());
  }

  // ---------- clearing beside filtering ----------

  lemma ReadyIsSmall(m: Store, slice: nat)
    requires Ready(m, slice)
    ensures End(m, slice) * BLOCK <= REGISTERS
  {
    var f := Format(m);
    assert f == 0 || f == 1 || f == 2;
  }

  lemma ClearKeepsRegisters(m: Store, slice: nat)
    requires slice < N_SLICE_THREADS && End(m, slice) * BLOCK <= REGISTERS
    ensures SameRegisters(m, ClearSlice(m, slice))
  {
  }

  // Clearing a slice and filtering a disjoint one commute.
  lemma ClearCommutes(t: Tables, m: Store, s: nat, u: nat)
    requires Ready(m, s) && Ready(m, u) && Disjoint(m, s, u)
    ensures Ready(ClearSlice(m, u), s)
    ensures ClearSlice(FilterSlice(t, m, s), u) == FilterSlice(t, ClearSlice(m, u), s)
  {
    ReadyIsSmall(m, u);
    ClearKeepsRegisters(m, u);
    SameSlices(m, ClearSlice(m, u), s);
    var fc, cf := ClearSlice(FilterSlice(t, m, s), u), FilterSlice(t, ClearSlice(m, u), s);
    forall a | 0 <= a < SIZE
      ensures fc[a] == cf[a]
    {
      ClearCommutesAt(t, m, s, u, a);
    }
  }

  lemma ClearCommutesAt(t: Tables, m: Store, s: nat, u: nat, a: nat)
    requires Ready(m, s) && Ready(m, u) && Disjoint(m, s, u) && a < SIZE
    requires SameRegisters(m, ClearSlice(m, u)) && Ready(ClearSlice(m, u), s)
    ensures ClearSlice(FilterSlice(t, m, s), u)[a] == FilterSlice(t, ClearSlice(m, u), s)[a]
  {
    hide FilterSlice;
    var f, c := FilterSlice(t, m, s), ClearSlice(m, u);
    SliceKeepsRegisters(t, m, s);
    SameSlices(m, f, u);
    SameSlices(m, c, s);
    if Own(a, Offset(m, s), End(m, s)) {
      ClearCommutesInside(t, m, c, s, u, a);
    } else {
      ClearCommutesOutside(t, m, c, s, u, a);
    }
  }

  lemma ClearCommutesInside(t: Tables, m: Store, c: Store, s: nat, u: nat, a: nat)
    requires Ready(m, s) && Ready(c, s) && SameRegisters(m, c) && u < N_SLICE_THREADS && Disjoint(m, s, u)
    requires c == ClearBlocks(m, Offset(m, u), End(m, u)) && a < SIZE && Own(a, Offset(m, s), End(m, s))
    ensures ClearBlocks(FilterSlice(t, m, s), Offset(m, u), End(m, u))[a] == FilterSlice(t, c, s)[a]
  {
    hide FilterSlice;
    SliceDepends(t, m, c, s, a);
  }

  lemma ClearCommutesOutside(t: Tables, m: Store, c: Store, s: nat, u: nat, a: nat)
    requires Ready(m, s) && Ready(c, s) && SameRegisters(m, c) && u < N_SLICE_THREADS
    requires c == ClearBlocks(m, Offset(m, u), End(m, u)) && a < SIZE && !Own(a, Offset(m, s), End(m, s))
    ensures ClearBlocks(FilterSlice(t, m, s), Offset(m, u), End(m, u))[a] == FilterSlice(t, c, s)[a]
  {
    hide FilterSlice;
    SameSlices(m, c, s);
    OwnByBlock(a, Offset(m, s), End(m, s));
    SliceFrame(t, m, s, a);
    SliceFrame(t, c, s, a);
  }
}

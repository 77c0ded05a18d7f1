/**
 The deblocking accelerator at work: the loops of its threads on the store, in place.
 */
module DbfDevice {
  import opened Bytes
  import opened DbfFilter
  import opened DbfStore
  import opened DbfSlices
  import opened DbfRegisters

  class Device {
    const data: array<byte>
    var irqStat: bool
    var started: seq<nat>
    var transfers: nat

    predicate Valid()
      reads this
    {
      data.Length == SIZE
    }

    function State(): Dbf
      requires Valid()
      reads this, data
    {
      Dbf(data[..], irqStat, started, transfers)
    }

    // init
    constructor ()
      ensures Valid() && fresh(data) && State() == Initial()
    {
      data := new byte[SIZE](i => if i == REG_NSLICES then 4 else 0);
      irqStat := false;
      started := [];
      transfers := 0;
      new;
      assert data[..] == Initial().m;
    }

    // ---------- registers ----------

    method ClearSlice(slice: nat)
      requires Valid() && slice < N_SLICE_THREADS && ClearFits(data[..], slice)
      modifies data
      ensures data[..] == DbfRegisters.ClearSlice(old(data[..]), slice)
    {
      ghost var m: Store := data[..];
      var offset, length := Offset(data[..], slice), Length(data[..], slice);
      var a := offset * BLOCK;
      while a < (offset + length) * BLOCK
        invariant offset * BLOCK <= a <= (offset + length) * BLOCK
        invariant a < (offset + length) * BLOCK ==> (offset + length) * BLOCK <= SIZE
        invariant forall b | 0 <= b < SIZE :: data[b] == if offset * BLOCK <= b < a then Cleared(b) else m[b]
      {
        if a % BLOCK == QUANT || a % BLOCK == QUANT + 1 {
          data[a] := 0xFF;
        } else {
          data[a] := 0;
        }
        a := a + 1;
      }
      assert data[..] == DbfRegisters.ClearSlice(m, slice);
    }

    // set_data
    method SetData(address: nat, value: byte)
      requires Valid() && address < SIZE
      requires var slice := SliceOf(REG_SLI_CLEAR, address);
        slice < N_SLICE_THREADS ==> ClearFits(data[..], slice)
      modifies this, data
      ensures Valid() && State() == DbfRegisters.SetData(old(State()), address, value)
    {
      if address == REG_INT_STATUS || address == REG_NSLICES {
        return;
      }
      if address == REG_INT_ENABLE {
        SetEnable(value);
        return;
      }
      Poke(address, value);
      if address == REG_INT_ACK {
        SetAck(value);
        return;
      }
      SetSlices(address);
      if address == REG_FRA_SRAM && value == 1 {
        transfers := transfers + 1;
      }
    }

    // A store without side effects.
    method Poke(address: nat, value: byte)
      requires Valid() && address < SIZE
      modifies data
      ensures data[..] == old(data[..])[address := value]
    {
      data[address] := value;
    }

    method SetEnable(value: byte)
      requires Valid()
      modifies this`irqStat, data
      ensures State() == WithIntr(old(State()), EnableIntr(IntrOf(old(State())), value))
    {
      var status, enable := data[REG_INT_STATUS], data[REG_INT_ENABLE];
      var v := value & 0x7F;
      if !Hit(status, enable) && Hit(status, v) {
        irqStat := true;
      } else if Hit(status, enable) && !Hit(status, v) {
        irqStat := false;
      }
      Poke(REG_INT_ENABLE, v);
    }

    method SetAck(value: byte)
      requires Valid()
      modifies this`irqStat, data
      ensures State() == WithIntr(old(State()), AckIntr(IntrOf(old(State())), value))
    {
      var status, enable := data[REG_INT_STATUS], data[REG_INT_ENABLE];
      if Hit(And(value, status), enable) {
        status := Left(status, value);
        Poke(REG_INT_STATUS, status);
        if !Hit(status, enable) {
          irqStat := false;
        }
      }
    }

    // The loops of set_data over the registers of the slices.
    method SetSlices(address: nat)
      requires Valid() && address < SIZE
      requires var slice := SliceOf(REG_SLI_CLEAR, address);
        slice < N_SLICE_THREADS ==> ClearFits(data[..], slice)
      modifies this`started, data
      ensures var fill, clear := SliceOf(REG_SLI_FILLOW, address), SliceOf(REG_SLI_CLEAR, address);
        && started == (if fill < N_SLICE_THREADS then old(started) + [fill] else old(started))
        && data[..] == if fill == N_SLICE_THREADS && clear < N_SLICE_THREADS
                       then DbfRegisters.ClearSlice(old(data[..]), clear)[address := 0] else old(data[..])
    {
      for i := 0 to N_SLICE_THREADS
        invariant data[..] == old(data[..]) && started == old(started)
        invariant forall k | 0 <= k < i :: address != REG_SLI_FILLOW + SLICE_OFFSET * k
      {
        if address == REG_SLI_FILLOW + SLICE_OFFSET * i {
          started := started + [i];
          return;
        }
      }
      assert SliceOf(REG_SLI_FILLOW, address) == N_SLICE_THREADS;
      for i := 0 to N_SLICE_THREADS
        invariant data[..] == old(data[..]) && started == old(started)
        invariant forall k | 0 <= k < i :: address != REG_SLI_CLEAR + SLICE_OFFSET * k
      {
        if address == REG_SLI_CLEAR + SLICE_OFFSET * i {
          assert SliceOf(REG_SLI_CLEAR, address) == i;
          ClearSlice(i);
          ghost var m: Store := data[..];
          data[address] := 0;
          assert data[..] == m[address := 0];
          return;
        }
      }
    }

    // ---------- filtering ----------

    // set_L_pixel and set_C_pixel: samples are in front of all registers.
    method SetSample(address: nat, value: byte)
      requires Valid() && address < REGISTERS
      modifies this, data
      ensures Valid() && State() == old(State()).(m := old(data[..])[address := value])
    {
      SetData(address, value);
    }

    // The loops that read and write back the samples of a line.
    method GetSamples(addrs: seq<nat>) returns (s: Samples)
      requires Valid() && |addrs| == 8 && forall j | 0 <= j < 8 :: addrs[j] < REGISTERS
      ensures s == Gather(data[..], addrs)
    {
      var q, p := new u8[4](_ => 0), new u8[4](_ => 0);
      for i := 0 to 4
        invariant forall k | 0 <= k < i :: q[k] == data[addrs[2 * k]] as int
        invariant forall k | 0 <= k < i :: p[k] == data[addrs[2 * k + 1]] as int
      {
        q[i] := data[addrs[2 * i]] as int;
        p[i] := data[addrs[2 * i + 1]] as int;
      }
      s := Samples(p[0], p[1], p[2], p[3], q[0], q[1], q[2], q[3]);
    }

    method PutSamples(addrs: seq<nat>, vals: seq<byte>)
      requires Valid() && |addrs| == |vals| == 8 && forall j | 0 <= j < 8 :: addrs[j] < REGISTERS
      modifies this, data
      ensures Valid() && State() == old(State()).(m := Put(old(data[..]), addrs, vals, 8))
    {
      ghost var d := State();
      for i := 0 to 4
        invariant Valid() && State() == d.(m := Put(d.m, addrs, vals, 2 * i))
      {
        SetSample(addrs[2 * i], vals[2 * i]);
        SetSample(addrs[2 * i + 1], vals[2 * i + 1]);
      }
    }

    // filter_vertical_L, filter_horizontal_L, filter_vertical_C and filter_horizontal_C
    method FilterLine(t: Tables, w: nat, h: nat, slice: nat, l: Line)
      requires Valid() && Picture(w, h) && Fits(w, h, l) && slice < N_SLICE_THREADS
      modifies this, data
      ensures Valid() && State() == old(State()).(m := DbfSlices.FilterLine(t, old(data[..]), w, h, slice, l))
    {
      hide FilterBlock, LineStrength, LineThresholds, Addresses, Gather, Values, Put;
      var addrs := Addresses(w, h, l);
      var s := GetSamples(addrs);
      var bS := LineStrength(data[..], w, h, l);
      var r := FilterBlock(s, l.chroma, bS, LineThresholds(t, data[..], w, h, slice, l));
      PutSamples(addrs, Values(r));
    }

    // The first n lines of ls are filtered, since state d.
    ghost predicate Done(t: Tables, w: nat, h: nat, slice: nat, d: Dbf, ls: seq<Line>, n: nat)
      requires Valid()
      reads this, data
    {
      && Picture(w, h) && slice < N_SLICE_THREADS && n <= |ls| && AllFit(w, h, ls) && AllFit(w, h, ls[..n])
      && State() == d.(m := FilterAll(t, d.m, w, h, slice, ls[..n]))
    }

    lemma NothingDone(t: Tables, w: nat, h: nat, slice: nat, ls: seq<Line>)
      requires Valid() && Picture(w, h) && slice < N_SLICE_THREADS && AllFit(w, h, ls)
      ensures Done(t, w, h, slice, State(), ls, 0)
    {
      assert ls[..0] == [];
    }

    lemma AllDone(t: Tables, w: nat, h: nat, slice: nat, d: Dbf, ls: seq<Line>, n: nat)
      requires Valid() && Done(t, w, h, slice, d, ls, n) && n == |ls|
      requires Picture(w, h) && slice < N_SLICE_THREADS && AllFit(w, h, ls)
      ensures State() == d.(m := FilterAll(t, d.m, w, h, slice, ls))
    {
      assert ls[..n] == ls;
    }

    method FilterNext(t: Tables, w: nat, h: nat, slice: nat, l: Line, ghost d: Dbf, ghost ls: seq<Line>, ghost n: nat)
      requires Valid() && Done(t, w, h, slice, d, ls, n) && n < |ls| && ls[n] == l
      modifies this, data
      ensures Valid() && Done(t, w, h, slice, d, ls, n + 1)
    {
      FitsPrefix(w, h, ls, n + 1);
      assert ls[..n + 1][..n] == ls[..n];
      FilterLine(t, w, h, slice, l);
    }

    // The loop over the lines of one edge.
    method FilterEdge(t: Tables, w: nat, h: nat, slice: nat, vertical: bool, chroma: bool, plane: nat,
                      x: nat, y: nat, lines: nat, ghost d: Dbf, ghost ls: seq<Line>, ghost n: nat)
      requires Valid() && Done(t, w, h, slice, d, ls, n) && n + lines <= |ls|
      requires ls[n..n + lines] == EdgeOf(vertical, chroma, plane, x, y, lines)
      modifies this, data
      ensures Valid() && Done(t, w, h, slice, d, ls, n + lines)
    {
      hide Done, EdgeOf;
      ghost var i := n;
      for k := 0 to lines
        invariant Valid() && i == n + k && Done(t, w, h, slice, d, ls, i)
      {
        var l := LineOf(vertical, chroma, plane, x, y, k);
        assert ls[n..n + lines][k] == l;
        assert ls[i] == ls[n..n + lines][k];
        FilterNext(t, w, h, slice, l, d, ls, i);
        i := i + 1;
      }
    }

    // The loop over the edges of one direction: luma has four edges of sixteen lines, chroma two of
    // eight.
    method FilterEdges(t: Tables, w: nat, h: nat, slice: nat, vertical: bool, chroma: bool, plane: nat, mb: nat)
      requires Valid() && Picture(w, h) && slice < N_SLICE_THREADS && (!chroma ==> plane == 0)
      requires AllFit(w, h, Edges(w, vertical, chroma, plane, mb))
      modifies this, data
      ensures Valid()
      ensures State()
              == old(State()).(m := FilterAll(t, old(data[..]), w, h, slice, Edges(w, vertical, chroma, plane, mb)))
    {
      ghost var d, ls := State(), Edges(w, vertical, chroma, plane, mb);
      var edges, lines := if chroma then 2 else 4, if chroma then 8 else 16;
      ghost var i := 0;
      assert |ls| == edges * lines;
      NothingDone(t, w, h, slice, ls);
      hide Done, Edges, FilterAll, EdgeOf, AllFit;
      for edge := 0 to edges
        invariant Valid() && i == edge * lines && Done(t, w, h, slice, d, ls, i)
      {
        var x := Column(w, mb) + if vertical then edge * 4 else 0;
        var y := Row(w, mb) + if vertical then 0 else edge * 4;
        EdgeLines(w, vertical, chroma, plane, mb, edge, x, y, lines, i);
        FilterEdge(t, w, h, slice, vertical, chroma, plane, x, y, lines, d, ls, i);
        i := i + lines;
      }
      AllDone(t, w, h, slice, d, ls, i);
    }

    // One plane of a macroblock: the vertical edges and then the horizontal ones, unless skipped.
    method FilterPlane(t: Tables, w: nat, h: nat, slice: nat, offset: nat, mb: nat, chroma: bool, plane: nat)
      requires Valid() && Picture(w, h) && slice < N_SLICE_THREADS && (!chroma ==> plane == 0)
      requires AllFit(w, h, PlaneLines(w, offset, mb, chroma, plane))
      modifies this, data
      ensures Valid()
      ensures State()
              == old(State()).(m := FilterAll(t, old(data[..]), w, h, slice, PlaneLines(w, offset, mb, chroma, plane)))
    {
      hide Edges, FilterAll, AllFit, Unless, SkipLeft, SkipTop, PlaneLines;
      ghost var m := State().m;
      BothDirections(t, m, w, h, slice, offset, mb, chroma, plane);
      FilterUnless(SkipLeft(w, offset, mb), t, w, h, slice, true, chroma, plane, mb);
      FilterUnless(SkipTop(w, offset, mb), t, w, h, slice, false, chroma, plane, mb);
    }

    // The edges of one direction, unless they are skipped.
    method FilterUnless(skip: bool, t: Tables, w: nat, h: nat, slice: nat, vertical: bool, chroma: bool, plane: nat,
                        mb: nat)
      requires Valid() && Picture(w, h) && slice < N_SLICE_THREADS && (!chroma ==> plane == 0)
      requires AllFit(w, h, Unless(skip, Edges(w, vertical, chroma, plane, mb)))
      modifies this, data
      ensures Valid()
      ensures var ls := Unless(skip, Edges(w, vertical, chroma, plane, mb));
        State() == old(State()).(m := FilterAll(t, old(data[..]), w, h, slice, ls))
    {
      if skip {
        FilterNone(t, data[..], w, h, slice);
      } else {
        hide Edges, FilterAll, AllFit;
        FilterEdges(t, w, h, slice, vertical, chroma, plane, mb);
      }
    }

    method FilterMb(t: Tables, w: nat, h: nat, slice: nat, offset: nat, mb: nat)
      requires Valid() && Picture(w, h) && slice < N_SLICE_THREADS && AllFit(w, h, MbLines(w, offset, mb))
      modifies this, data
      ensures Valid()
      ensures State() == old(State()).(m := FilterAll(t, old(data[..]), w, h, slice, MbLines(w, offset, mb)))
    {
      ghost var m := data[..];
      ghost var luma, cb, cr := PlaneLines(w, offset, mb, false, 0), PlaneLines(w, offset, mb, true, 0),
          PlaneLines(w, offset, mb, true, 1);
      FilterBoth(t, m, w, h, slice, luma + cb, cr);
      FilterBoth(t, m, w, h, slice, luma, cb);
      hide PlaneLines, FilterAll, AllFit;
      FilterPlane(t, w, h, slice, offset, mb, false, 0);
      for iCbCr := 0 to 2
        invariant Valid()
        invariant State() == old(State()).(m := FilterAll(t, m, w, h, slice,
          if iCbCr == 0 then luma else if iCbCr == 1 then luma + cb else luma + cb + cr))
      {
        FilterPlane(t, w, h, slice, offset, mb, true, iCbCr);
      }
    }

    // filter_slice
    method FilterSlice(t: Tables, slice: nat)
      requires Valid() && Ready(data[..], slice)
      modifies this, data
      ensures Valid() && State() == old(State()).(m := DbfSlices.FilterSlice(t, old(data[..]), slice))
    {
      var w, h := WidthInMbs(Format(data[..])), HeightInMbs(Format(data[..]));
      var count, offset := Length(data[..], slice), Offset(data[..], slice);
      hide Length, Offset, Format, SliceLines, FilterAll;
      FilterMbs(t, w, h, slice, offset, count);
    }

    // The first k macroblocks of a slice are filtered, since state d.
    ghost predicate MbsDone(t: Tables, w: nat, h: nat, slice: nat, offset: nat, d: Dbf, k: nat)
      requires Valid()
      reads this, data
    {
      && Picture(w, h) && slice < N_SLICE_THREADS && AllFit(w, h, SliceLines(w, offset, k))
      && State() == d.(m := FilterAll(t, d.m, w, h, slice, SliceLines(w, offset, k)))
    }

    lemma NoMbDone(t: Tables, w: nat, h: nat, slice: nat, offset: nat)
      requires Valid() && Picture(w, h) && slice < N_SLICE_THREADS
      ensures MbsDone(t, w, h, slice, offset, State(), 0)
    {
      hide DbfSlices.FilterLine, MbLines;
      FilterNone(t, data[..], w, h, slice);
      assert SliceLines(w, offset, 0) == [];
    }

    method FilterNextMb(t: Tables, w: nat, h: nat, slice: nat, offset: nat, k: nat, ghost count: nat, ghost d: Dbf)
      requires Valid() && Picture(w, h) && slice < N_SLICE_THREADS && k < count && offset + count <= w * h
      requires MbsDone(t, w, h, slice, offset, d, k)
      modifies this, data
      ensures Valid() && MbsDone(t, w, h, slice, offset, d, k + 1)
    {
      hide FilterAll, MbLines, AllFit, SliceLines;
      OneMbMore(t, d.m, w, h, slice, offset, k, count);
      FilterMb(t, w, h, slice, offset, offset + k);
    }

    // The loop over the macroblocks of a slice.
    method FilterMbs(t: Tables, w: nat, h: nat, slice: nat, offset: nat, count: nat)
      requires Valid() && Picture(w, h) && slice < N_SLICE_THREADS && offset + count <= w * h
      modifies this, data
      ensures Valid() && MbsDone(t, w, h, slice, offset, old(State()), count)
    {
      ghost var d := State();
      NoMbDone(t, w, h, slice, offset);
      hide MbsDone;
      for k := 0 to count
        invariant Valid() && MbsDone(t, w, h, slice, offset, d, k)
      {
        FilterNextMb(t, w, h, slice, offset, k, count, d);
      }
    }

    // ---------- completions ----------

    // process_slice, after filter_slice
    method FinishSlice(slice: nat)
      requires Valid() && slice < N_SLICE_THREADS
      modifies this, data
      ensures Valid() && State() == SliceDone(old(State()), slice)
    {
      hide DoneBits, DbfRegisters.StoreLength, RaiseIntr;
      StoreLength(slice);
      RaiseBits(DoneBits(data[..], slice));
    }

    method StoreLength(slice: nat)
      requires Valid() && slice < N_SLICE_THREADS
      modifies this, data
      ensures Valid() && State() == DbfRegisters.StoreLength(old(State()), slice)
    {
      LengthIsShort(data[..], slice);
      var length := Length(data[..], slice);
      var high, low := REG_SLI_EMPHI + SLICE_OFFSET * slice, REG_SLI_EMPLOW + SLICE_OFFSET * slice;
      assert SliceOf(REG_SLI_CLEAR, high) == N_SLICE_THREADS && SliceOf(REG_SLI_CLEAR, low) == N_SLICE_THREADS;
      hide DbfRegisters.SetData, Length, Offset, SliceOf;
      SetData(high, (length / 256) as byte);
      SetData(low, (length % 256) as byte);
    }

    // master_request, after the last packet
    method FinishTransfer()
      requires Valid()
      modifies this, data
      ensures Valid() && State() == TransferDone(old(State()))
    {
      SetData(REG_FRA_SRAM, 0);
      RaiseBits(SRAM_BIT);
    }

    method RaiseBits(bits: byte)
      requires Valid()
      modifies this`irqStat, data
      ensures State() == WithIntr(old(State()), RaiseIntr(IntrOf(old(State())), bits))
    {
      var status, enable := Or(data[REG_INT_STATUS], bits), data[REG_INT_ENABLE];
      Poke(REG_INT_STATUS, status);
      if Hit(status, enable) {
        Poke(REG_INT_STATUS, Or(status, GENERATED_BIT));
        irqStat := true;
      }
    }
  }

  lemma FilterNone(t: Tables, m: Store, w: nat, h: nat, slice: nat)
    requires slice < N_SLICE_THREADS && Picture(w, h)
    ensures AllFit(w, h, []) && FilterAll(t, m, w, h, slice, []) == m
  {
  }

  // Two lists of lines, one after the other.
  lemma BothDirections(t: Tables, m: Store, w: nat, h: nat, slice: nat, offset: nat, mb: nat, chroma: bool, plane: nat)
    requires slice < N_SLICE_THREADS && Picture(w, h) && AllFit(w, h, PlaneLines(w, offset, mb, chroma, plane))
    ensures var left := Unless(SkipLeft(w, offset, mb), Edges(w, true, chroma, plane, mb));
      var top := Unless(SkipTop(w, offset, mb), Edges(w, false, chroma, plane, mb));
      && AllFit(w, h, left) && AllFit(w, h, top)
      && FilterAll(t, FilterAll(t, m, w, h, slice, left), w, h, slice, top)
         == FilterAll(t, m, w, h, slice, PlaneLines(w, offset, mb, chroma, plane))
  {
    hide Edges, FilterAll, AllFit, Unless, SkipLeft, SkipTop;
    FilterBoth(t, m, w, h, slice, Unless(SkipLeft(w, offset, mb), Edges(w, true, chroma, plane, mb)),
               Unless(SkipTop(w, offset, mb), Edges(w, false, chroma, plane, mb)));
  }

  lemma {:induction false} FilterBoth(t: Tables, m: Store, w: nat, h: nat, slice: nat, p: seq<Line>, q: seq<Line>)
    requires slice < N_SLICE_THREADS && Picture(w, h) && AllFit(w, h, p + q)
    ensures AllFit(w, h, p) && AllFit(w, h, q)
    ensures FilterAll(t, m, w, h, slice, p + q) == FilterAll(t, FilterAll(t, m, w, h, slice, p), w, h, slice, q)
    decreases |q|
  {
    hide DbfSlices.FilterLine, Fits;
    if q == [] {
      assert p + q == p;
    } else {
      assert (p + q)[..|p + q| - 1] == p + q[..|q| - 1];
      FilterBoth(t, m, w, h, slice, p, q[..|q| - 1]);
    }
  }

  lemma OneMbMore(t: Tables, m: Store, w: nat, h: nat, slice: nat, offset: nat, k: nat, count: nat)
    requires slice < N_SLICE_THREADS && Picture(w, h) && k < count && offset + count <= w * h
    ensures AllFit(w, h, SliceLines(w, offset, k)) && AllFit(w, h, MbLines(w, offset, offset + k))
    ensures AllFit(w, h, SliceLines(w, offset, k + 1))
    ensures FilterAll(t, m, w, h, slice, SliceLines(w, offset, k + 1))
            == FilterAll(t, FilterAll(t, m, w, h, slice, SliceLines(w, offset, k)), w, h, slice,
                         MbLines(w, offset, offset + k))
  {
    hide FilterAll, MbLines, AllFit, AllWithin;
    SliceLinesAreWithin(w, h, offset, k + 1, offset + count);
    assert SliceLines(w, offset, k + 1) == SliceLines(w, offset, k) + MbLines(w, offset, offset + k);
    FilterBoth(t, m, w, h, slice, SliceLines(w, offset, k), MbLines(w, offset, offset + k));
  }

  lemma {:induction false} FitsPrefix(w: nat, h: nat, ls: seq<Line>, n: nat)
    requires AllFit(w, h, ls) && n <= |ls|
    ensures AllFit(w, h, ls[..n]) && (n > 0 ==> Fits(w, h, ls[n - 1]))
    decreases |ls|
  {
    if n == |ls| {
      assert ls[..n] == ls;
    } else {
      FitsPrefix(w, h, ls[..|ls| - 1], n);
      assert ls[..|ls| - 1][..n] == ls[..n];
    }
  }

  function LineOf(vertical: bool, chroma: bool, plane: nat, x: nat, y: nat, k: nat): Line {
    if vertical then Line(true, chroma, plane, x, y + k) else Line(false, chroma, plane, x + k, y)
  }

  function EdgeOf(vertical: bool, chroma: bool, plane: nat, x: nat, y: nat, lines: nat): (r: seq<Line>)
    ensures |r| == lines && forall k | 0 <= k < lines :: r[k] == LineOf(vertical, chroma, plane, x, y, k)
  {
    seq(lines, k requires 0 <= k => LineOf(vertical, chroma, plane, x, y, k))
  }

  // The lines of one edge are consecutive.
  lemma EdgeLines(w: nat, vertical: bool, chroma: bool, plane: nat, mb: nat, edge: nat,
                  x: nat, y: nat, lines: nat, n: nat)
    requires w > 0 && edge < (if chroma then 2 else 4) && (!chroma ==> plane == 0)
    requires x == Column(w, mb) + (if vertical then edge * 4 else 0)
    requires y == Row(w, mb) + (if vertical then 0 else edge * 4)
    requires lines == (if chroma then 8 else 16) && n == edge * lines
    ensures n + lines <= |Edges(w, vertical, chroma, plane, mb)|
    ensures Edges(w, vertical, chroma, plane, mb)[n..n + lines] == EdgeOf(vertical, chroma, plane, x, y, lines)
  {
    var ls, es := Edges(w, vertical, chroma, plane, mb), EdgeOf(vertical, chroma, plane, x, y, lines);
    forall k | 0 <= k < lines
      ensures ls[n + k] == es[k]
    {
      if chroma {
        ChromaEdgeLine(w, vertical, plane, mb, edge, k);
      } else {
        LumaEdgeLine(w, vertical, mb, edge, k);
      }
    }
    assert ls[n..n + lines] == es;
  }

  lemma ChromaEdgeLine(w: nat, vertical: bool, plane: nat, mb: nat, edge: nat, k: nat)
    requires w > 0 && edge < 2 && k < 8
    ensures ChromaLines(w, vertical, plane, mb)[edge * 8 + k]
            == if vertical then Line(true, true, plane, Column(w, mb) + edge * 4, Row(w, mb) + k)
               else Line(false, true, plane, Column(w, mb) + k, Row(w, mb) + edge * 4)
  {
    assert (edge * 8 + k) / 8 == edge && (edge * 8 + k) % 8 == k;
  }

  lemma LumaEdgeLine(w: nat, vertical: bool, mb: nat, edge: nat, k: nat)
    requires w > 0 && edge < 4 && k < 16
    ensures LumaLines(w, vertical, mb)[edge * 16 + k]
            == if vertical then Line(true, false, 0, Column(w, mb) + edge * 4, Row(w, mb) + k)
               else Line(false, false, 0, Column(w, mb) + k, Row(w, mb) + edge * 4)
  {
    assert (edge * 16 + k) / 16 == edge && (edge * 16 + k) % 16 == k;
  }
}

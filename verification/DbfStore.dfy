/**
 The frame store of the deblocking accelerator: macroblocks of 512 bytes in raster order, samples
 first and then what the filter needs to know, and the registers of the slices behind them.  A
 slice is filtered as a list of lines, each across one edge.
 */
module DbfStore {
  import opened Bytes
  import opened DbfFilter

  const SIZE: nat := 0x40000
  const BLOCK: nat := 0x200

  const LUMA: nat := 0x0
  const CHROMA: nat := 0x100
  const MVX: nat := 0x180
  const MVY: nat := 0x1A0
  const COEFF: nat := 0x1C0
  const QUANT: nat := 0x1D0
  const MODE: nat := 0x1D2

  // Bytes of samples in a macroblock, and the first register.
  const SAMPLES: nat := 0x180
  const REGISTERS: nat := 0x34000

  const REG_GLO_CTRL: nat := 0x34004
  const SLICE_OFFSET: nat := 0x10
  const REG_SLI_OFFSET: nat := 0x38010
  const REG_SLI_LGTOFF: nat := 0x38011
  const REG_SLI_BETA: nat := 0x38016
  const REG_SLI_ALPHA: nat := 0x38017

  const N_SLICE_THREADS: nat := 4

  type Store = m: seq<byte> | |m| == SIZE witness seq(SIZE, i => 0)

  // What the tables say for the two indices and a boundary strength.
  type Tables = (int, int, nat) -> Thresholds

  // ---------- registers ----------

  function Format(m: Store): nat { ((m[REG_GLO_CTRL] & 0x30) >> 4) as int }

  function WidthInMbs(format: nat): nat {
    match format
    case 0 => 8
    case 1 => 11
    case 2 => 22
    case 3 => 44
    case _ => 0
  }

  function HeightInMbs(format: nat): nat {
    match format
    case 0 => 6
    case 1 => 9
    case 2 => 18
    case 3 => 36
    case _ => 0
  }

  function Offset(m: Store, slice: nat): nat
    requires slice < N_SLICE_THREADS
  {
    (m[SLICE_OFFSET * slice + REG_SLI_LGTOFF] & 0x0F) as int * 256 + m[SLICE_OFFSET * slice + REG_SLI_OFFSET] as int
  }

  function Length(m: Store, slice: nat): nat
    requires slice < N_SLICE_THREADS
  {
    m[SLICE_OFFSET * slice + REG_SLI_LGTOFF + 1] as int * 16
    + ((m[SLICE_OFFSET * slice + REG_SLI_LGTOFF] & 0xF0) >> 4) as int
  }

  // ---------- addresses, by macroblock and place inside ----------

  function Mb(w: nat, x: nat, y: nat): nat { y / 16 * w + x / 16 }

  function LumaPlace(x: nat, y: nat): nat { LUMA + y % 16 * 16 + x % 16 }

  // Chroma samples have half the coordinates.
  function ChromaMb(w: nat, x: nat, y: nat): nat { y / 8 * w + x / 8 }

  function ChromaPlace(plane: nat, x: nat, y: nat): nat { CHROMA + 64 * plane + y % 8 * 8 + x % 8 }

  // The 4x4 block of a sample inside its macroblock.
  function Sub(x: nat, y: nat): nat { y % 16 / 4 * 4 + x % 16 / 4 }

  // The byte of a place of a macroblock; the C code stops the simulation outside the store.
  function At(m: Store, mb: nat, place: nat): int
    requires mb < REGISTERS / BLOCK && place < BLOCK
  {
    m[BLOCK * mb + place] as int
  }

  // ---------- what the filter needs to know ----------

  function SignedChar(b: int): int { if b >= 128 then b - 256 else b }

  function SignedShort(hi: int, lo: int): int {
    var v := hi * 256 + lo;
    if v >= 0x8000 then v - 0x1_0000 else v
  }

  predicate IsIntra(mode: int) { 5 <= mode <= 30 }

  function Mv(m: Store, mb: nat, base: nat, sub: nat): int
    requires mb < REGISTERS / BLOCK && base + 2 * sub + 1 < BLOCK
  {
    SignedShort(At(m, mb, base + 2 * sub + 1), At(m, mb, base + 2 * sub))
  }

  // get_bS, for a sample of macroblock q at column x, and macroblock p; sub is the 4x4 block, the
  // same in both.
  function Strength(m: Store, x: nat, q: nat, p: nat, sub: nat): nat
    requires q < REGISTERS / BLOCK && p < REGISTERS / BLOCK && sub < 16
  {
    if x % 16 == 0 && (IsIntra(At(m, q, MODE)) || IsIntra(At(m, p, MODE))) then 4
    else if IsIntra(At(m, q, MODE)) then 3
    else if At(m, q, COEFF + sub) != 0 || At(m, p, COEFF + sub) != 0 then 2
    else if Abs(Mv(m, q, MVX, sub) - Mv(m, p, MVX, sub)) > 4 || Abs(Mv(m, q, MVY, sub) - Mv(m, p, MVY, sub)) > 4 then 1
    else 0
  }

  // The first part of filter_block.
  function ThresholdsAt(t: Tables, m: Store, slice: nat, q: nat, p: nat, chroma: bool, bS: nat): Thresholds
    requires slice < N_SLICE_THREADS && q < REGISTERS / BLOCK && p < REGISTERS / BLOCK
  {
    var quant := if chroma then QUANT + 1 else QUANT;
    var qp := (SignedChar(At(m, q, quant)) + SignedChar(At(m, p, quant)) + 1) / 2;
    var indexA := CustomClip(qp + m[SLICE_OFFSET * slice + REG_SLI_ALPHA] as int * 4, 0, 51);
    var indexB := CustomClip(qp + m[SLICE_OFFSET * slice + REG_SLI_BETA] as int * 4, 0, 51);
    t(indexA, indexB, bS)
  }

  // ---------- lines ----------

  // A call of filter_vertical_L, filter_horizontal_L, filter_vertical_C or filter_horizontal_C.
  datatype Line = Line(vertical: bool, chroma: bool, plane: nat, x: nat, y: nat)

  // The line lies in the picture, is not on its border, and its samples fit into the macroblock.
  predicate Fits(w: nat, h: nat, l: Line) {
    && l.x < 16 * w && l.y < 16 * h && l.plane < 2
    && (if l.vertical then 16 <= l.x && l.x % 16 <= (if l.chroma then 8 else 12)
        else 16 <= l.y && l.y % 16 <= (if l.chroma then 8 else 12))
  }

  // The pictures up to CIF.
  predicate Picture(w: nat, h: nat) { (w == 8 && h == 6) || (w == 11 && h == 9) || (w == 22 && h == 18) }

  // The macroblock of the line, and the one that its p side is taken to be in.
  function Q(w: nat, l: Line): nat { Mb(w, l.x, l.y) }

  function P(w: nat, l: Line): nat
    requires Inner(l)
  {
    if l.vertical then Mb(w, l.x - 16, l.y) else Mb(w, l.x, l.y - 16)
  }

  predicate Inner(l: Line) { if l.vertical then 16 <= l.x else 16 <= l.y }

  // The address of the sample at distance i from the edge: to the right or below for i >= 0, to the
  // left or above for i < 0.
  function SampleAt(w: nat, l: Line, i: int): nat
    requires Inner(l) && -4 <= i
  {
    if l.chroma then
      var x := if l.vertical then l.x / 2 + i else l.x / 2;
      var y := if l.vertical then l.y / 2 else l.y / 2 + i;
      BLOCK * ChromaMb(w, x, y) + ChromaPlace(l.plane, x, y)
    else
      var x := if l.vertical then l.x + i else l.x;
      var y := if l.vertical then l.y else l.y + i;
      BLOCK * Mb(w, x, y) + LumaPlace(x, y)
  }

  lemma OneRowUp(w: nat, k: int)
    ensures (k - 1) * w == k * w - w
  {
  }

  lemma BlocksOfLine(w: nat, h: nat, l: Line)
    requires Picture(w, h) && Fits(w, h, l)
    ensures P(w, l) == (if l.vertical then Q(w, l) - 1 else Q(w, l) - w) && P(w, l) < Q(w, l) < w * h
  {
    OneRowUp(w, l.y / 16);
    assert l.y / 16 <= h - 1;
    if w == 8 {} else if w == 11 {} else {}
  }

  // Every sample of a line is in one of the two macroblocks, among their samples.
  lemma SampleIsInside(w: nat, h: nat, l: Line, i: int)
    requires Picture(w, h) && Fits(w, h, l) && -4 <= i < 4
    ensures var a := SampleAt(w, l, i);
      && (a / BLOCK == Q(w, l) || (i < 0 && a / BLOCK == P(w, l)))
      && a % BLOCK < SAMPLES
  {
    OneRowUp(w, l.y / 16);
    if l.chroma {
      ChromaSample(w, l, i);
    } else {
      LumaSample(w, l, i);
    }
  }

  lemma LumaSample(w: nat, l: Line, i: int)
    requires Inner(l) && !l.chroma && -4 <= i < 4 && (if l.vertical then l.x % 16 <= 12 else l.y % 16 <= 12)
    ensures var a := SampleAt(w, l, i);
      && (a / BLOCK == Q(w, l) || (i < 0 && a / BLOCK == P(w, l)))
      && a % BLOCK < SAMPLES
  {
    var x := if l.vertical then l.x + i else l.x;
    var y := if l.vertical then l.y else l.y + i;
    LumaMb(w, l, i, x, y);
    LumaPlaceIs(x, y);
    hide LumaPlace, Mb, Q, P;
    Split(Mb(w, x, y), LumaPlace(x, y));
  }

  lemma LumaMb(w: nat, l: Line, i: int, x: nat, y: nat)
    requires Inner(l) && -4 <= i < 4 && (if l.vertical then l.x % 16 <= 12 else l.y % 16 <= 12)
    requires x == (if l.vertical then l.x + i else l.x) && y == if l.vertical then l.y else l.y + i
    ensures Mb(w, x, y) == Q(w, l) || (i < 0 && Mb(w, x, y) == P(w, l))
  {
    FullStep(if l.vertical then l.x else l.y, i);
    SameMb(w, x, y, l.x, l.y);
    if i < 0 {
      SameMb(w, x, y, if l.vertical then l.x - 16 else l.x, if l.vertical then l.y else l.y - 16);
    }
    hide Mb;
  }

  lemma SameMb(w: nat, x: nat, y: nat, x': nat, y': nat)
    ensures x / 16 == x' / 16 && y / 16 == y' / 16 ==> Mb(w, x, y) == Mb(w, x', y')
  {
  }

  lemma SameChromaMb(w: nat, x: nat, y: nat, x': nat, y': nat)
    ensures x / 8 == x' / 16 && y / 8 == y' / 16 ==> ChromaMb(w, x, y) == Mb(w, x', y')
  {
  }

  lemma ChromaSample(w: nat, l: Line, i: int)
    requires Inner(l) && l.chroma && l.plane < 2 && -4 <= i < 4
    requires if l.vertical then l.x % 16 <= 8 else l.y % 16 <= 8
    ensures var a := SampleAt(w, l, i);
      && (a / BLOCK == Q(w, l) || (i < 0 && a / BLOCK == P(w, l)))
      && a % BLOCK < SAMPLES
  {
    var x := if l.vertical then l.x / 2 + i else l.x / 2;
    var y := if l.vertical then l.y / 2 else l.y / 2 + i;
    MbOfChroma(w, l, i, x, y);
    ChromaPlaceIs(l.plane, x, y);
    hide ChromaPlace, ChromaMb, Q, P;
    Split(ChromaMb(w, x, y), ChromaPlace(l.plane, x, y));
  }

  lemma MbOfChroma(w: nat, l: Line, i: int, x: nat, y: nat)
    requires Inner(l) && -4 <= i < 4 && (if l.vertical then l.x % 16 <= 8 else l.y % 16 <= 8)
    requires x == (if l.vertical then l.x / 2 + i else l.x / 2) && y == if l.vertical then l.y / 2 else l.y / 2 + i
    ensures ChromaMb(w, x, y) == Q(w, l) || (i < 0 && ChromaMb(w, x, y) == P(w, l))
  {
    HalfStep(if l.vertical then l.x else l.y, i);
    HalfRow(if l.vertical then l.y else l.x);
    SameChromaMb(w, x, y, l.x, l.y);
    if i < 0 {
      SameChromaMb(w, x, y, if l.vertical then l.x - 16 else l.x, if l.vertical then l.y else l.y - 16);
    }
    hide ChromaMb, Mb;
  }

  lemma LumaPlaceIs(x: nat, y: nat)
    ensures LumaPlace(x, y) < CHROMA
  {
  }

  lemma ChromaPlaceIs(plane: nat, x: nat, y: nat)
    requires plane < 2
    ensures CHROMA <= ChromaPlace(plane, x, y) < SAMPLES
  {
  }

  lemma FullStep(x: nat, i: int)
    requires 16 <= x && x % 16 <= 12 && -4 <= i < 4
    ensures var k := (x + i) / 16;
      k == x / 16 || (i < 0 && k == (x - 16) / 16)
  {
  }

  // Half coordinates: a sample near an edge is in the same macroblock or in the one before.
  lemma HalfStep(x: nat, i: int)
    requires 16 <= x && x % 16 <= 8 && -4 <= i < 4
    ensures var k := (x / 2 + i) / 8;
      k == x / 16 || (i < 0 && k == (x - 16) / 16)
  {
  }

  lemma HalfRow(y: nat)
    ensures y / 2 / 8 == y / 16
  {
  }

  lemma Split(mb: nat, place: nat)
    requires place < SAMPLES
    ensures (BLOCK * mb + place) / BLOCK == mb && (BLOCK * mb + place) % BLOCK == place
  {
  }
}

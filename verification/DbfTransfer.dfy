/**
 The transfer of a filtered picture to memory: from macroblocks to the Y, Cb and Cr planes, in
 packets of one word in the lower or the upper half of a group of eight bytes.
 */
module DbfTransfer {
  import opened AddressMap
  import opened Arithmetic
  import opened Bytes
  import opened BusMemory
  import opened DbfStore
  import opened Options
  import M = MemoryLanes

  // ---------- planes ----------

  // A plane has macroblocks of 16 x 16 or 8 x 8 samples that start at a place of the macroblock.
  predicate Kind(side: nat, base: nat) {
    (side == 16 && base == LUMA) || (side == 8 && (base == 0x100 || base == 0x140))
  }

  function Width(w: nat, side: nat): nat { if side == 16 then 16 * w else 8 * w }

  // The address of the sample at row r and column c of a plane, the one that get_L_pixel and
  // get_C_pixel read.
  function PixelAt(w: nat, side: nat, base: nat, r: nat, c: nat): nat {
    if side == 16 then BLOCK * Mb(w, c, r) + base + r % 16 * 16 + c % 16
    else BLOCK * ChromaMb(w, c, r) + base + r % 8 * 8 + c % 8
  }

  lemma PixelInStore(w: nat, h: nat, side: nat, base: nat, r: nat, c: nat)
    requires Picture(w, h) && Kind(side, base) && r < Width(h, side) && c < Width(w, side)
    ensures PixelAt(w, side, base, r, c) < REGISTERS
  {
    if w == 8 {} else if w == 11 {} else {}
  }

  function Pixel(m: Store, w: nat, h: nat, side: nat, base: nat, r: nat, c: nat): byte
    requires Picture(w, h) && Kind(side, base) && r < Width(h, side) && c < Width(w, side)
  {
    PixelInStore(w, h, side, base, r, c);
    m[PixelAt(w, side, base, r, c)]
  }

  // ---------- rasters ----------

  // The row and the column of a number, and the number of a row and a column.
  lemma RasterIndex(n: nat, width: nat, r: nat, c: nat)
    requires c < width && n == r * width + c
    ensures n / width == r && n % width == c
  {
    var e := n / width - r;
    assert e * width == n / width * width - r * width;
    AtLeastOnce(e, width);
  }

  lemma RasterRow(n: nat, width: nat, rows: nat)
    requires width > 0 && n < width * rows
    ensures n / width < rows && n % width < width && n == n / width * width + n % width
  {
    var e := n / width - rows;
    assert e * width == n / width * width - rows * width;
    AtLeastOnce(e, width);
  }

  lemma RasterBound(r: nat, c: nat, width: nat, rows: nat)
    requires r < rows && c < width
    ensures r * width + c < width * rows
  {
    assert (rows - r) * width == rows * width - r * width;
    AtLeastOnce(rows - r, width);
  }

  // The number of samples of a plane, and the plane in raster order.
  function Area(w: nat, h: nat, side: nat): nat { Width(w, side) * Width(h, side) }

  function Plane(m: Store, w: nat, h: nat, side: nat, base: nat): (p: seq<byte>)
    requires Picture(w, h) && Kind(side, base)
    ensures |p| == Area(w, h, side)
  {
    seq(Area(w, h, side), n requires 0 <= n < Area(w, h, side) =>
      RasterRow(n, Width(w, side), Width(h, side));
      Pixel(m, w, h, side, base, n / Width(w, side), n % Width(w, side)))
  }

  function Macroblocks(w: nat, h: nat): nat { w * h }

  lemma AreaIsWords(w: nat, h: nat, side: nat)
    requires side == 16 || side == 8
    ensures Area(w, h, side) % 4 == 0 && Area(w, h, side) / 4 == (if side == 16 then 64 else 16) * Macroblocks(w, h)
  {
    assert 16 * w * (16 * h) == 4 * (64 * (w * h)) && 8 * w * (8 * h) == 4 * (16 * (w * h));
  }

  // The other threads of the device go on while packets wait: the store changes from packet to packet.
  // The plane as the packets from number first on find it, four samples each.
  function Filmed(ms: seq<Store>, first: nat, w: nat, h: nat, side: nat, base: nat): (p: seq<byte>)
    requires Picture(w, h) && Kind(side, base) && first + Area(w, h, side) / 4 <= |ms|
    ensures |p| == Area(w, h, side)
  {
    AreaIsWords(w, h, side);
    seq(Area(w, h, side), i requires 0 <= i < Area(w, h, side) => Plane(ms[first + i / 4], w, h, side, base)[i])
  }

  // The packets of a transfer, and the three planes, one after the other.
  function Packets(w: nat, h: nat): nat { 96 * Macroblocks(w, h) }

  function Planes(ms: seq<Store>, w: nat, h: nat): seq<byte>
    requires Picture(w, h) && |ms| == Packets(w, h)
  {
    AreaIsWords(w, h, 16);
    AreaIsWords(w, h, 8);
    Filmed(ms, 0, w, h, 16, LUMA) + Filmed(ms, 64 * Macroblocks(w, h), w, h, 8, CHROMA)
    + Filmed(ms, 80 * Macroblocks(w, h), w, h, 8, CHROMA + 64)
  }

  // The place of row r and column c in a plane.
  function Raster(w: nat, side: nat, r: nat, c: nat): nat { r * Width(w, side) + c }

  lemma RasterInArea(w: nat, h: nat, side: nat, r: nat, c: nat)
    requires r < Width(h, side) && c < Width(w, side)
    ensures Raster(w, side, r, c) < Area(w, h, side)
  {
    RasterBound(r, c, Width(w, side), Width(h, side));
  }

  lemma PlaneHolds(m: Store, w: nat, h: nat, side: nat, base: nat, r: nat, c: nat)
    requires Picture(w, h) && Kind(side, base) && r < Width(h, side) && c < Width(w, side)
    ensures Raster(w, side, r, c) < Area(w, h, side)
    ensures Plane(m, w, h, side, base)[Raster(w, side, r, c)] == Pixel(m, w, h, side, base, r, c)
  {
    RasterBound(r, c, Width(w, side), Width(h, side));
    RasterIndex(r * Width(w, side) + c, Width(w, side), r, c);
  }

  // ---------- packets ----------

  // The lanes of a packet; wdata keeps in the other half what the packet before has left there.
  datatype Packet = Packet(address: u32, be: M.mask, wdata: seq<byte>)

  // What the memory does with a packet.
  function Deliver(mem: Bus, p: Packet): Bus
    requires |p.wdata| == 8
  {
    var lo := M.Low(p.be, 0);
    var hi := M.End(p.be, lo);
    Laid(mem, (p.address + lo) % TWO32, p.wdata[lo..hi], hi - lo)
  }

  lemma HalfLanes()
    ensures M.Low(0x0F, 0) == 0 && M.End(0x0F, 0) == 4
    ensures M.Low(0xF0, 0) == 4 && M.End(0xF0, 4) == 8
  {
    M.AlignedBounds(0x0F);
    M.AlignedBounds(0xF0);
  }

  // A word in the lower or the upper half of a group lands at its own address, whatever the other
  // half carries.
  lemma HalfDelivered(mem: Bus, adr: u32, lower: bool, wdata: seq<byte>)
    requires |wdata| == 8 && adr % 4 == 0 && lower == (adr % 8 == 0)
    ensures Deliver(mem, Packet(adr - adr % 8, if lower then 0x0F else 0xF0, wdata))
            == Laid(mem, adr, if lower then wdata[..4] else wdata[4..], 4)
  {
    HalfLanes();
    assert wdata[0..4] == wdata[..4] && wdata[4..8] == wdata[4..];
    HalfAddress(adr);
    hide M.Low, M.End, Laid;
  }

  lemma HalfAddress(adr: u32)
    requires adr % 4 == 0
    ensures (adr - adr % 8 + if adr % 8 == 0 then 0 else 4) % TWO32 == adr
  {
    assert adr % 8 == 0 || adr % 8 == 4;
    SmallModulo(adr);
  }

  lemma NextWord(adr: u32)
    requires adr % 4 == 0
    ensures (adr + 4) % TWO32 % 8 == 0 <==> adr % 8 != 0
    ensures (adr + 4) % TWO32 % 4 == 0
  {
    OtherHalf(adr);
    if adr + 4 < TWO32 {
      SmallModulo(adr + 4);
    } else {
      assert adr + 4 == TWO32;
    }
  }

  lemma OtherHalf(adr: nat)
    requires adr % 4 == 0
    ensures (adr + 4) % 8 == 0 <==> adr % 8 != 0
    ensures (adr + 4) % 4 == 0
  {
  }

  lemma SmallModulo(x: nat)
    requires x < TWO32
    ensures x % TWO32 == x
  {
  }

  // SEND_PACK for incrementing addresses: the packet carries the word to adr, in its half.
  method SendPack(word: seq<byte>, wdata: seq<byte>, adr: u32, b8alg: bool, mem: Bus)
    returns (wdata': seq<byte>, adr': u32, b8alg': bool, mem': Bus)
    requires |word| == 4 && |wdata| == 8 && adr % 4 == 0 && b8alg == (adr % 8 == 0)
    ensures |wdata'| == 8 && adr' == Place(adr, 4) && adr' % 4 == 0 && b8alg' == (adr' % 8 == 0)
    ensures mem' == Laid(mem, adr, word, 4)
  {
    hide Deliver, Laid;
    var be: M.mask;
    if b8alg {
      be := 0x0F;
      wdata' := word + wdata[4..];
      assert wdata'[..4] == word;
    } else {
      be := 0xF0;
      wdata' := wdata[..4] + word;
      assert wdata'[4..] == word;
    }
    HalfDelivered(mem, adr, b8alg, wdata');
    mem' := Deliver(mem, Packet(adr - adr % 8, be, wdata'));
    NextWord(adr);
    PlaceIs(adr, 4);
    adr' := (adr + 4) % TWO32;
    b8alg' := !b8alg;
  }

  // ---------- one plane ----------

  // In the loop nest, with macroblock row k, line l of it, macroblock y and column x of it: how many
  // bytes of the plane have been sent, and reg_addr.
  function Sent(w: nat, side: nat, k: nat, l: nat, y: nat, x: nat): nat {
    (k * side + l) * Width(w, side) + (y * side + x)
  }

  function Source(w: nat, side: nat, base: nat, k: nat, l: nat, y: nat, x: nat): nat {
    base + k * w * BLOCK + l * side + y * BLOCK + x
  }

  lemma FourBytes(s: seq<byte>, i: nat)
    requires i + 4 <= |s|
    ensures s[i..i + 4] == [s[i], s[i + 1], s[i + 2], s[i + 3]]
  {
  }

  // The word that is sent is the next one of the plane.
  lemma WordOfPlane(m: Store, w: nat, h: nat, side: nat, base: nat, k: nat, l: nat, y: nat, x: nat)
    requires Picture(w, h) && Kind(side, base) && k < h && l < side && y < w && x + 4 <= side
    ensures var n, a := Sent(w, side, k, l, y, x), Source(w, side, base, k, l, y, x);
      && n + 4 <= Area(w, h, side) && a + 4 <= REGISTERS
      && m[a..a + 4] == Plane(m, w, h, side, base)[n..n + 4]
  {
    var n, a := Sent(w, side, k, l, y, x), Source(w, side, base, k, l, y, x);
    NextByte(w, side, base, k, l, y, x, 1);
    NextByte(w, side, base, k, l, y, x, 2);
    NextByte(w, side, base, k, l, y, x, 3);
    OnePixel(m, w, h, side, base, k, l, y, x);
    OnePixel(m, w, h, side, base, k, l, y, x + 1);
    OnePixel(m, w, h, side, base, k, l, y, x + 2);
    OnePixel(m, w, h, side, base, k, l, y, x + 3);
    hide Plane, Sent, Source, Area, Picture, Kind;
    FourBytes(m, a);
    FourBytes(Plane(m, w, h, side, base), n);
  }

  lemma NextByte(w: nat, side: nat, base: nat, k: nat, l: nat, y: nat, x: nat, j: nat)
    ensures Sent(w, side, k, l, y, x + j) == Sent(w, side, k, l, y, x) + j
    ensures Source(w, side, base, k, l, y, x + j) == Source(w, side, base, k, l, y, x) + j
  {
  }

  lemma MbInPlane(k: nat, l: nat, side: nat, h: nat)
    requires (side == 16 || side == 8) && k < h && l < side
    ensures k * side + l < Width(h, side)
  {
    if side == 16 {} else {}
  }

  lemma OnePixel(m: Store, w: nat, h: nat, side: nat, base: nat, k: nat, l: nat, y: nat, x: nat)
    requires Picture(w, h) && Kind(side, base) && k < h && l < side && y < w && x < side
    ensures var n, a := Sent(w, side, k, l, y, x), Source(w, side, base, k, l, y, x);
      && n < Area(w, h, side) && a < REGISTERS
      && Plane(m, w, h, side, base)[n] == m[a]
  {
    hide Plane, Width, Area, PixelAt;
    var r, c := k * side + l, y * side + x;
    MbInPlane(k, l, side, h);
    MbInPlane(y, x, side, w);
    PlaneHolds(m, w, h, side, base, r, c);
    PixelInStore(w, h, side, base, r, c);
    PixelOfWord(w, side, base, k, l, y, x);
  }

  lemma PixelOfWord(w: nat, side: nat, base: nat, k: nat, l: nat, y: nat, x: nat)
    requires (side == 16 || side == 8) && l < side && x < side
    ensures PixelAt(w, side, base, k * side + l, y * side + x) == Source(w, side, base, k, l, y, x)
  {
    if side == 16 {
      assert (k * 16 + l) / 16 == k && (y * 16 + x) / 16 == y;
    } else {
      assert (k * 8 + l) / 8 == k && (y * 8 + x) / 8 == y;
    }
    assert BLOCK * (k * w) == k * w * BLOCK;
  }

  // ---------- the loops ----------

  // sent counts the packets, whichever plane they are for.
  datatype Sender = Sender(wdata: seq<byte>, adr: u32, b8alg: bool, mem: Bus, sent: nat)

  // The first n bytes of a plane, whose packets begin at number first, have been sent to dst.
  ghost predicate Stage(s: Sender, mem: Bus, dst: u32, plane: seq<byte>, first: nat, n: nat) {
    && n <= |plane| && s.mem == Laid(mem, dst, plane, n) && s.adr == Place(dst, n)
    && n % 4 == 0 && s.sent == first + n / 4
    && Consistent(s)
  }

  predicate Consistent(s: Sender) { |s.wdata| == 8 && s.adr % 4 == 0 && s.b8alg == (s.adr % 8 == 0) }

  // What all loops of a plane have in common.
  ghost predicate Sending(ms: seq<Store>, first: nat, w: nat, h: nat, side: nat, base: nat, plane: seq<byte>) {
    && Picture(w, h) && Kind(side, base) && first + Area(w, h, side) / 4 <= |ms|
    && plane == Filmed(ms, first, w, h, side, base)
  }

  lemma SendingIs(ms: seq<Store>, first: nat, w: nat, h: nat, side: nat, base: nat)
    requires Picture(w, h) && Kind(side, base) && first + Area(w, h, side) / 4 <= |ms|
    ensures Sending(ms, first, w, h, side, base, Filmed(ms, first, w, h, side, base))
  {
    hide Filmed, Picture, Kind, Area;
  }

  lemma SideIs(ms: seq<Store>, first: nat, w: nat, h: nat, side: nat, base: nat, plane: seq<byte>)
    requires Sending(ms, first, w, h, side, base, plane)
    ensures side == 16 || side == 8
  {
    hide Filmed, Picture, Area;
  }

  lemma FilmedWord(ms: seq<Store>, first: nat, w: nat, h: nat, side: nat, base: nat, plane: seq<byte>, n: nat)
    requires Sending(ms, first, w, h, side, base, plane) && n % 4 == 0 && n + 4 <= Area(w, h, side)
    ensures |plane| == Area(w, h, side) && first + n / 4 < |ms|
    ensures plane[n..n + 4] == Plane(ms[first + n / 4], w, h, side, base)[n..n + 4]
  {
    AreaIsWords(w, h, side);
    hide Plane, Area, Picture, Kind;
    assert n / 4 == (n + 1) / 4 == (n + 2) / 4 == (n + 3) / 4;
    FourBytes(plane, n);
    FourBytes(Plane(ms[first + n / 4], w, h, side, base), n);
  }

  // One packet of the innermost loop, from the store as it is by then.
  method SendWord(ms: seq<Store>, w: nat, h: nat, side: nat, base: nat, k: nat, l: nat, y: nat, x: nat, s: Sender,
                  ghost mem: Bus, ghost dst: u32, ghost plane: seq<byte>, ghost first: nat) returns (s': Sender)
    requires Sending(ms, first, w, h, side, base, plane) && k < h && l < side && y < w && x + 4 <= side
    requires Stage(s, mem, dst, plane, first, Sent(w, side, k, l, y, x))
    ensures Stage(s', mem, dst, plane, first, Sent(w, side, k, l, y, x + 4))
  {
    ghost var n := Sent(w, side, k, l, y, x);
    var a := Source(w, side, base, k, l, y, x);
    SentInPlane(ms, first, w, h, side, base, plane, k, l, y, x);
    var m := ms[s.sent];
    NextByte(w, side, base, k, l, y, x, 4);
    hide Sending, Sent, Source, Laid, Place;
    var wdata, adr, b8alg, mem' := SendPack(m[a..a + 4], s.wdata, s.adr, s.b8alg, s.mem);
    s' := Sender(wdata, adr, b8alg, mem', s.sent + 1);
    NextStage(s, s', mem, dst, plane, first, n);
  }

  lemma SentInPlane(ms: seq<Store>, first: nat, w: nat, h: nat, side: nat, base: nat, plane: seq<byte>,
                    k: nat, l: nat, y: nat, x: nat)
    requires Sending(ms, first, w, h, side, base, plane) && k < h && l < side && y < w && x + 4 <= side
    requires Sent(w, side, k, l, y, x) % 4 == 0
    ensures var n, a := Sent(w, side, k, l, y, x), Source(w, side, base, k, l, y, x);
      && n + 4 <= |plane| && a + 4 <= REGISTERS && first + n / 4 < |ms|
      && ms[first + n / 4][a..a + 4] == plane[n..n + 4]
  {
    var n := Sent(w, side, k, l, y, x);
    hide Plane, Sent, Source, Picture, Kind, Area, Filmed;
    WordInPlane(w, h, side, base, k, l, y, x);
    FilmedWord(ms, first, w, h, side, base, plane, n);
    WordOfPlane(ms[first + n / 4], w, h, side, base, k, l, y, x);
  }

  lemma WordInPlane(w: nat, h: nat, side: nat, base: nat, k: nat, l: nat, y: nat, x: nat)
    requires Picture(w, h) && Kind(side, base) && k < h && l < side && y < w && x + 4 <= side
    ensures Sent(w, side, k, l, y, x) + 4 <= Area(w, h, side)
  {
    var m: Store := seq(SIZE, i => 0);
    WordOfPlane(m, w, h, side, base, k, l, y, x);
  }

  lemma NextStage(s: Sender, s': Sender, mem: Bus, dst: u32, plane: seq<byte>, first: nat, n: nat)
    requires Stage(s, mem, dst, plane, first, n) && n + 4 <= |plane| && Consistent(s') && s'.sent == s.sent + 1
    requires s'.mem == Laid(s.mem, s.adr, plane[n..n + 4], 4) && s'.adr == Place(s.adr, 4)
    ensures Stage(s', mem, dst, plane, first, n + 4)
  {
    hide Laid, Place;
    MoreLaid(mem, dst, plane, n, 4);
    PlaceFurther(dst, n, 4);
  }

  lemma FirstStage(s: Sender, plane: seq<byte>)
    requires Consistent(s)
    ensures Stage(s, s.mem, s.adr, plane, s.sent, 0)
  {
  }

  // The loop nest of one plane, from the inside: a macroblock's part of a line,
  method SendMb(ms: seq<Store>, w: nat, h: nat, side: nat, base: nat, k: nat, l: nat, y: nat, s: Sender,
                ghost mem: Bus, ghost dst: u32, ghost plane: seq<byte>, ghost first: nat) returns (s': Sender)
    requires Sending(ms, first, w, h, side, base, plane) && k < h && l < side && y < w
    requires Stage(s, mem, dst, plane, first, Sent(w, side, k, l, y, 0))
    ensures Stage(s', mem, dst, plane, first, Sent(w, side, k, l, y + 1, 0))
  {
    NextMb(w, side, k, l, y);
    hide Stage, Sending, Sent;
    SideIs(ms, first, w, h, side, base, plane);
    s' := s;
    var x := 0;
    while x < side
      invariant x <= side && x % 4 == 0 && Stage(s', mem, dst, plane, first, Sent(w, side, k, l, y, x))
    {
      s' := SendWord(ms, w, h, side, base, k, l, y, x, s', mem, dst, plane, first);
      x := x + 4;
    }
  }

  // a line,
  method SendLine(ms: seq<Store>, w: nat, h: nat, side: nat, base: nat, k: nat, l: nat, s: Sender,
                  ghost mem: Bus, ghost dst: u32, ghost plane: seq<byte>, ghost first: nat) returns (s': Sender)
    requires Sending(ms, first, w, h, side, base, plane) && k < h && l < side
    requires Stage(s, mem, dst, plane, first, Sent(w, side, k, l, 0, 0))
    ensures Stage(s', mem, dst, plane, first, Sent(w, side, k, l + 1, 0, 0))
  {
    NextLine(w, side, k, l);
    hide Stage, Sending, Sent;
    s' := s;
    for y := 0 to w
      invariant Stage(s', mem, dst, plane, first, Sent(w, side, k, l, y, 0))
    {
      s' := SendMb(ms, w, h, side, base, k, l, y, s', mem, dst, plane, first);
    }
  }

  // a row of macroblocks,
  method SendRow(ms: seq<Store>, w: nat, h: nat, side: nat, base: nat, k: nat, s: Sender,
                 ghost mem: Bus, ghost dst: u32, ghost plane: seq<byte>, ghost first: nat) returns (s': Sender)
    requires Sending(ms, first, w, h, side, base, plane) && k < h
    requires Stage(s, mem, dst, plane, first, Sent(w, side, k, 0, 0, 0))
    ensures Stage(s', mem, dst, plane, first, Sent(w, side, k + 1, 0, 0, 0))
  {
    NextRow(w, side, k);
    hide Stage, Sending, Sent;
    s' := s;
    for l := 0 to side
      invariant Stage(s', mem, dst, plane, first, Sent(w, side, k, l, 0, 0))
    {
      s' := SendLine(ms, w, h, side, base, k, l, s', mem, dst, plane, first);
    }
  }

  // and the plane.
  method SendPlane(ms: seq<Store>, w: nat, h: nat, side: nat, base: nat, s: Sender) returns (s': Sender)
    requires Picture(w, h) && Kind(side, base) && Consistent(s) && s.sent + Area(w, h, side) / 4 <= |ms|
    ensures Stage(s', s.mem, s.adr, Filmed(ms, s.sent, w, h, side, base), s.sent, Area(w, h, side))
  {
    ghost var plane := Filmed(ms, s.sent, w, h, side, base);
    FirstByte(w, side);
    LastByte(w, h, side);
    hide Stage, Sending, Sent, Picture, Kind, Area, Filmed;
    SendingIs(ms, s.sent, w, h, side, base);
    FirstStage(s, plane);
    s' := s;
    for k := 0 to h
      invariant Stage(s', s.mem, s.adr, plane, s.sent, Sent(w, side, k, 0, 0, 0))
    {
      s' := SendRow(ms, w, h, side, base, k, s', s.mem, s.adr, plane, s.sent);
    }
  }

  lemma FirstByte(w: nat, side: nat)
    ensures Sent(w, side, 0, 0, 0, 0) == 0
  {
  }

  lemma NextMb(w: nat, side: nat, k: nat, l: nat, y: nat)
    ensures Sent(w, side, k, l, y, side) == Sent(w, side, k, l, y + 1, 0)
  {
  }

  lemma NextLine(w: nat, side: nat, k: nat, l: nat)
    requires side == 16 || side == 8
    ensures Sent(w, side, k, l, w, 0) == Sent(w, side, k, l + 1, 0, 0)
  {
    assert w * side == Width(w, side);
    assert (k * side + l) * Width(w, side) + Width(w, side) == (k * side + l + 1) * Width(w, side);
  }

  lemma NextRow(w: nat, side: nat, k: nat)
    ensures Sent(w, side, k, side, 0, 0) == Sent(w, side, k + 1, 0, 0, 0)
  {
    assert k * side + side == (k + 1) * side;
  }

  lemma LastByte(w: nat, h: nat, side: nat)
    requires side == 16 || side == 8
    ensures Sent(w, side, h, 0, 0, 0) == Area(w, h, side)
  {
    assert h * side == Width(h, side);
  }

  // ---------- the picture ----------

  const REG_SRAM_ADDRESS: nat := 0x39010

  // The destination register, little-endian.
  function Destination(m: Store): u32 {
    m[REG_SRAM_ADDRESS] as int + m[REG_SRAM_ADDRESS + 1] as int * 0x100
    + m[REG_SRAM_ADDRESS + 2] as int * 0x1_0000 + m[REG_SRAM_ADDRESS + 3] as int * 0x100_0000
  }

  lemma LaidBoth(mem: Bus, dst: u32, p: seq<byte>, q: seq<byte>)
    ensures Laid(Laid(mem, dst, p, |p|), Place(dst, |p|), q, |q|) == Laid(mem, dst, p + q, |p + q|)
  {
    MoreLaid(mem, dst, p + q, |p|, |q|);
    SamePrefix(mem, dst, p, p + q, |p|);
    assert (p + q)[|p|..|p| + |q|] == q;
  }

  // The three planes, one after the other.
  method SendPlanes(ms: seq<Store>, w: nat, h: nat, s: Sender) returns (s': Sender)
    requires Picture(w, h) && |ms| == Packets(w, h) && Consistent(s) && s.sent == 0
    ensures s'.mem == Laid(s.mem, s.adr, Planes(ms, w, h), |Planes(ms, w, h)|)
  {
    AreaIsWords(w, h, 16);
    AreaIsWords(w, h, 8);
    ghost var y, b := Filmed(ms, 0, w, h, 16, LUMA), Filmed(ms, 64 * Macroblocks(w, h), w, h, 8, CHROMA);
    ghost var c := Filmed(ms, 80 * Macroblocks(w, h), w, h, 8, CHROMA + 64);
    hide Filmed, Laid, Area, Place, Macroblocks, Picture, Stage, Consistent;
    s' := SendPlane(ms, w, h, 16, LUMA, s);
    PlaneIsSent(s', s.mem, s.adr, y, 0);
    ghost var s1 := s';
    s' := SendPlane(ms, w, h, 8, CHROMA, s');
    PlaneIsSent(s', s1.mem, s1.adr, b, s1.sent);
    ghost var s2 := s';
    s' := SendPlane(ms, w, h, 8, CHROMA + 64, s');
    PlaneIsSent(s', s2.mem, s2.adr, c, s2.sent);
    ThreeLaid(s.mem, s.adr, y, b, c);
  }

  lemma PlaneIsSent(s: Sender, mem: Bus, dst: u32, plane: seq<byte>, first: nat)
    requires Stage(s, mem, dst, plane, first, |plane|)
    ensures s.mem == Laid(mem, dst, plane, |plane|) && s.adr == Place(dst, |plane|)
    ensures Consistent(s) && s.sent == first + |plane| / 4
  {
    hide Laid, Place;
  }

  lemma ThreeLaid(mem: Bus, dst: u32, y: seq<byte>, b: seq<byte>, c: seq<byte>)
    ensures var mem1 := Laid(mem, dst, y, |y|);
      var mem2 := Laid(mem1, Place(dst, |y|), b, |b|);
      Laid(mem2, Place(Place(dst, |y|), |b|), c, |c|) == Laid(mem, dst, y + b + c, |y + b + c|)
  {
    hide Laid, Place;
    LaidBoth(mem, dst, y, b);
    PlaceFurther(dst, |y|, |b|);
    LaidBoth(mem, dst, y + b, c);
  }

  // master_request with incrementing addresses; the size and the destination are read at the start,
  // from m.  None stands for the exit on a destination that is not aligned.
  method SendPicture(m: Store, ms: seq<Store>, mem: Bus) returns (r: Option<Bus>)
    requires Format(m) < 3 && |ms| == Packets(WidthInMbs(Format(m)), HeightInMbs(Format(m)))
    ensures var w, h := WidthInMbs(Format(m)), HeightInMbs(Format(m));
      r == if Destination(m) % 4 != 0 then None
           else Some(Laid(mem, Destination(m), Planes(ms, w, h), |Planes(ms, w, h)|))
  {
    var w, h := WidthInMbs(Format(m)), HeightInMbs(Format(m));
    var dst := Destination(m);
    hide Format, Destination, Planes, Laid;
    if dst % 4 != 0 {
      return None;
    }
    var s := SendPlanes(ms, w, h, Sender(seq(8, i => 0), dst, dst % 8 == 0, mem, 0));
    return Some(s.mem);
  }

  lemma PictureIsSmall(w: nat, h: nat)
    requires Picture(w, h)
    ensures 384 * Macroblocks(w, h) <= TWO32
  {
  }

  lemma PlanesSize(ms: seq<Store>, w: nat, h: nat)
    requires Picture(w, h) && |ms| == Packets(w, h)
    ensures |Planes(ms, w, h)| == 384 * Macroblocks(w, h)
  {
    AreaIsWords(w, h, 16);
    AreaIsWords(w, h, 8);
    hide Area, Filmed, Picture, Macroblocks;
  }

  // The memory after a transfer: 384 bytes per macroblock hold the Y, Cb and Cr planes in raster
  // order, and nothing else has changed.
  lemma PictureInMemory(ms: seq<Store>, w: nat, h: nat, mem: Bus, dst: u32)
    requires Picture(w, h) && |ms| == Packets(w, h) && Mapped(mem, dst, 384 * Macroblocks(w, h))
    ensures |Planes(ms, w, h)| == 384 * Macroblocks(w, h) == 4 * |ms|
    ensures var r := Laid(mem, dst, Planes(ms, w, h), 384 * Macroblocks(w, h));
      && r.Keys == mem.Keys
      && forall x | x in mem && Rel(x, dst) >= 384 * Macroblocks(w, h) :: r[x] == mem[x]
  {
    PlanesSize(ms, w, h);
    PictureIsSmall(w, h);
    var data := Planes(ms, w, h);
    hide Planes, Laid, Rel, Picture;
    LaidKeys(mem, dst, data, |data|);
    forall x | x in mem && Rel(x, dst) >= 384 * Macroblocks(w, h)
      ensures Laid(mem, dst, data, 384 * Macroblocks(w, h))[x] == mem[x]
    {
      LaidIs(mem, dst, data, |data|, x);
    }
  }

  // Where a plane starts in memory, and the number of its first packet.
  function First(w: nat, h: nat, base: nat): nat {
    if base == LUMA then 0 else if base == CHROMA then 256 * Macroblocks(w, h) else 320 * Macroblocks(w, h)
  }

  function FirstPacket(w: nat, h: nat, base: nat): nat {
    if base == LUMA then 0 else if base == CHROMA then 64 * Macroblocks(w, h) else 80 * Macroblocks(w, h)
  }

  lemma PacketOf(w: nat, h: nat, base: nat, i: nat)
    ensures (First(w, h, base) + i) / 4 == FirstPacket(w, h, base) + i / 4
  {
    hide Macroblocks;
    var q := FirstPacket(w, h, base);
    assert First(w, h, base) == 4 * q;
  }

  lemma InPlanes(ms: seq<Store>, w: nat, h: nat, side: nat, base: nat, i: nat)
    requires Picture(w, h) && |ms| == Packets(w, h) && Kind(side, base) && i < Area(w, h, side)
    ensures FirstPacket(w, h, base) + Area(w, h, side) / 4 <= |ms|
    ensures First(w, h, base) + i < |Planes(ms, w, h)| == 384 * Macroblocks(w, h)
    ensures Planes(ms, w, h)[First(w, h, base) + i] == Filmed(ms, FirstPacket(w, h, base), w, h, side, base)[i]
  {
    AreaIsWords(w, h, 16);
    AreaIsWords(w, h, 8);
    PlanesSize(ms, w, h);
    InOneOfThree(Filmed(ms, 0, w, h, 16, LUMA), Filmed(ms, 64 * Macroblocks(w, h), w, h, 8, CHROMA),
                 Filmed(ms, 80 * Macroblocks(w, h), w, h, 8, CHROMA + 64), i);
    hide Filmed, Picture, Area, Macroblocks;
    if base == LUMA {
      assert side == 16;
    } else if base == CHROMA {
      assert side == 8;
    } else {
      assert side == 8 && base == CHROMA + 64;
    }
  }

  lemma PlanesHold(ms: seq<Store>, w: nat, h: nat, side: nat, base: nat, r: nat, c: nat)
    requires Picture(w, h) && |ms| == Packets(w, h)
    requires Kind(side, base) && r < Width(h, side) && c < Width(w, side)
    ensures var n := First(w, h, base) + Raster(w, side, r, c);
      && n < |Planes(ms, w, h)| == 384 * Macroblocks(w, h) && n / 4 < |ms|
      && Planes(ms, w, h)[n] == Pixel(ms[n / 4], w, h, side, base, r, c)
  {
    hide *;
    var i := Raster(w, side, r, c);
    RasterInArea(w, h, side, r, c);
    InPlanes(ms, w, h, side, base, i);
    FilmedHolds(ms, FirstPacket(w, h, base), w, h, side, base, r, c);
    PacketOf(w, h, base, i);
  }

  lemma FilmedHolds(ms: seq<Store>, first: nat, w: nat, h: nat, side: nat, base: nat, r: nat, c: nat)
    requires Picture(w, h) && Kind(side, base) && first + Area(w, h, side) / 4 <= |ms|
    requires r < Width(h, side) && c < Width(w, side) && Raster(w, side, r, c) < Area(w, h, side)
    ensures var i := Raster(w, side, r, c);
      && first + i / 4 < |ms|
      && Filmed(ms, first, w, h, side, base)[i] == Pixel(ms[first + i / 4], w, h, side, base, r, c)
  {
    var i := Raster(w, side, r, c);
    AreaIsWords(w, h, side);
    hide Plane, Pixel, Picture, Area, Width, Kind, Raster, Macroblocks;
    PlaneHolds(ms[first + i / 4], w, h, side, base, r, c);
  }

  lemma InOneOfThree(p: seq<byte>, q: seq<byte>, r: seq<byte>, i: nat)
    ensures i < |p| ==> (p + q + r)[i] == p[i]
    ensures i < |q| ==> (p + q + r)[|p| + i] == q[i]
    ensures i < |r| ==> (p + q + r)[|p| + |q| + i] == r[i]
  {
  }

  // Byte r * 16W + c of the luma plane is the sample at column c and row r, and likewise for the
  // chroma planes, at the moment at which its packet is sent.
  lemma SamplesInMemory(ms: seq<Store>, w: nat, h: nat, mem: Bus, dst: u32, side: nat, base: nat, r: nat, c: nat)
    requires Picture(w, h) && |ms| == Packets(w, h) && Mapped(mem, dst, 384 * Macroblocks(w, h))
    requires Kind(side, base) && r < Width(h, side) && c < Width(w, side)
    ensures |Planes(ms, w, h)| == 384 * Macroblocks(w, h)
    ensures var n := First(w, h, base) + Raster(w, side, r, c);
      var final := Laid(mem, dst, Planes(ms, w, h), 384 * Macroblocks(w, h));
      && n / 4 < |ms| && Place(dst, n) in final
      && final[Place(dst, n)] == Pixel(ms[n / 4], w, h, side, base, r, c)
  {
    hide *;
    PlanesHold(ms, w, h, side, base, r, c);
    PictureIsSmall(w, h);
    ByteInMemory(mem, dst, Planes(ms, w, h), First(w, h, base) + Raster(w, side, r, c));
  }

  lemma ByteInMemory(mem: Bus, dst: u32, data: seq<byte>, n: nat)
    requires n < |data| <= TWO32 && Mapped(mem, dst, |data|)
    ensures Place(dst, n) in Laid(mem, dst, data, |data|) && Laid(mem, dst, data, |data|)[Place(dst, n)] == data[n]
  {
    hide Laid;
    MappedPrefix(mem, dst, n + 1, |data|);
    RelOfPlace(dst, n);
    LaidIs(mem, dst, data, |data|, Place(dst, n));
  }
}

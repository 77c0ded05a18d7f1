/**
 The filter on the planes of a picture: the macroblocks tile each plane without overlap, so that a
 line that is filtered in the tiled store changes eight neighbouring samples of one plane, as the
 filter says, and no other sample of any plane.
 */
module DbfPictures {
  import opened Bytes
  import opened DbfFilter
  import opened DbfStore
  import opened DbfSlices
  import opened DbfTransfer

  // ---------- tiles ----------

  // The row and the column of a sample, from the macroblock and the place in it.
  lemma TileIsUnique(w: nat, n: nat, x: nat, y: nat, x': nat, y': nat)
    requires n > 0 && x / n < w && x' / n < w
    requires y / n * w + x / n == y' / n * w + x' / n && y % n * n + x % n == y' % n * n + x' % n
    ensures x == x' && y == y'
  {
    SameRaster(y / n, x / n, y' / n, x' / n, w);
    SameRaster(y % n, x % n, y' % n, x' % n, n);
    Rejoined(x, x', n);
    Rejoined(y, y', n);
  }

  lemma SameRaster(r: nat, c: nat, r': nat, c': nat, width: nat)
    requires c < width && c' < width && r * width + c == r' * width + c'
    ensures r == r' && c == c'
  {
    RasterIndex(r * width + c, width, r, c);
    RasterIndex(r * width + c, width, r', c');
  }

  lemma Rejoin(x: nat, n: nat)
    requires n > 0
    ensures x == x / n * n + x % n && x % n < n
  {
  }

  lemma Rejoined(x: nat, x': nat, n: nat)
    requires n > 0 && x / n == x' / n && x % n == x' % n
    ensures x == x'
  {
    Rejoin(x, n);
    Rejoin(x', n);
  }

  // The macroblock and the place of a sample.
  function TileOf(w: nat, side: nat, r: nat, c: nat): nat
    requires side > 0
  {
    r / side * w + c / side
  }

  function PlaceIn(side: nat, base: nat, r: nat, c: nat): nat
    requires side > 0
  {
    base + r % side * side + c % side
  }

  lemma PlaceIsSmall(side: nat, base: nat, r: nat, c: nat)
    requires Kind(side, base)
    ensures base <= PlaceIn(side, base, r, c) < base + side * side
    ensures PlaceIn(side, base, r, c) < SAMPLES
  {
    if side == 16 {
      assert r % 16 * 16 + c % 16 < 256;
    } else {
      assert r % 8 * 8 + c % 8 < 64;
    }
  }

  lemma PixelAtIs(w: nat, side: nat, base: nat, r: nat, c: nat)
    requires Kind(side, base)
    ensures var a := PixelAt(w, side, base, r, c);
      a / BLOCK == TileOf(w, side, r, c) && a % BLOCK == PlaceIn(side, base, r, c)
  {
    PlaceIsSmall(side, base, r, c);
    Split(TileOf(w, side, r, c), PlaceIn(side, base, r, c));
  }

  // No two samples of the three planes share a byte.
  lemma PixelsAreDistinct(w: nat, h: nat, side: nat, base: nat, r: nat, c: nat, side': nat, base': nat, r': nat,
                          c': nat)
    requires Kind(side, base) && r < Width(h, side) && c < Width(w, side)
    requires Kind(side', base') && r' < Width(h, side') && c' < Width(w, side')
    requires PixelAt(w, side, base, r, c) == PixelAt(w, side', base', r', c')
    ensures side == side' && base == base' && r == r' && c == c'
  {
    PixelAtIs(w, side, base, r, c);
    PixelAtIs(w, side', base', r', c');
    PlaceIsSmall(side, base, r, c);
    PlaceIsSmall(side', base', r', c');
    assert base == base' && side == side';
    InTile(w, side, c);
    InTile(w, side, c');
    TileIsUnique(w, side, c, r, c', r');
  }

  lemma InTile(w: nat, side: nat, c: nat)
    requires (side == 16 || side == 8) && c < Width(w, side)
    ensures c / side < w
  {
    if side == 16 {} else {}
  }

  // ---------- a line on its plane ----------

  function SideOf(l: Line): nat { if l.chroma then 8 else 16 }

  function BaseOf(l: Line): nat { if l.chroma then CHROMA + 64 * l.plane else LUMA }

  // The row and the column, on its plane, of the sample at distance i from the edge.
  function RowOf(l: Line, i: int): int { (if l.chroma then l.y / 2 else l.y) + (if l.vertical then 0 else i) }

  function ColumnOf(l: Line, i: int): int { (if l.chroma then l.x / 2 else l.x) + (if l.vertical then i else 0) }

  lemma SampleIsOnPlane(w: nat, h: nat, l: Line, i: int)
    requires Picture(w, h) && Fits(w, h, l) && -4 <= i < 4
    ensures Kind(SideOf(l), BaseOf(l))
    ensures 0 <= RowOf(l, i) < Width(h, SideOf(l)) && 0 <= ColumnOf(l, i) < Width(w, SideOf(l))
  {
    Along(if l.vertical then l.x else l.y, if l.vertical then w else h, l.chroma, i);
    Across(if l.vertical then l.y else l.x, if l.vertical then h else w, l.chroma);
  }

  // Along the line: it starts past a macroblock and ends in one.
  lemma Along(x: nat, n: nat, chroma: bool, i: int)
    requires 16 <= x < 16 * n && x % 16 <= (if chroma then 8 else 12) && -4 <= i < 4
    ensures 0 <= (if chroma then x / 2 else x) + i < Width(n, if chroma then 8 else 16)
  {
    assert x == x / 16 * 16 + x % 16 && x / 16 <= n - 1;
  }

  lemma Across(y: nat, n: nat, chroma: bool)
    requires y < 16 * n
    ensures (if chroma then y / 2 else y) < Width(n, if chroma then 8 else 16)
  {
  }

  lemma SampleIsPixel(w: nat, h: nat, l: Line, i: int)
    requires Picture(w, h) && Fits(w, h, l) && -4 <= i < 4
    ensures RowOf(l, i) >= 0 && ColumnOf(l, i) >= 0
    ensures SampleAt(w, l, i) == PixelAt(w, SideOf(l), BaseOf(l), RowOf(l, i), ColumnOf(l, i))
  {
    SampleIsOnPlane(w, h, l, i);
  }

  // The sample at distance i of a line.
  function PixelOf(m: Store, w: nat, h: nat, l: Line, i: int): byte
    requires Picture(w, h) && Fits(w, h, l) && -4 <= i < 4
  {
    SampleIsOnPlane(w, h, l, i);
    Pixel(m, w, h, SideOf(l), BaseOf(l), RowOf(l, i), ColumnOf(l, i))
  }

  function Around(m: Store, w: nat, h: nat, l: Line): Samples
    requires Picture(w, h) && Fits(w, h, l)
  {
    Samples(PixelOf(m, w, h, l, -1) as int, PixelOf(m, w, h, l, -2) as int,
            PixelOf(m, w, h, l, -3) as int, PixelOf(m, w, h, l, -4) as int,
            PixelOf(m, w, h, l, 0) as int, PixelOf(m, w, h, l, 1) as int,
            PixelOf(m, w, h, l, 2) as int, PixelOf(m, w, h, l, 3) as int)
  }

  function SampleOf(s: Samples, i: int): u8
    requires -4 <= i < 4
  {
    match i
    case -4 => s.p3
    case -3 => s.p2
    case -2 => s.p1
    case -1 => s.p0
    case 0 => s.q0
    case 1 => s.q1
    case 2 => s.q2
    case _ => s.q3
  }

  // The round of the loop that reads and writes the sample at distance i.
  function RoundOf(i: int): (j: nat)
    requires -4 <= i < 4
    ensures j < 8 && Distance(j) == i
  {
    if i >= 0 then 2 * i else 2 * (-1 - i) + 1
  }

  lemma AddressOf(w: nat, h: nat, l: Line, i: int)
    requires Picture(w, h) && Fits(w, h, l) && -4 <= i < 4
    ensures RowOf(l, i) >= 0 && ColumnOf(l, i) >= 0
    ensures Addresses(w, h, l)[RoundOf(i)] == PixelAt(w, SideOf(l), BaseOf(l), RowOf(l, i), ColumnOf(l, i))
  {
    SampleIsPixel(w, h, l, i);
    hide PixelAt, SampleAt, RowOf, ColumnOf;
  }

  lemma PixelOfIs(m: Store, w: nat, h: nat, l: Line, i: int)
    requires Picture(w, h) && Fits(w, h, l) && -4 <= i < 4
    ensures PixelOf(m, w, h, l, i) == m[Addresses(w, h, l)[RoundOf(i)]]
  {
    AddressOf(w, h, l, i);
    hide PixelAt, SampleAt, RowOf, ColumnOf, Addresses, RoundOf, Picture, Fits;
  }

  lemma GatherIsAround(m: Store, w: nat, h: nat, l: Line)
    requires Picture(w, h) && Fits(w, h, l)
    ensures Gather(m, Addresses(w, h, l)) == Around(m, w, h, l)
  {
    PixelOfIs(m, w, h, l, -4);
    PixelOfIs(m, w, h, l, -3);
    PixelOfIs(m, w, h, l, -2);
    PixelOfIs(m, w, h, l, -1);
    PixelOfIs(m, w, h, l, 0);
    PixelOfIs(m, w, h, l, 1);
    PixelOfIs(m, w, h, l, 2);
    PixelOfIs(m, w, h, l, 3);
    hide PixelOf, Addresses, Picture, Fits;
  }

  lemma {:induction false} PutIs(m: Store, addrs: seq<nat>, vals: seq<byte>, n: nat, j: nat)
    requires j < n <= |addrs| == |vals| && forall k | 0 <= k < |addrs| :: addrs[k] < SIZE
    requires forall k | 0 <= k < |addrs| && k != j :: addrs[k] != addrs[j]
    ensures Put(m, addrs, vals, n)[addrs[j]] == vals[j]
  {
    if j < n - 1 {
      PutIs(m, addrs, vals, n - 1, j);
    }
  }

  // The eight samples of a line are different bytes.
  lemma RoundsAreDistinct(w: nat, h: nat, l: Line, j: nat, k: nat)
    requires Picture(w, h) && Fits(w, h, l) && j < 8 && k < 8 && j != k
    ensures Addresses(w, h, l)[j] != Addresses(w, h, l)[k]
  {
    var i, d := Distance(j), Distance(k);
    AddressOf(w, h, l, i);
    AddressOf(w, h, l, d);
    SampleIsOnPlane(w, h, l, i);
    SampleIsOnPlane(w, h, l, d);
    assert RoundOf(i) == j && RoundOf(d) == k;
    hide PixelAt, Addresses, RoundOf, Width, Kind, Picture, Fits;
    if Addresses(w, h, l)[j] == Addresses(w, h, l)[k] {
      PixelsAreDistinct(w, h, SideOf(l), BaseOf(l), RowOf(l, i), ColumnOf(l, i), SideOf(l), BaseOf(l), RowOf(l, d),
                        ColumnOf(l, d));
      assert false;
    }
  }

  // ---------- what a line does to the picture ----------

  // The filter of the line, on the samples of its plane around the edge.
  function FilteredLine(t: Tables, m: Store, w: nat, h: nat, slice: nat, l: Line): Samples
    requires Picture(w, h) && Fits(w, h, l) && slice < N_SLICE_THREADS
  {
    FilterBlock(Around(m, w, h, l), l.chroma, LineStrength(m, w, h, l), LineThresholds(t, m, w, h, slice, l))
  }

  // Each of the eight samples becomes what the filter says,
  lemma LineFilters(t: Tables, m: Store, w: nat, h: nat, slice: nat, l: Line, i: int)
    requires Picture(w, h) && Fits(w, h, l) && slice < N_SLICE_THREADS && -4 <= i < 4
    ensures PixelOf(FilterLine(t, m, w, h, slice, l), w, h, l, i)
            == ByteOf(SampleOf(FilteredLine(t, m, w, h, slice, l), i))
  {
    GatherIsAround(m, w, h, l);
    PixelOfIs(FilterLine(t, m, w, h, slice, l), w, h, l, i);
    hide Addresses, Around, FilterBlock, PixelOf, LineStrength, LineThresholds, Put, Picture, Fits, Values, SampleOf,
        RoundOf, ByteOf;
    PutOnLine(m, w, h, l, Values(Result(t, m, w, h, slice, l)), i);
    ValueOf(Result(t, m, w, h, slice, l), i);
  }

  lemma ValueOf(s: Samples, i: int)
    requires -4 <= i < 4
    ensures Values(s)[RoundOf(i)] == ByteOf(SampleOf(s, i))
  {
    if i >= 0 {
      assert RoundOf(i) == 2 * i;
    } else {
      assert RoundOf(i) == -1 - 2 * i;
    }
    hide RoundOf, ByteOf;
  }

  lemma PutOnLine(m: Store, w: nat, h: nat, l: Line, vals: seq<byte>, i: int)
    requires Picture(w, h) && Fits(w, h, l) && -4 <= i < 4 && |vals| == 8
    ensures Put(m, Addresses(w, h, l), vals, 8)[Addresses(w, h, l)[RoundOf(i)]] == vals[RoundOf(i)]
  {
    var addrs, j := Addresses(w, h, l), RoundOf(i);
    forall k | 0 <= k < 8 && k != j
      ensures addrs[k] != addrs[j]
    {
      RoundsAreDistinct(w, h, l, j, k);
    }
    hide Addresses, Put, Picture, Fits, RoundOf;
    PutIs(m, addrs, vals, 8, j);
  }

  // The line touches the sample at a row and a column of a plane.
  ghost predicate Touches(l: Line, side: nat, base: nat, r: nat, c: nat) {
    side == SideOf(l) && base == BaseOf(l) && exists i :: -4 <= i < 4 && RowOf(l, i) == r && ColumnOf(l, i) == c
  }

  // and every other sample of the three planes stays.
  lemma LineKeepsOthers(t: Tables, m: Store, w: nat, h: nat, slice: nat, l: Line, side: nat, base: nat, r: nat, c: nat)
    requires Picture(w, h) && Fits(w, h, l) && slice < N_SLICE_THREADS
    requires Kind(side, base) && r < Width(h, side) && c < Width(w, side) && !Touches(l, side, base, r, c)
    ensures Pixel(FilterLine(t, m, w, h, slice, l), w, h, side, base, r, c) == Pixel(m, w, h, side, base, r, c)
  {
    PixelInStore(w, h, side, base, r, c);
    var a := PixelAt(w, side, base, r, c);
    var addrs := Addresses(w, h, l);
    forall j | 0 <= j < 8
      ensures addrs[j] != a
    {
      NotTouched(w, h, l, side, base, r, c, j);
    }
    hide Addresses, PixelAt, Result, Touches, Kind, Width, Picture, Fits;
    PutFrame(m, addrs, Values(Result(t, m, w, h, slice, l)), 8, a);
  }

  lemma NotTouched(w: nat, h: nat, l: Line, side: nat, base: nat, r: nat, c: nat, j: nat)
    requires Picture(w, h) && Fits(w, h, l) && j < 8
    requires Kind(side, base) && r < Width(h, side) && c < Width(w, side) && !Touches(l, side, base, r, c)
    ensures Addresses(w, h, l)[j] != PixelAt(w, side, base, r, c)
  {
    var i := Distance(j);
    AddressOf(w, h, l, i);
    SampleIsOnPlane(w, h, l, i);
    assert RoundOf(i) == j;
    assert RowOf(l, i) == r && ColumnOf(l, i) == c ==> SideOf(l) != side || BaseOf(l) != base;
    hide PixelAt, Addresses, RoundOf, Width, Kind, Picture, Fits, SideOf, BaseOf, RowOf, ColumnOf, Touches;
    if Addresses(w, h, l)[j] == PixelAt(w, side, base, r, c) {
      PixelsAreDistinct(w, h, SideOf(l), BaseOf(l), RowOf(l, i), ColumnOf(l, i), side, base, r, c);
      assert false;
    }
  }

  // ---------- the macroblock across the edge ----------

  // The strength and the thresholds of a line take the macroblock to the left or above for the one
  // that its p samples are in.  They are in it exactly if the line is on a macroblock edge; on the
  // inner edges they are in the macroblock of the line itself.
  lemma NeighbourIff(w: nat, h: nat, l: Line)
    requires Picture(w, h) && Fits(w, h, l)
    ensures SampleAt(w, l, -1) / BLOCK == P(w, l)
            <==> (if l.vertical then l.x else l.y) % 16 < (if l.chroma then 2 else 1)
    ensures SampleAt(w, l, -1) / BLOCK == P(w, l) || SampleAt(w, l, -1) / BLOCK == Q(w, l) != P(w, l)
  {
    BlocksOfLine(w, h, l);
    if l.chroma {
      ChromaNeighbour(w, l);
    } else {
      LumaNeighbour(w, l);
    }
    hide Picture, Fits, P, Q, SampleAt;
  }

  lemma LumaNeighbour(w: nat, l: Line)
    requires Inner(l) && !l.chroma
    ensures SampleAt(w, l, -1) / BLOCK == if (if l.vertical then l.x else l.y) % 16 == 0 then P(w, l) else Q(w, l)
  {
    var x := if l.vertical then l.x - 1 else l.x;
    var y := if l.vertical then l.y else l.y - 1;
    OneBefore(if l.vertical then l.x else l.y);
    SameMb(w, x, y, l.x, l.y);
    SameMb(w, x, y, if l.vertical then l.x - 16 else l.x, if l.vertical then l.y else l.y - 16);
    LumaPlaceIs(x, y);
    hide LumaPlace, Mb;
    Split(Mb(w, x, y), LumaPlace(x, y));
  }

  lemma ChromaNeighbour(w: nat, l: Line)
    requires Inner(l) && l.chroma && l.plane < 2
    ensures SampleAt(w, l, -1) / BLOCK == if (if l.vertical then l.x else l.y) % 16 < 2 then P(w, l) else Q(w, l)
  {
    var x := if l.vertical then l.x / 2 - 1 else l.x / 2;
    var y := if l.vertical then l.y / 2 else l.y / 2 - 1;
    ChromaMbBefore(w, l, x, y);
    ChromaPlaceIs(l.plane, x, y);
    hide ChromaPlace, ChromaMb, Mb, P, Q;
    Split(ChromaMb(w, x, y), ChromaPlace(l.plane, x, y));
  }

  lemma ChromaMbBefore(w: nat, l: Line, x: nat, y: nat)
    requires Inner(l) && x == (if l.vertical then l.x / 2 - 1 else l.x / 2)
    requires y == if l.vertical then l.y / 2 else l.y / 2 - 1
    ensures ChromaMb(w, x, y) == if (if l.vertical then l.x else l.y) % 16 < 2 then P(w, l) else Q(w, l)
  {
    OneBefore(if l.vertical then l.x else l.y);
    HalfRow(if l.vertical then l.y else l.x);
    SameChromaMb(w, x, y, l.x, l.y);
    SameChromaMb(w, x, y, if l.vertical then l.x - 16 else l.x, if l.vertical then l.y else l.y - 16);
    hide ChromaMb, Mb;
  }

  // The second vertical edge of macroblock 9 of a picture of 8 by 6: its p samples are in macroblock 9,
  // and macroblock 8 is taken for them.
  lemma InnerEdgeNeighbour()
    ensures var l := Line(true, false, 0, 20, 16);
      Fits(8, 6, l) && SampleAt(8, l, -1) / BLOCK == 9 && P(8, l) == 8
  {
    LumaNeighbour(8, Line(true, false, 0, 20, 16));
  }

  lemma OneBefore(x: nat)
    requires 16 <= x
    ensures (x - 16) / 16 == x / 16 - 1
    ensures (x - 1) / 16 == if x % 16 == 0 then x / 16 - 1 else x / 16
    ensures (x / 2 - 1) / 8 == if x % 16 < 2 then x / 16 - 1 else x / 16
  {
  }

  // ---------- boundary strength 4 ----------

  predicate OnMacroblockEdge(l: Line) { if l.vertical then l.x % 16 == 0 else l.y % 16 == 0 }

  predicate NextToIntra(m: Store, w: nat, h: nat, l: Line)
    requires Picture(w, h) && Fits(w, h, l)
  {
    InStore(w, h, l, 0);
    IsIntra(At(m, Q(w, l), MODE)) || IsIntra(At(m, P(w, l), MODE))
  }

  // Section 8.7.2.1 of ITU-T H.264 gives strength 4 to the macroblock edges next to an intra
  // macroblock.  get_bS looks at the column of the sample for both directions, and meets that rule
  // for a line exactly if the line is vertical, or at a column and a row that are both on macroblock
  // edges or both inside, or not next to an intra macroblock.
  lemma StrongestEdgeIff(m: Store, w: nat, h: nat, l: Line)
    requires Picture(w, h) && Fits(w, h, l)
    ensures (LineStrength(m, w, h, l) == 4 <==> OnMacroblockEdge(l) && NextToIntra(m, w, h, l))
            <==> (l.vertical || (l.x % 16 == 0 <==> l.y % 16 == 0) || !NextToIntra(m, w, h, l))
  {
    InStore(w, h, l, 0);
    hide Mv, Fits, Picture, Q, P, Sub;
  }

  // The upper edge of macroblock 9 of a picture of 8 by 6, which is intra, at its second column.
  lemma StrongestEdgeMissed()
    ensures var m, l := seq(SIZE, i => 0)[0x13D2 := 5], Line(false, false, 0, 17, 16);
      && Fits(8, 6, l) && OnMacroblockEdge(l) && NextToIntra(m, 8, 6, l) && LineStrength(m, 8, 6, l) == 3
  {
    var m: Store, l := seq(SIZE, i => 0)[0x13D2 := 5], Line(false, false, 0, 17, 16);
    assert Q(8, l) == 9 && P(8, l) == 1 && At(m, 9, MODE) == 5;
    hide Mv, Q, P, Sub;
  }
}

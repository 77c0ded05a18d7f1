/**
 What the loops over the chroma edges reach.  They count in full coordinates, which the filter
 halves: a macroblock has eight lines and columns of a chroma plane, and its edges are filtered on
 the first four of them only, each twice, at the places 0 and 2.
 */
module DbfChroma {
  import opened Bytes
  import opened DbfFilter
  import opened DbfStore
  import opened DbfSlices
  import opened DbfTransfer
  import opened DbfPictures

  // ---------- the loops ----------

  // On the plane: the row of a vertical line or the column of a horizontal one, and where its edge is.
  function LinePlace(l: Line): nat { if l.vertical then l.y / 2 else l.x / 2 }

  function EdgePlace(l: Line): nat { if l.vertical then l.x / 2 else l.y / 2 }

  // The first row and the first column of a macroblock on a chroma plane.
  function FirstRow(w: nat, mb: nat): nat
    requires w > 0
  {
    Row(w, mb) / 2
  }

  function FirstColumn(w: nat, mb: nat): nat
    requires w > 0
  {
    Column(w, mb) / 2
  }

  lemma Halved(k: nat, j: nat)
    ensures (k * 16 + j) / 2 == k * 8 + j / 2
  {
  }

  // Round n of the loops: the edges are two apart, and two lines in full coordinates are one.
  lemma ChromaLineAt(w: nat, vertical: bool, plane: nat, mb: nat, n: nat)
    requires w > 0 && n < 16
    ensures var l := ChromaLines(w, vertical, plane, mb)[n];
      && l.vertical == vertical && l.chroma && l.plane == plane
      && EdgePlace(l) == (if vertical then FirstColumn(w, mb) else FirstRow(w, mb)) + n / 8 * 2
      && LinePlace(l) == (if vertical then FirstRow(w, mb) else FirstColumn(w, mb)) + n % 8 / 2
  {
    Halved(mb % w, 0);
    Halved(mb / w, 0);
    Halved(mb % w, n / 8 * 4);
    Halved(mb / w, n / 8 * 4);
    Halved(mb % w, n % 8);
    Halved(mb / w, n % 8);
  }

  // The vertical edges of a macroblock are filtered on the first four of its eight rows,
  lemma FilteredRowsIff(w: nat, h: nat, plane: nat, mb: nat, r: nat)
    requires Picture(w, h) && mb < w * h && r < 8
    ensures (exists n | 0 <= n < 16 :: ChromaLines(w, true, plane, mb)[n].y / 2 == FirstRow(w, mb) + r) <==> r < 4
  {
    forall n | 0 <= n < 16
      ensures ChromaLines(w, true, plane, mb)[n].y / 2 == FirstRow(w, mb) + n % 8 / 2
    {
      ChromaLineAt(w, true, plane, mb, n);
    }
    if r < 4 {
      assert ChromaLines(w, true, plane, mb)[2 * r].y / 2 == FirstRow(w, mb) + r;
    }
  }

  // and the horizontal ones on the first four of its eight columns.
  lemma FilteredColumnsIff(w: nat, h: nat, plane: nat, mb: nat, c: nat)
    requires Picture(w, h) && mb < w * h && c < 8
    ensures (exists n | 0 <= n < 16 :: ChromaLines(w, false, plane, mb)[n].x / 2 == FirstColumn(w, mb) + c) <==> c < 4
  {
    forall n | 0 <= n < 16
      ensures ChromaLines(w, false, plane, mb)[n].x / 2 == FirstColumn(w, mb) + n % 8 / 2
    {
      ChromaLineAt(w, false, plane, mb, n);
    }
    if c < 4 {
      assert ChromaLines(w, false, plane, mb)[2 * c].x / 2 == FirstColumn(w, mb) + c;
    }
  }

  // The rounds that filter one line of one edge.
  function Rounds(w: nat, vertical: bool, plane: nat, mb: nat, e: nat, k: nat): set<nat>
    requires w > 0
  {
    set n: nat | n < 16
      && EdgePlace(ChromaLines(w, vertical, plane, mb)[n])
         == (if vertical then FirstColumn(w, mb) else FirstRow(w, mb)) + e
      && LinePlace(ChromaLines(w, vertical, plane, mb)[n])
         == (if vertical then FirstRow(w, mb) else FirstColumn(w, mb)) + k
  }

  // The edges are at 0 and at 2 (section 8.7 of ITU-T H.264 has them at 0 and at 4), and each of the
  // four lines of an edge is filtered twice, one round after the other.
  lemma EachLineTwice(w: nat, vertical: bool, plane: nat, mb: nat, e: nat, k: nat)
    requires w > 0
    ensures Rounds(w, vertical, plane, mb, e, k)
            == if (e == 0 || e == 2) && k < 4 then {4 * e + 2 * k, 4 * e + 2 * k + 1} else {}
    ensures |Rounds(w, vertical, plane, mb, e, k)| == if (e == 0 || e == 2) && k < 4 then 2 else 0
  {
    var rounds := Rounds(w, vertical, plane, mb, e, k);
    forall n: nat | n < 16
      ensures n in rounds <==> RoundOfLine(n, e, k)
    {
      ChromaLineAt(w, vertical, plane, mb, n);
      RoundIs(n, e, k);
    }
    assert forall n | n in rounds :: n < 16;
    hide Rounds, ChromaLines;
    if (e == 0 || e == 2) && k < 4 {
      assert rounds == {4 * e + 2 * k, 4 * e + 2 * k + 1};
    } else {
      assert rounds == {};
    }
  }

  predicate RoundOfLine(n: nat, e: nat, k: nat) {
    (e == 0 || e == 2) && k < 4 && (n == 4 * e + 2 * k || n == 4 * e + 2 * k + 1)
  }

  lemma RoundIs(n: nat, e: nat, k: nat)
    requires n < 16
    ensures n / 8 * 2 == e && n % 8 / 2 == k <==> RoundOfLine(n, e, k)
  {
    if n < 8 {
      assert n / 8 == 0 && n % 8 == n;
    } else {
      assert n / 8 == 1 && n % 8 == n - 8;
    }
  }

  // ---------- the samples that a line may change ----------

  // A chroma line changes the two samples next to its edge at most.
  predicate Reaches(l: Line, base: nat, r: nat, c: nat) {
    l.chroma && base == BaseOf(l) &&
    if l.vertical then r == LinePlace(l) && (c == EdgePlace(l) || c + 1 == EdgePlace(l))
    else c == LinePlace(l) && (r == EdgePlace(l) || r + 1 == EdgePlace(l))
  }

  lemma ChromaLineKeeps(t: Tables, m: Store, w: nat, h: nat, slice: nat, l: Line, base: nat, r: nat, c: nat)
    requires Picture(w, h) && Fits(w, h, l) && slice < N_SLICE_THREADS
    requires Kind(8, base) && r < Width(h, 8) && c < Width(w, 8) && !Reaches(l, base, r, c)
    ensures Pixel(FilterLine(t, m, w, h, slice, l), w, h, 8, base, r, c) == Pixel(m, w, h, 8, base, r, c)
  {
    if Touches(l, 8, base, r, c) {
      var i :| -4 <= i < 4 && RowOf(l, i) == r && ColumnOf(l, i) == c;
      assert i != -1 && i != 0;
      LineFilters(t, m, w, h, slice, l, i);
      OuterSampleStays(t, m, w, h, slice, l, i);
      hide FilterLine, FilteredLine, Pixel, PixelAt;
    } else {
      LineKeepsOthers(t, m, w, h, slice, l, 8, base, r, c);
    }
  }

  lemma OuterSampleStays(t: Tables, m: Store, w: nat, h: nat, slice: nat, l: Line, i: int)
    requires Picture(w, h) && Fits(w, h, l) && slice < N_SLICE_THREADS && l.chroma && -4 <= i < 4 && i != -1 && i != 0
    ensures ByteOf(SampleOf(FilteredLine(t, m, w, h, slice, l), i)) == PixelOf(m, w, h, l, i)
  {
    var s := Around(m, w, h, l);
    FilterKeeps(s, true, LineStrength(m, w, h, l), LineThresholds(t, m, w, h, slice, l));
    hide FilterBlock, LineStrength, LineThresholds, PixelOf, Picture, Fits, ByteOf;
    assert SampleOf(FilteredLine(t, m, w, h, slice, l), i) == SampleOf(s, i);
    SampleOfAround(m, w, h, l, i);
  }

  lemma SampleOfAround(m: Store, w: nat, h: nat, l: Line, i: int)
    requires Picture(w, h) && Fits(w, h, l) && -4 <= i < 4
    ensures ByteOf(SampleOf(Around(m, w, h, l), i)) == PixelOf(m, w, h, l, i)
  {
    StoredAgain(PixelOf(m, w, h, l, i));
    hide PixelOf, Picture, Fits, ByteOf;
  }

  lemma StoredAgain(b: byte)
    ensures ByteOf(b as int) == b
  {
  }

  // A list of lines none of which reaches a sample.
  predicate AllMiss(ls: seq<Line>, base: nat, r: nat, c: nat) {
    ls == [] || (AllMiss(ls[..|ls| - 1], base, r, c) && !Reaches(ls[|ls| - 1], base, r, c))
  }

  lemma {:induction false} EachMiss(ls: seq<Line>, base: nat, r: nat, c: nat)
    requires forall n | 0 <= n < |ls| :: !Reaches(ls[n], base, r, c)
    ensures AllMiss(ls, base, r, c)
  {
    if ls != [] {
      EachMiss(ls[..|ls| - 1], base, r, c);
    }
  }

  lemma {:induction false} MissConcat(p: seq<Line>, q: seq<Line>, base: nat, r: nat, c: nat)
    requires AllMiss(p, base, r, c) && AllMiss(q, base, r, c)
    ensures AllMiss(p + q, base, r, c)
  {
    hide Reaches;
    if q == [] {
      assert p + q == p;
    } else {
      MissConcat(p, q[..|q| - 1], base, r, c);
      assert (p + q)[..|p + q| - 1] == p + q[..|q| - 1];
    }
  }

  lemma {:induction false} MissedStays(t: Tables, m: Store, w: nat, h: nat, slice: nat, ls: seq<Line>,
                                       base: nat, r: nat, c: nat)
    requires Picture(w, h) && slice < N_SLICE_THREADS && AllFit(w, h, ls) && AllMiss(ls, base, r, c)
    requires Kind(8, base) && r < Width(h, 8) && c < Width(w, 8)
    ensures Pixel(FilterAll(t, m, w, h, slice, ls), w, h, 8, base, r, c) == Pixel(m, w, h, 8, base, r, c)
    decreases |ls|
  {
    hide FilterLine, Pixel, Reaches, Fits, Picture, Kind;
    if ls != [] {
      var init := ls[..|ls| - 1];
      MissedStays(t, m, w, h, slice, init, base, r, c);
      ChromaLineKeeps(t, FilterAll(t, m, w, h, slice, init), w, h, slice, ls[|ls| - 1], base, r, c);
    }
  }

  // ---------- the edges of a macroblock ----------

  // Where line and edge places of the rounds lead.
  lemma PlacesOfRounds(line: nat, edge: nat, x: nat, y: nat)
    ensures (exists n: nat :: n < 16 && HitsPlaces(n, line, edge, x, y))
            <==> line <= x < line + 4 && edge <= y + 1 < edge + 4
  {
    if line <= x < line + 4 && edge <= y + 1 < edge + 4 {
      var e := if y + 1 < edge + 2 then 0 else 2;
      RoundIs(4 * e + 2 * (x - line), e, x - line);
      assert HitsPlaces(4 * e + 2 * (x - line), line, edge, x, y);
    }
  }

  predicate HitsPlaces(n: nat, line: nat, edge: nat, x: nat, y: nat) {
    x == line + n % 8 / 2 && edge + n / 8 * 2 <= y + 1 <= edge + n / 8 * 2 + 1
  }

  // The samples that the edges of a macroblock reach: on the first four of its lines, the two at each
  // edge.
  lemma EdgesReach(w: nat, vertical: bool, plane: nat, mb: nat, r: nat, c: nat)
    requires w > 0
    ensures (exists n: nat :: n < 16 && Reaches(ChromaLines(w, vertical, plane, mb)[n], CHROMA + 64 * plane, r, c))
            <==> if vertical
                 then FirstRow(w, mb) <= r < FirstRow(w, mb) + 4 && FirstColumn(w, mb) <= c + 1 < FirstColumn(w, mb) + 4
                 else FirstColumn(w, mb) <= c < FirstColumn(w, mb) + 4 && FirstRow(w, mb) <= r + 1 < FirstRow(w, mb) + 4
  {
    var ls, base := ChromaLines(w, vertical, plane, mb), CHROMA + 64 * plane;
    var line := if vertical then FirstRow(w, mb) else FirstColumn(w, mb);
    var edge := if vertical then FirstColumn(w, mb) else FirstRow(w, mb);
    var x, y := if vertical then r else c, if vertical then c else r;
    forall n: nat | n < 16
      ensures Reaches(ls[n], base, r, c) <==> HitsPlaces(n, line, edge, x, y)
    {
      ChromaLineAt(w, vertical, plane, mb, n);
      hide ChromaLines, LinePlace, EdgePlace, FirstRow, FirstColumn;
    }
    hide ChromaLines, Reaches, HitsPlaces, FirstRow, FirstColumn;
    PlacesOfRounds(line, edge, x, y);
    if n: nat :| n < 16 && HitsPlaces(n, line, edge, x, y) {
      assert Reaches(ls[n], base, r, c);
    }
  }

  // Whatever the store holds, the vertical edges of a macroblock leave its rows 4 to 7 as they are,
  // and its horizontal edges its columns 4 to 7.
  lemma OtherLinesStay(t: Tables, m: Store, w: nat, h: nat, slice: nat, vertical: bool, plane: nat, mb: nat,
                       ls: seq<Line>, base: nat, r: nat, c: nat)
    requires Picture(w, h) && slice < N_SLICE_THREADS && ls == ChromaLines(w, vertical, plane, mb) && AllFit(w, h, ls)
    requires Kind(8, base) && r < Width(h, 8) && c < Width(w, 8) && base == CHROMA + 64 * plane
    requires if vertical then FirstRow(w, mb) + 4 <= r < FirstRow(w, mb) + 8
             else FirstColumn(w, mb) + 4 <= c < FirstColumn(w, mb) + 8
    ensures Pixel(FilterAll(t, m, w, h, slice, ls), w, h, 8, base, r, c) == Pixel(m, w, h, 8, base, r, c)
  {
    EdgesReach(w, vertical, plane, mb, r, c);
    hide FilterAll, Pixel, ChromaLines, Reaches, AllFit, AllMiss;
    EachMiss(ls, base, r, c);
    MissedStays(t, m, w, h, slice, ls, base, r, c);
  }

  // ---------- whole slices ----------

  // The samples that any chroma edge of any macroblock may change.
  predicate Reachable(w: nat, h: nat, r: nat, c: nat) {
    || (r % 8 < 4 && (c + 1) % 8 < 4 && c + 1 < Width(w, 8))
    || (c % 8 < 4 && (r + 1) % 8 < 4 && r + 1 < Width(h, 8))
  }

  lemma SmallRest(k: nat, x: nat)
    requires 8 * k <= x < 8 * k + 4
    ensures x % 8 < 4
  {
  }

  // The samples next to an edge of some macroblock's loops are all the reachable ones.
  lemma ReachableIff(w: nat, h: nat, plane: nat, r: nat, c: nat)
    requires Picture(w, h) && plane < 2 && r < Width(h, 8) && c < Width(w, 8)
    ensures Reachable(w, h, r, c) <==> exists mb: nat, vertical: bool, n: nat ::
              mb < w * h && n < 16 && Reaches(ChromaLines(w, vertical, plane, mb)[n], CHROMA + 64 * plane, r, c)
  {
    if Reachable(w, h, r, c) {
      var vertical := r % 8 < 4 && (c + 1) % 8 < 4 && c + 1 < Width(w, 8);
      var row, column := (if vertical then r else r + 1) / 8, (if vertical then c + 1 else c) / 8;
      var mb := row * w + column;
      RasterBound(row, column, w, h);
      RasterIndex(mb, w, row, column);
      Halved(row, 0);
      Halved(column, 0);
      EdgesReach(w, vertical, plane, mb, r, c);
      hide ChromaLines, Reaches;
      var n: nat :| n < 16 && Reaches(ChromaLines(w, vertical, plane, mb)[n], CHROMA + 64 * plane, r, c);
    }
    forall mb: nat, vertical: bool, n: nat | mb < w * h && n < 16 &&
      Reaches(ChromaLines(w, vertical, plane, mb)[n], CHROMA + 64 * plane, r, c)
      ensures Reachable(w, h, r, c)
    {
      ChromaLineAt(w, vertical, plane, mb, n);
      ChromaLineIsNarrow(w, h, vertical, plane, mb, n, r, c);
    }
  }

  lemma ChromaLinesMiss(w: nat, h: nat, vertical: bool, plane: nat, mb: nat, base: nat, r: nat, c: nat)
    requires Picture(w, h) && mb < w * h && plane < 2 && !Reachable(w, h, r, c)
    ensures AllMiss(ChromaLines(w, vertical, plane, mb), base, r, c)
  {
    forall n | 0 <= n < 16
      ensures !Reaches(ChromaLines(w, vertical, plane, mb)[n], base, r, c)
    {
      ChromaLineAt(w, vertical, plane, mb, n);
      ChromaLineIsNarrow(w, h, vertical, plane, mb, n, r, c);
    }
    EachMiss(ChromaLines(w, vertical, plane, mb), base, r, c);
  }

  lemma ChromaLineIsNarrow(w: nat, h: nat, vertical: bool, plane: nat, mb: nat, n: nat, r: nat, c: nat)
    requires Picture(w, h) && mb < w * h && n < 16
    ensures var l := ChromaLines(w, vertical, plane, mb)[n];
      Reaches(l, BaseOf(l), r, c) ==> Reachable(w, h, r, c)
  {
    var l := ChromaLines(w, vertical, plane, mb)[n];
    ChromaLineAt(w, vertical, plane, mb, n);
    Halved(mb % w, 0);
    Halved(mb / w, 0);
    RasterRow(mb, w, h);
    hide ChromaLines, LinePlace, EdgePlace, Picture;
    if Reaches(l, BaseOf(l), r, c) {
      NarrowPlace(w, h, mb / w, mb % w, vertical, n, LinePlace(l), EdgePlace(l), r, c);
    }
  }

  lemma NarrowPlace(w: nat, h: nat, row: nat, column: nat, vertical: bool, n: nat, line: nat, edge: nat,
                    r: nat, c: nat)
    requires row < h && column < w && n < 16
    requires edge == (if vertical then column else row) * 8 + n / 8 * 2
    requires line == (if vertical then row else column) * 8 + n % 8 / 2
    requires if vertical then r == line && edge <= c + 1 <= edge + 1 else c == line && edge <= r + 1 <= edge + 1
    ensures Reachable(w, h, r, c)
  {
    assert n / 8 <= 1 && n % 8 / 2 <= 3;
    if vertical {
      SmallRest(row, r);
      SmallRest(column, c + 1);
    } else {
      SmallRest(column, c);
      SmallRest(row, r + 1);
    }
  }

  lemma LumaLinesMiss(w: nat, vertical: bool, mb: nat, base: nat, r: nat, c: nat)
    requires w > 0
    ensures AllMiss(LumaLines(w, vertical, mb), base, r, c)
  {
    EachMiss(LumaLines(w, vertical, mb), base, r, c);
  }

  lemma PlaneLinesMiss(w: nat, h: nat, offset: nat, mb: nat, chroma: bool, plane: nat, base: nat, r: nat, c: nat)
    requires Picture(w, h) && mb < w * h && plane < 2 && !Reachable(w, h, r, c)
    ensures AllMiss(PlaneLines(w, offset, mb, chroma, plane), base, r, c)
  {
    ChromaLinesMiss(w, h, true, plane, mb, base, r, c);
    ChromaLinesMiss(w, h, false, plane, mb, base, r, c);
    LumaLinesMiss(w, true, mb, base, r, c);
    LumaLinesMiss(w, false, mb, base, r, c);
    hide Reachable, Reaches, ChromaLines, LumaLines, SkipLeft, SkipTop, Picture;
    MissConcat(Unless(SkipLeft(w, offset, mb), Edges(w, true, chroma, plane, mb)),
               Unless(SkipTop(w, offset, mb), Edges(w, false, chroma, plane, mb)), base, r, c);
  }

  lemma MbLinesMiss(w: nat, h: nat, offset: nat, mb: nat, base: nat, r: nat, c: nat)
    requires Picture(w, h) && mb < w * h && !Reachable(w, h, r, c)
    ensures AllMiss(MbLines(w, offset, mb), base, r, c)
  {
    PlaneLinesMiss(w, h, offset, mb, false, 0, base, r, c);
    PlaneLinesMiss(w, h, offset, mb, true, 0, base, r, c);
    PlaneLinesMiss(w, h, offset, mb, true, 1, base, r, c);
    hide Reachable, Reaches, PlaneLines, Picture, AllMiss;
    var p, q, s := PlaneLines(w, offset, mb, false, 0), PlaneLines(w, offset, mb, true, 0), PlaneLines(w, offset, mb,
        true, 1);
    MissConcat(p, q, base, r, c);
    MissConcat(p + q, s, base, r, c);
  }

  lemma {:induction false} SliceLinesMiss(w: nat, h: nat, offset: nat, length: nat, base: nat, r: nat, c: nat)
    requires Picture(w, h) && offset + length <= w * h && !Reachable(w, h, r, c)
    ensures AllMiss(SliceLines(w, offset, length), base, r, c)
  {
    hide Reachable, Reaches, MbLines, Picture;
    if length > 0 {
      SliceLinesMiss(w, h, offset, length - 1, base, r, c);
      MbLinesMiss(w, h, offset, offset + length - 1, base, r, c);
      MissConcat(SliceLines(w, offset, length - 1), MbLines(w, offset, offset + length - 1), base, r, c);
    }
  }

  // No slice ever changes a chroma sample that is not reachable, in particular none of the sixteen in
  // the last rows and columns of a macroblock, at rows and columns 4 to 7.
  lemma UnreachableStays(t: Tables, m: Store, slice: nat, base: nat, r: nat, c: nat)
    requires Ready(m, slice) && Kind(8, base)
    requires !Reachable(WidthInMbs(Format(m)), HeightInMbs(Format(m)), r, c)
    requires r < Width(HeightInMbs(Format(m)), 8) && c < Width(WidthInMbs(Format(m)), 8)
    ensures var w, h := WidthInMbs(Format(m)), HeightInMbs(Format(m));
      Picture(w, h) && Pixel(FilterSlice(t, m, slice), w, h, 8, base, r, c) == Pixel(m, w, h, 8, base, r, c)
  {
    var w, h := WidthInMbs(Format(m)), HeightInMbs(Format(m));
    SliceLinesMiss(w, h, Offset(m, slice), Length(m, slice), base, r, c);
    SliceLinesAreWithin(w, h, Offset(m, slice), Length(m, slice), w * h);
    MissedStays(t, m, w, h, slice, SliceLines(w, Offset(m, slice), Length(m, slice)), base, r, c);
  }

  // ---------- a picture that shows it ----------

  // A picture of 8 by 6 macroblocks, all samples 0 but two in the first column of macroblock 9, at
  // its rows 0 and 4; the macroblock is intra.
  function Spotted(): (m: Store)
    ensures forall a | 0 <= a < SIZE :: m[a] == if a == 0x1300 || a == 0x1320 then 8 else if a == 0x13D2 then 5 else 0
  {
    seq(SIZE, i => 0)[0x1300 := 8][0x1320 := 8][0x13D2 := 5]
  }

  function AnyTables(): Tables { (a, b, s) => Thresholds(255, 18, 1) }

  // The first line of its left edge, next to row 8 of the plane.
  const LEFT_EDGE: Line := Line(true, true, 0, 16, 16)

  lemma FirstRound(w: nat, plane: nat, mb: nat)
    requires w > 0
    ensures ChromaLines(w, true, plane, mb)[0] == Line(true, true, plane, Column(w, mb), Row(w, mb))
  {
  }

  lemma LeftEdgeFits()
    ensures Fits(8, 6, LEFT_EDGE) && ChromaLines(8, true, 0, 9)[0] == LEFT_EDGE
    ensures AllFit(8, 6, ChromaLines(8, true, 0, 9)) && FirstRow(8, 9) == 8
  {
    hide ChromaLines, AllWithin, AllFit;
    FirstRound(8, 0, 9);
    ChromaLinesAreWithin(8, 6, 0, 48, 9, true, 0);
    WithinFits(8, 6, ChromaLines(8, true, 0, 9), 0, 48);
    assert 9 % 8 == 1 && 9 / 8 == 1;
  }

  // The samples of that line and of the one at row 12.
  lemma SpottedPixel(r: nat, i: int)
    requires (r == 8 || r == 12) && -4 <= i < 4
    ensures Pixel(Spotted(), 8, 6, 8, CHROMA, r, 8 + i) == if i == 0 then 8 else 0
  {
    assert r / 8 == 1 && (8 + i) / 8 == (if i < 0 then 0 else 1);
    assert r % 8 == r - 8 && (8 + i) % 8 == (if i < 0 then 8 + i else i);
    PixelInStore(8, 6, 8, CHROMA, r, 8 + i);
    hide Spotted;
  }

  lemma SpottedAround()
    requires Fits(8, 6, LEFT_EDGE)
    ensures Around(Spotted(), 8, 6, LEFT_EDGE) == Samples(0, 0, 0, 0, 8, 0, 0, 0)
  {
    forall i | -4 <= i < 4
      ensures PixelOf(Spotted(), 8, 6, LEFT_EDGE, i) == if i == 0 then 8 else 0
    {
      SpottedPixel(8, i);
      hide Spotted, Pixel;
    }
    SpotAround(Spotted(), 8, 6, LEFT_EDGE);
    hide Spotted, PixelOf, Around;
  }

  lemma SpotAround(m: Store, w: nat, h: nat, l: Line)
    requires Picture(w, h) && Fits(w, h, l)
    requires forall i | -4 <= i < 4 :: PixelOf(m, w, h, l, i) == if i == 0 then 8 else 0
    ensures Around(m, w, h, l) == Samples(0, 0, 0, 0, 8, 0, 0, 0)
  {
    hide PixelOf, Picture, Fits;
  }

  lemma SpottedStrength()
    requires Fits(8, 6, LEFT_EDGE)
    ensures LineStrength(Spotted(), 8, 6, LEFT_EDGE) == 4
    ensures LineThresholds(AnyTables(), Spotted(), 8, 6, 0, LEFT_EDGE) == Thresholds(255, 18, 1)
  {
    assert Q(8, LEFT_EDGE) == 9 && P(8, LEFT_EDGE) == 8;
    hide Spotted, Mv, P, Q;
  }

  lemma SpotIsSmoothed(t: Tables, m: Store, w: nat, h: nat, slice: nat, l: Line)
    requires Picture(w, h) && Fits(w, h, l) && slice < N_SLICE_THREADS && l.chroma
    requires Around(m, w, h, l) == Samples(0, 0, 0, 0, 8, 0, 0, 0) && LineStrength(m, w, h, l) == 4
    requires LineThresholds(t, m, w, h, slice, l) == Thresholds(255, 18, 1)
    ensures PixelOf(FilterLine(t, m, w, h, slice, l), w, h, l, 0) == ByteOf(2)
  {
    LineFilters(t, m, w, h, slice, l, 0);
    SpotFilter();
    FilteredSpot(t, m, w, h, slice, l);
    hide *;
  }

  lemma FilteredSpot(t: Tables, m: Store, w: nat, h: nat, slice: nat, l: Line)
    requires Picture(w, h) && Fits(w, h, l) && slice < N_SLICE_THREADS && l.chroma
    ensures SampleOf(FilteredLine(t, m, w, h, slice, l), 0)
            == FilterBlock(Around(m, w, h, l), true, LineStrength(m, w, h, l), LineThresholds(t, m, w, h, slice, l)).q0
  {
    hide FilterBlock, Around, LineStrength, LineThresholds, Picture, Fits;
  }

  lemma SpotFilter()
    ensures FilterBlock(Samples(0, 0, 0, 0, 8, 0, 0, 0), true, 4, Thresholds(255, 18, 1)).q0 == 2
  {
    PlainOfSpot(Samples(0, 0, 0, 0, 8, 0, 0, 0), Thresholds(255, 18, 1));
  }

  lemma PlainOfSpot(s: Samples, t: Thresholds)
    requires Filtered(s, 4, t)
    ensures FilterBlock(s, true, 4, t).q0 == Plain(s.q1, s.q0, s.p1)
  {
    NothingWraps(s.q3, s.q2, s.q1, s.q0, s.p0, s.p1);
    hide Byte, Weak;
  }

  // The first line smooths the sample at row 8,
  lemma RowZeroIsSmoothed()
    ensures Fits(8, 6, LEFT_EDGE) && ChromaLines(8, true, 0, 9)[0] == LEFT_EDGE
    ensures PixelOf(Spotted(), 8, 6, LEFT_EDGE, 0) == 8
    ensures PixelOf(FilterLine(AnyTables(), Spotted(), 8, 6, 0, LEFT_EDGE), 8, 6, LEFT_EDGE, 0) == 2
  {
    LeftEdgeFits();
    SpottedPixel(8, 0);
    SpottedAround();
    SpottedStrength();
    hide Spotted, ChromaLines, FilterLine, Around, LineStrength, LineThresholds, Pixel, Fits;
    SpotIsSmoothed(AnyTables(), Spotted(), 8, 6, 0, LEFT_EDGE);
    assert ByteOf(2) == 2;
  }

  // and all lines of both vertical edges leave the one at row 12, though its neighbours are the same.
  lemma RowFourIsSkipped()
    ensures AllFit(8, 6, ChromaLines(8, true, 0, 9)) && Pixel(Spotted(), 8, 6, 8, CHROMA, 12, 8) == 8
    ensures var filtered := FilterAll(AnyTables(), Spotted(), 8, 6, 0, ChromaLines(8, true, 0, 9));
      Pixel(filtered, 8, 6, 8, CHROMA, 12, 8) == 8
  {
    LeftEdgeFits();
    SpottedPixel(12, 0);
    hide Spotted, ChromaLines, AllFit, FilterAll, Pixel;
    OtherLinesStay(AnyTables(), Spotted(), 8, 6, 0, true, 0, 9, ChromaLines(8, true, 0, 9), CHROMA, 12, 8);
  }
}

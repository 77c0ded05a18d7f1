/**
 What the filter reads beside the samples, and in which order it works: the boundary strengths by
 what the macroblocks hold, the indices of the tables, the numbers in the store, the order of the
 samples in it, and the lines of a macroblock.
 */
module DbfLayout {
  import opened Bytes
  import opened DbfFilter
  import opened DbfStore
  import opened DbfSlices
  import opened DbfTransfer

  // ---------- boundary strengths ----------

  predicate Intra(m: Store, mb: nat)
    requires mb < REGISTERS / BLOCK
  {
    5 <= m[0x200 * mb + 0x1D2] as int <= 30
  }

  predicate Coefficients(m: Store, mb: nat, sub: nat)
    requires mb < REGISTERS / BLOCK && sub < 16
  {
    m[0x200 * mb + 0x1C0 + sub] != 0
  }

  // The motion of two blocks differs by a whole luma sample or more; the vectors count quarters.
  predicate Moves(m: Store, q: nat, p: nat, sub: nat)
    requires q < REGISTERS / BLOCK && p < REGISTERS / BLOCK && sub < 16
  {
    || !(-4 <= Mv(m, q, 0x180, sub) - Mv(m, p, 0x180, sub) <= 4)
    || !(-4 <= Mv(m, q, 0x1A0, sub) - Mv(m, p, 0x1A0, sub) <= 4)
  }

  lemma ZeroByte(b: byte)
    ensures b == 0 <==> b as int == 0
  {
  }

  // 4 on the columns of macroblock edges with an intra macroblock at either side, 3 elsewhere in an
  // intra macroblock; then 2 for coefficients in either block, 1 for motion, and 0.
  lemma StrengthIff(m: Store, x: nat, q: nat, p: nat, sub: nat)
    requires q < REGISTERS / BLOCK && p < REGISTERS / BLOCK && sub < 16
    ensures var s := Strength(m, x, q, p, sub);
      && (s == 4 <==> x % 16 == 0 && (Intra(m, q) || Intra(m, p)))
      && (s == 3 <==> x % 16 != 0 && Intra(m, q))
      && (s >= 3 <==> Intra(m, q) || (x % 16 == 0 && Intra(m, p)))
      && (s == 2 <==> s < 3 && (Coefficients(m, q, sub) || Coefficients(m, p, sub)))
      && (s == 1 <==> s < 2 && Moves(m, q, p, sub))
  {
    hide Mv;
    ZeroByte(m[0x200 * q + 0x1C0 + sub]);
    ZeroByte(m[0x200 * p + 0x1C0 + sub]);
  }

  // ---------- numbers in the store ----------

  // A motion vector of sixteen bits, the low byte first.
  lemma VectorIs(m: Store, mb: nat, base: nat, sub: nat, v: int)
    requires mb < REGISTERS / BLOCK && base + 2 * sub + 1 < BLOCK && -0x8000 <= v < 0x8000
    requires m[BLOCK * mb + base + 2 * sub] as int == v % 0x100
    requires m[BLOCK * mb + base + 2 * sub + 1] as int == v / 0x100 % 0x100
    ensures Mv(m, mb, base, sub) == v
  {
    TwosComplement(v);
  }

  lemma TwosComplement(v: int)
    requires -0x8000 <= v < 0x8000
    ensures SignedShort(v / 0x100 % 0x100, v % 0x100) == v
  {
  }

  // The 4x4 blocks of a macroblock count along rows of four, and all samples of a block have its number.
  lemma BlocksInOrder(x: nat, y: nat)
    ensures Sub(x, y) < 16
    ensures x % 16 < 4 && y % 16 < 4 ==> Sub(x, y) == 0
    ensures x % 16 < 12 ==> Sub(x + 4, y) == Sub(x, y) + 1
    ensures y % 16 < 12 ==> Sub(x, y + 4) == Sub(x, y) + 4
    ensures forall x': nat, y': nat | x' / 4 == x / 4 && y' / 4 == y / 4 :: Sub(x', y') == Sub(x, y)
  {
    NextFour(x);
    NextFour(y);
    forall x': nat, y': nat | x' / 4 == x / 4 && y' / 4 == y / 4
      ensures Sub(x', y') == Sub(x, y)
    {
      SameFour(x, x');
      SameFour(y, y');
    }
  }

  lemma NextFour(x: nat)
    ensures x % 16 / 4 < 4 && (x % 16 < 12 ==> (x + 4) % 16 / 4 == x % 16 / 4 + 1)
  {
  }

  lemma SameFour(x: nat, x': nat)
    requires x / 4 == x' / 4
    ensures x % 16 / 4 == x' % 16 / 4
  {
    FourInSixteen(x / 4, x % 4);
    FourInSixteen(x' / 4, x' % 4);
  }

  lemma FourInSixteen(k: nat, r: nat)
    requires r < 4
    ensures (4 * k + r) % 16 / 4 == k % 4
  {
    RestOfSixteen(k / 4, 4 * (k % 4) + r);
    assert 4 * k + r == 16 * (k / 4) + (4 * (k % 4) + r);
    WholeFours(k % 4, r);
  }

  lemma RestOfSixteen(a: nat, rest: nat)
    requires rest < 16
    ensures (16 * a + rest) % 16 == rest
  {
  }

  lemma WholeFours(b: nat, r: nat)
    requires r < 4
    ensures (4 * b + r) / 4 == b
  {
  }

  // ---------- thresholds ----------

  // A signed byte of the quantisers.
  predicate IsSigned(b: byte, v: int) { -0x80 <= v < 0x80 && b as int == v % 0x100 }

  predicate Clipped(i: int, v: int) { 0 <= i <= 51 && (i == v || (i == 0 && v < 0) || (i == 51 && v > 51)) }

  // The tables are asked at the mean of the quantisers of both sides, halves upwards, plus four times the
  // offset of the slice, and at the ends where this lies outside them.
  lemma ThresholdsAre(t: Tables, m: Store, slice: nat, q: nat, p: nat, chroma: bool, bS: nat, u: int, v: int)
    returns (mean: int, a: int, b: int)
    requires slice < N_SLICE_THREADS && q < REGISTERS / BLOCK && p < REGISTERS / BLOCK
    requires IsSigned(m[0x200 * q + 0x1D0 + if chroma then 1 else 0], u)
    requires IsSigned(m[0x200 * p + 0x1D0 + if chroma then 1 else 0], v)
    ensures u + v <= 2 * mean <= u + v + 1
    ensures Clipped(a, mean + 4 * m[0x38017 + 0x10 * slice] as int)
    ensures Clipped(b, mean + 4 * m[0x38016 + 0x10 * slice] as int)
    ensures ThresholdsAt(t, m, slice, q, p, chroma, bS) == t(a, b, bS)
  {
    hide SignedChar, CustomClip, IsSigned, Clipped, ThresholdsAt;
    mean := (u + v + 1) / 2;
    a := CustomClip(mean + m[SLICE_OFFSET * slice + REG_SLI_ALPHA] as int * 4, 0, 51);
    b := CustomClip(mean + m[SLICE_OFFSET * slice + REG_SLI_BETA] as int * 4, 0, 51);
    SignedIs(m[0x200 * q + 0x1D0 + if chroma then 1 else 0], u);
    SignedIs(m[0x200 * p + 0x1D0 + if chroma then 1 else 0], v);
    ClippedIs(mean + 4 * m[0x38017 + 0x10 * slice] as int);
    ClippedIs(mean + 4 * m[0x38016 + 0x10 * slice] as int);
    ThresholdsOf(t, m, slice, q, p, chroma, bS, u, v);
  }

  lemma ThresholdsOf(t: Tables, m: Store, slice: nat, q: nat, p: nat, chroma: bool, bS: nat, u: int, v: int)
    requires slice < N_SLICE_THREADS && q < REGISTERS / BLOCK && p < REGISTERS / BLOCK
    requires SignedChar(At(m, q, if chroma then QUANT + 1 else QUANT)) == u
    requires SignedChar(At(m, p, if chroma then QUANT + 1 else QUANT)) == v
    ensures var mean := (u + v + 1) / 2;
      ThresholdsAt(t, m, slice, q, p, chroma, bS)
      == t(CustomClip(mean + m[SLICE_OFFSET * slice + REG_SLI_ALPHA] as int * 4, 0, 51),
           CustomClip(mean + m[SLICE_OFFSET * slice + REG_SLI_BETA] as int * 4, 0, 51), bS)
  {
    hide SignedChar, CustomClip, At;
  }

  lemma SignedIs(b: byte, v: int)
    requires IsSigned(b, v)
    ensures SignedChar(b as int) == v
  {
  }

  lemma ClippedIs(v: int)
    ensures Clipped(CustomClip(v, 0, 51), v)
  {
  }

  // ---------- samples in the store ----------

  // A plane starts at its place of macroblock 0; along a row of a macroblock the samples follow each
  // other, its rows follow each other, and so do the macroblocks, in rows of w.
  lemma SamplesGoOn(w: nat, side: nat, base: nat, r: nat, c: nat)
    requires Kind(side, base)
    ensures PixelAt(w, side, base, 0, 0) == base
    ensures c % side + 1 < side ==> PixelAt(w, side, base, r, c + 1) == PixelAt(w, side, base, r, c) + 1
    ensures r % side + 1 < side ==> PixelAt(w, side, base, r + 1, c) == PixelAt(w, side, base, r, c) + side
    ensures PixelAt(w, side, base, r, c + side) == PixelAt(w, side, base, r, c) + 0x200
    ensures PixelAt(w, side, base, r + side, c) == PixelAt(w, side, base, r, c) + 0x200 * w
  {
    NextIn(c, side);
    NextIn(r, side);
    assert (r / side + 1) * w == r / side * w + w;
  }

  lemma NextIn(c: nat, side: nat)
    requires side == 16 || side == 8
    ensures c % side + 1 < side ==> (c + 1) / side == c / side && (c + 1) % side == c % side + 1
    ensures (c + side) / side == c / side + 1 && (c + side) % side == c % side
  {
  }

  // In memory the rows of a plane follow each other without gap, and so do the planes.
  lemma RastersGoOn(w: nat, h: nat, side: nat, base: nat, r: nat, c: nat)
    requires w > 0 && Kind(side, base)
    ensures Raster(w, side, 0, 0) == 0 && Raster(w, side, r, c + 1) == Raster(w, side, r, c) + 1
    ensures Raster(w, side, r + 1, 0) == Raster(w, side, r, Width(w, side) - 1) + 1
    ensures Width(w, side) == side * w && Area(w, h, side) == side * w * (side * h)
    ensures First(w, h, LUMA) == 0 && First(w, h, CHROMA) == Area(w, h, 16)
    ensures First(w, h, CHROMA + 64) == First(w, h, CHROMA) + Area(w, h, 8)
  {
    assert (r + 1) * Width(w, side) == r * Width(w, side) + Width(w, side);
    AreaIsWords(w, h, 16);
    AreaIsWords(w, h, 8);
  }

  // ---------- the lines of a macroblock ----------

  // The lines of the luma edges: edge e is at 4e, and has the lines 0 to 15, one after the other; each
  // of the 64 comes once, and an edge after those before it.
  lemma LumaLineIs(w: nat, mb: nat, vertical: bool, e: nat, k: nat)
    requires w > 0 && e < 4 && k < 16
    ensures |LumaLines(w, vertical, mb)| == 64
    ensures var l := LumaLines(w, vertical, mb)[16 * e + k];
      && l.vertical == vertical && !l.chroma
      && (if vertical then l.x else l.y) == 4 * e + (if vertical then Column(w, mb) else Row(w, mb))
      && (if vertical then l.y else l.x) == k + (if vertical then Row(w, mb) else Column(w, mb))
  {
    EdgeAndLine(e, k);
  }

  lemma EdgeAndLine(e: nat, k: nat)
    requires k < 16
    ensures (16 * e + k) / 16 == e && (16 * e + k) % 16 == k
  {
  }

  lemma LumaLineOnce(w: nat, mb: nat, vertical: bool, i: nat, j: nat)
    requires w > 0 && i < j < 64
    ensures LumaLines(w, vertical, mb)[i] != LumaLines(w, vertical, mb)[j]
  {
    LumaLineIs(w, mb, vertical, i / 16, i % 16);
    LumaLineIs(w, mb, vertical, j / 16, j % 16);
    hide LumaLines;
  }

  // The macroblocks count along the rows of the picture.
  lemma MacroblocksInOrder(w: nat, mb: nat)
    requires w > 0
    ensures Column(w, 0) == 0 && Row(w, 0) == 0
    ensures Column(w, mb + 1) == (if Column(w, mb) + 16 < 16 * w then Column(w, mb) + 16 else 0)
    ensures Row(w, mb + 1) == (if Column(w, mb) + 16 < 16 * w then Row(w, mb) else Row(w, mb) + 16)
  {
    if mb % w + 1 < w {
      RasterIndex(mb + 1, w, mb / w, mb % w + 1);
    } else {
      assert (mb / w + 1) * w == mb / w * w + w;
      RasterIndex(mb + 1, w, mb / w + 1, 0);
    }
  }

  // Of the two lines of a plane, of one macroblock, that cross, the vertical one is filtered first.
  lemma VerticalFirst(w: nat, offset: nat, mb: nat, chroma: bool, plane: nat, i: nat, j: nat)
    requires w > 0 && i < |PlaneLines(w, offset, mb, chroma, plane)| && j < |PlaneLines(w, offset, mb, chroma, plane)|
    requires PlaneLines(w, offset, mb, chroma, plane)[i].vertical
    requires !PlaneLines(w, offset, mb, chroma, plane)[j].vertical
    ensures i < j
  {
    var v := Unless(SkipLeft(w, offset, mb), Edges(w, true, chroma, plane, mb));
    var h := Unless(SkipTop(w, offset, mb), Edges(w, false, chroma, plane, mb));
    assert forall k | 0 <= k < |v| :: v[k].vertical;
    assert forall k | 0 <= k < |h| :: !h[k].vertical;
  }

  // All lines that a macroblock gives are in it,
  lemma LinesOfMb(w: nat, offset: nat, mb: nat, l: Line)
    requires w > 0 && l in MbLines(w, offset, mb)
    ensures Q(w, l) == mb
  {
    forall vertical: bool, chroma: bool, plane: nat | l in Edges(w, vertical, chroma, plane, mb)
      ensures Q(w, l) == mb
    {
      EdgesAreInside(w, vertical, chroma, plane, mb, l);
    }
    hide Edges, Q, SkipLeft, SkipTop;
    assert forall chroma: bool, plane: nat | l in PlaneLines(w, offset, mb, chroma, plane) ::
        l in Edges(w, true, chroma, plane, mb) || l in Edges(w, false, chroma, plane, mb);
  }

  lemma EdgesAreInside(w: nat, vertical: bool, chroma: bool, plane: nat, mb: nat, l: Line)
    requires w > 0 && l in Edges(w, vertical, chroma, plane, mb)
    ensures Q(w, l) == mb
  {
    Coordinates(w, mb);
    assert 0 <= l.x - Column(w, mb) < 16 && 0 <= l.y - Row(w, mb) < 16;
    hide Edges;
    assert l.x / 16 == mb % w && l.y / 16 == mb / w;
  }

  // and a slice filters its macroblocks in their order.
  lemma {:induction false} SliceInOrder(w: nat, offset: nat, length: nat, i: nat, j: nat)
    requires w > 0 && i <= j < |SliceLines(w, offset, length)|
    ensures var ls := SliceLines(w, offset, length);
      offset <= Q(w, ls[i]) <= Q(w, ls[j]) < offset + length
  {
    hide MbLines, Q;
    var a, b := SliceLines(w, offset, length - 1), MbLines(w, offset, offset + length - 1);
    assert SliceLines(w, offset, length) == a + b;
    if j < |a| {
      SliceInOrder(w, offset, length - 1, i, j);
    } else {
      LinesOfMb(w, offset, offset + length - 1, b[j - |a|]);
      if i < |a| {
        SliceInOrder(w, offset, length - 1, i, i);
      } else {
        LinesOfMb(w, offset, offset + length - 1, b[i - |a|]);
      }
    }
  }

  // The planes are luma, for which the number does not matter and is 0, Cb and Cr.
  predicate IsPlane(chroma: bool, plane: nat) { if chroma then plane < 2 else plane == 0 }

  // A macroblock filters all lines of its vertical edges if the macroblock to the left is in its row and
  // in the slice, and all lines of its horizontal edges if the one above is in the slice; nothing else.
  lemma MbLinesIff(w: nat, h: nat, offset: nat, mb: nat, l: Line)
    requires Picture(w, h) && offset <= mb
    ensures l in MbLines(w, offset, mb)
            <==> && IsPlane(l.chroma, l.plane) && l in Edges(w, l.vertical, l.chroma, l.plane, mb)
                 && if l.vertical then mb % w != 0 && offset < mb else offset + w <= mb
  {
    SkipLeftIff(w, h, offset, mb);
    SkipTopIff(w, h, offset, mb);
    forall vertical: bool, chroma: bool, plane: nat
      | IsPlane(chroma, plane) && l in Edges(w, vertical, chroma, plane, mb)
      ensures l.vertical == vertical && l.chroma == chroma && l.plane == plane
    {
    }
    hide Edges, SkipLeft, SkipTop, Picture;
    PlanesOfMb(w, offset, mb, l);
  }

  lemma PlanesOfMb(w: nat, offset: nat, mb: nat, l: Line)
    requires w > 0
    ensures l in MbLines(w, offset, mb)
            <==> exists chroma: bool, plane: nat ::
                   IsPlane(chroma, plane) && l in PlaneLines(w, offset, mb, chroma, plane)
  {
    hide PlaneLines;
    assert IsPlane(false, 0) && IsPlane(true, 0) && IsPlane(true, 1);
  }

  // A slice filters the lines of its macroblocks, and no others.
  lemma {:induction false} SliceLinesIff(w: nat, offset: nat, length: nat, l: Line)
    requires w > 0
    ensures l in SliceLines(w, offset, length)
            <==> exists mb :: offset <= mb < offset + length && l in MbLines(w, offset, mb)
  {
    hide MbLines;
    if length > 0 {
      SliceLinesIff(w, offset, length - 1, l);
    }
  }
}

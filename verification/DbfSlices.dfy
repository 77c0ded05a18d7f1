/**
 Slice independence: filtering a slice reads and writes its own macroblocks only, so that the
 threads of disjoint slices do not disturb each other.
 */
module DbfSlices {
  import opened Arithmetic
  import opened Bytes
  import opened DbfFilter
  import opened DbfStore

  // ---------- one line ----------

  lemma InStore(w: nat, h: nat, l: Line, i: int)
    requires Picture(w, h) && Fits(w, h, l) && -4 <= i < 4
    ensures SampleAt(w, l, i) < REGISTERS
    ensures P(w, l) < REGISTERS / BLOCK && Q(w, l) < REGISTERS / BLOCK
  {
    SampleIsInside(w, h, l, i);
    BlocksOfLine(w, h, l);
  }

  function Address(w: nat, h: nat, l: Line, i: int): (a: nat)
    requires Picture(w, h) && Fits(w, h, l) && -4 <= i < 4
    ensures a < REGISTERS
  {
    InStore(w, h, l, i);
    SampleAt(w, l, i)
  }

  // The loops over the samples of a line take one of each side in a round, from the edge outwards.
  function Distance(j: nat): (i: int)
    requires j < 8
    ensures -4 <= i < 4
  {
    if j % 2 == 0 then j / 2 else -1 - j / 2
  }

  function Addresses(w: nat, h: nat, l: Line): (r: seq<nat>)
    requires Picture(w, h) && Fits(w, h, l)
    ensures |r| == 8 && forall j | 0 <= j < 8 :: r[j] < REGISTERS
  {
    seq(8, j requires 0 <= j < 8 => Address(w, h, l, Distance(j)))
  }

  function Gather(m: Store, addrs: seq<nat>): Samples
    requires |addrs| == 8 && forall j | 0 <= j < 8 :: addrs[j] < REGISTERS
  {
    Samples(m[addrs[1]] as int, m[addrs[3]] as int, m[addrs[5]] as int, m[addrs[7]] as int,
            m[addrs[0]] as int, m[addrs[2]] as int, m[addrs[4]] as int, m[addrs[6]] as int)
  }

  function Values(r: Samples): (v: seq<byte>)
    ensures |v| == 8
  {
    [ByteOf(r.q0), ByteOf(r.p0), ByteOf(r.q1), ByteOf(r.p1), ByteOf(r.q2), ByteOf(r.p2), ByteOf(r.q3), ByteOf(r.p3)]
  }

  // The store after the first n of some writes.
  function Put(m: Store, addrs: seq<nat>, vals: seq<byte>, n: nat): Store
    requires n <= |addrs| == |vals| && forall j | 0 <= j < |addrs| :: addrs[j] < SIZE
  {
    if n == 0 then m else Put(m, addrs, vals, n - 1)[addrs[n - 1] := vals[n - 1]]
  }

  function LineStrength(m: Store, w: nat, h: nat, l: Line): nat
    requires Picture(w, h) && Fits(w, h, l)
  {
    InStore(w, h, l, 0);
    Strength(m, l.x, Q(w, l), P(w, l), Sub(l.x, l.y))
  }

  function LineThresholds(t: Tables, m: Store, w: nat, h: nat, slice: nat, l: Line): Thresholds
    requires Picture(w, h) && Fits(w, h, l) && slice < N_SLICE_THREADS
  {
    InStore(w, h, l, 0);
    ThresholdsAt(t, m, slice, Q(w, l), P(w, l), l.chroma, LineStrength(m, w, h, l))
  }

  function Result(t: Tables, m: Store, w: nat, h: nat, slice: nat, l: Line): Samples
    requires Picture(w, h) && Fits(w, h, l) && slice < N_SLICE_THREADS
  {
    FilterBlock(Gather(m, Addresses(w, h, l)), l.chroma, LineStrength(m, w, h, l), LineThresholds(t, m, w, h, slice, l))
  }

  function FilterLine(t: Tables, m: Store, w: nat, h: nat, slice: nat, l: Line): Store
    requires Picture(w, h) && Fits(w, h, l) && slice < N_SLICE_THREADS
  {
    Put(m, Addresses(w, h, l), Values(Result(t, m, w, h, slice, l)), 8)
  }

  // ---------- footprints ----------

  // The samples of the macroblocks from lo up to hi.
  predicate OwnSamples(a: nat, lo: nat, hi: nat) { lo <= a / BLOCK < hi && a % BLOCK < SAMPLES }

  predicate Own(a: nat, lo: nat, hi: nat) { lo * BLOCK <= a < hi * BLOCK }

  // A line whose two macroblocks are among those from lo up to hi.
  predicate Within(w: nat, h: nat, l: Line, lo: nat, hi: nat) {
    Picture(w, h) && Fits(w, h, l) && lo <= P(w, l) && Q(w, l) < hi <= w * h
  }

  // What a slice reads: its macroblocks and its two offsets.
  ghost predicate Agree(m: Store, m': Store, slice: nat, lo: nat, hi: nat)
    requires slice < N_SLICE_THREADS
  {
    && (forall a | 0 <= a < SIZE && Own(a, lo, hi) :: m[a] == m'[a])
    && m[SLICE_OFFSET * slice + REG_SLI_ALPHA] == m'[SLICE_OFFSET * slice + REG_SLI_ALPHA]
    && m[SLICE_OFFSET * slice + REG_SLI_BETA] == m'[SLICE_OFFSET * slice + REG_SLI_BETA]
  }

  lemma OwnByBlock(a: nat, lo: nat, hi: nat)
    ensures lo <= a / BLOCK < hi <==> Own(a, lo, hi)
  {
  }

  lemma SampleIsOwn(w: nat, h: nat, l: Line, lo: nat, hi: nat, i: int)
    requires Within(w, h, l, lo, hi) && -4 <= i < 4
    ensures OwnSamples(SampleAt(w, l, i), lo, hi) && Own(SampleAt(w, l, i), lo, hi)
    ensures SampleAt(w, l, i) < REGISTERS
  {
    InStore(w, h, l, i);
    SampleIsInside(w, h, l, i);
    BlocksOfLine(w, h, l);
    OwnByBlock(SampleAt(w, l, i), lo, hi);
  }

  lemma {:induction false} PutFrame(m: Store, addrs: seq<nat>, vals: seq<byte>, n: nat, a: nat)
    requires n <= |addrs| == |vals| && forall j | 0 <= j < |addrs| :: addrs[j] < SIZE
    requires a < SIZE && forall j | 0 <= j < |addrs| :: addrs[j] != a
    ensures Put(m, addrs, vals, n)[a] == m[a]
  {
    if n > 0 {
      PutFrame(m, addrs, vals, n - 1, a);
    }
  }

  lemma {:induction false} PutAgrees(m: Store, m': Store, addrs: seq<nat>, vals: seq<byte>, n: nat, a: nat)
    requires n <= |addrs| == |vals| && forall j | 0 <= j < |addrs| :: addrs[j] < SIZE
    requires a < SIZE && m[a] == m'[a]
    ensures Put(m, addrs, vals, n)[a] == Put(m', addrs, vals, n)[a]
  {
    if n > 0 {
      PutAgrees(m, m', addrs, vals, n - 1, a);
    }
  }

  lemma AddressesAreOwn(w: nat, h: nat, l: Line, lo: nat, hi: nat)
    requires Within(w, h, l, lo, hi)
    ensures forall j | 0 <= j < 8 :: OwnSamples(Addresses(w, h, l)[j], lo, hi)
  {
    forall j | 0 <= j < 8
      ensures OwnSamples(Addresses(w, h, l)[j], lo, hi)
    {
      SampleIsOwn(w, h, l, lo, hi, Distance(j));
    }
  }

  // Writing the same keeps what agrees.
  lemma PutKeepsAgreement(m: Store, m': Store, addrs: seq<nat>, vals: seq<byte>, slice: nat, lo: nat, hi: nat)
    requires |addrs| == |vals| == 8 && forall j | 0 <= j < 8 :: addrs[j] < REGISTERS
    requires slice < N_SLICE_THREADS && Agree(m, m', slice, lo, hi)
    ensures Agree(Put(m, addrs, vals, 8), Put(m', addrs, vals, 8), slice, lo, hi)
  {
    forall a | 0 <= a < SIZE && m[a] == m'[a]
      ensures Put(m, addrs, vals, 8)[a] == Put(m', addrs, vals, 8)[a]
    {
      PutAgrees(m, m', addrs, vals, 8, a);
    }
  }

  lemma AtAgrees(m: Store, m': Store, slice: nat, lo: nat, hi: nat, mb: nat, place: nat)
    requires slice < N_SLICE_THREADS && Agree(m, m', slice, lo, hi)
    requires lo <= mb < hi && mb < REGISTERS / BLOCK && place < BLOCK
    ensures At(m, mb, place) == At(m', mb, place)
  {
    assert Own(BLOCK * mb + place, lo, hi);
  }

  lemma StrengthAgrees(m: Store, m': Store, slice: nat, lo: nat, hi: nat, x: nat, q: nat, p: nat, sub: nat)
    requires slice < N_SLICE_THREADS && Agree(m, m', slice, lo, hi)
    requires lo <= p < q < hi && q < REGISTERS / BLOCK && sub < 16
    ensures Strength(m, x, q, p, sub) == Strength(m', x, q, p, sub)
  {
    forall mb, place | (mb == p || mb == q) && 0 <= place < BLOCK
      ensures At(m, mb, place) == At(m', mb, place)
    {
      AtAgrees(m, m', slice, lo, hi, mb, place);
    }
  }

  lemma ThresholdsAgree(t: Tables, m: Store, m': Store, slice: nat, lo: nat, hi: nat, q: nat, p: nat, chroma: bool,
                        bS: nat)
    requires slice < N_SLICE_THREADS && Agree(m, m', slice, lo, hi)
    requires lo <= p < q < hi && q < REGISTERS / BLOCK
    ensures ThresholdsAt(t, m, slice, q, p, chroma, bS) == ThresholdsAt(t, m', slice, q, p, chroma, bS)
  {
    AtAgrees(m, m', slice, lo, hi, q, if chroma then QUANT + 1 else QUANT);
    AtAgrees(m, m', slice, lo, hi, p, if chroma then QUANT + 1 else QUANT);
    hide At, ThresholdsAt;
    SameThresholds(t, m, m', slice, q, p, chroma, bS);
  }

  lemma SameThresholds(t: Tables, m: Store, m': Store, slice: nat, q: nat, p: nat, chroma: bool, bS: nat)
    requires slice < N_SLICE_THREADS && q < REGISTERS / BLOCK && p < REGISTERS / BLOCK
    requires m[SLICE_OFFSET * slice + REG_SLI_ALPHA] == m'[SLICE_OFFSET * slice + REG_SLI_ALPHA]
    requires m[SLICE_OFFSET * slice + REG_SLI_BETA] == m'[SLICE_OFFSET * slice + REG_SLI_BETA]
    requires var quant := if chroma then QUANT + 1 else QUANT;
      At(m, q, quant) == At(m', q, quant) && At(m, p, quant) == At(m', p, quant)
    ensures ThresholdsAt(t, m, slice, q, p, chroma, bS) == ThresholdsAt(t, m', slice, q, p, chroma, bS)
  {
    hide At, SignedChar, CustomClip;
  }

  lemma GatherAgrees(m: Store, m': Store, slice: nat, w: nat, h: nat, l: Line, lo: nat, hi: nat)
    requires slice < N_SLICE_THREADS && Agree(m, m', slice, lo, hi) && Within(w, h, l, lo, hi)
    ensures Gather(m, Addresses(w, h, l)) == Gather(m', Addresses(w, h, l))
  {
    AddressesAreOwn(w, h, l, lo, hi);
    forall j | 0 <= j < 8
      ensures m[Addresses(w, h, l)[j]] == m'[Addresses(w, h, l)[j]]
    {
      OwnByBlock(Addresses(w, h, l)[j], lo, hi);
    }
  }

  lemma LineStrengthAgrees(m: Store, m': Store, slice: nat, w: nat, h: nat, l: Line, lo: nat, hi: nat)
    requires slice < N_SLICE_THREADS && Agree(m, m', slice, lo, hi) && Within(w, h, l, lo, hi)
    ensures LineStrength(m, w, h, l) == LineStrength(m', w, h, l)
  {
    InStore(w, h, l, 0);
    BlocksOfLine(w, h, l);
    StrengthAgrees(m, m', slice, lo, hi, l.x, Q(w, l), P(w, l), Sub(l.x, l.y));
  }

  lemma LineThresholdsAgree(t: Tables, m: Store, m': Store, w: nat, h: nat, slice: nat, l: Line, lo: nat, hi: nat)
    requires slice < N_SLICE_THREADS && Within(w, h, l, lo, hi) && Agree(m, m', slice, lo, hi)
    ensures LineThresholds(t, m, w, h, slice, l) == LineThresholds(t, m', w, h, slice, l)
  {
    InStore(w, h, l, 0);
    BlocksOfLine(w, h, l);
    LineStrengthAgrees(m, m', slice, w, h, l, lo, hi);
    ThresholdsAgree(t, m, m', slice, lo, hi, Q(w, l), P(w, l), l.chroma, LineStrength(m, w, h, l));
  }

  lemma ResultAgrees(t: Tables, m: Store, m': Store, w: nat, h: nat, slice: nat, l: Line, lo: nat, hi: nat)
    requires slice < N_SLICE_THREADS && Within(w, h, l, lo, hi) && Agree(m, m', slice, lo, hi)
    ensures Result(t, m, w, h, slice, l) == Result(t, m', w, h, slice, l)
  {
    GatherAgrees(m, m', slice, w, h, l, lo, hi);
    LineStrengthAgrees(m, m', slice, w, h, l, lo, hi);
    LineThresholdsAgree(t, m, m', w, h, slice, l, lo, hi);
  }

  // Outside the samples of its own macroblocks a line changes nothing,
  lemma LineFrame(t: Tables, m: Store, w: nat, h: nat, slice: nat, l: Line, lo: nat, hi: nat, a: nat)
    requires slice < N_SLICE_THREADS && Within(w, h, l, lo, hi) && a < SIZE && !OwnSamples(a, lo, hi)
    ensures FilterLine(t, m, w, h, slice, l)[a] == m[a]
  {
    AddressesAreOwn(w, h, l, lo, hi);
    PutFrame(m, Addresses(w, h, l), Values(Result(t, m, w, h, slice, l)), 8, a);
  }

  // and what it computes depends on its own macroblocks only.
  lemma LineAgrees(t: Tables, m: Store, m': Store, w: nat, h: nat, slice: nat, l: Line, lo: nat, hi: nat)
    requires slice < N_SLICE_THREADS && Within(w, h, l, lo, hi) && Agree(m, m', slice, lo, hi)
    ensures Agree(FilterLine(t, m, w, h, slice, l), FilterLine(t, m', w, h, slice, l), slice, lo, hi)
  {
    ResultAgrees(t, m, m', w, h, slice, l, lo, hi);
    PutKeepsAgreement(m, m', Addresses(w, h, l), Values(Result(t, m, w, h, slice, l)), slice, lo, hi);
  }

  // ---------- many lines ----------

  predicate AllFit(w: nat, h: nat, ls: seq<Line>) {
    ls == [] || (AllFit(w, h, ls[..|ls| - 1]) && Fits(w, h, ls[|ls| - 1]))
  }

  predicate AllWithin(w: nat, h: nat, ls: seq<Line>, lo: nat, hi: nat) {
    ls == [] || (AllWithin(w, h, ls[..|ls| - 1], lo, hi) && Within(w, h, ls[|ls| - 1], lo, hi))
  }

  lemma {:induction false} WithinFits(w: nat, h: nat, ls: seq<Line>, lo: nat, hi: nat)
    requires AllWithin(w, h, ls, lo, hi)
    ensures AllFit(w, h, ls)
  {
    if ls != [] {
      WithinFits(w, h, ls[..|ls| - 1], lo, hi);
    }
  }

  lemma {:induction false} EachWithin(w: nat, h: nat, ls: seq<Line>, lo: nat, hi: nat)
    requires forall n | 0 <= n < |ls| :: Within(w, h, ls[n], lo, hi)
    ensures AllWithin(w, h, ls, lo, hi)
  {
    if ls != [] {
      EachWithin(w, h, ls[..|ls| - 1], lo, hi);
    }
  }

  lemma {:induction false} WithinConcat(w: nat, h: nat, p: seq<Line>, q: seq<Line>, lo: nat, hi: nat)
    requires AllWithin(w, h, p, lo, hi) && AllWithin(w, h, q, lo, hi)
    ensures AllWithin(w, h, p + q, lo, hi)
  {
    hide Within;
    if q == [] {
      assert p + q == p;
    } else {
      WithinConcat(w, h, p, q[..|q| - 1], lo, hi);
      assert (p + q)[..|p + q| - 1] == p + q[..|q| - 1];
    }
  }

  // The lines in order, the last one last.
  function FilterAll(t: Tables, m: Store, w: nat, h: nat, slice: nat, ls: seq<Line>): Store
    requires slice < N_SLICE_THREADS && Picture(w, h) && AllFit(w, h, ls)
  {
    if ls == [] then m
    else FilterLine(t, FilterAll(t, m, w, h, slice, ls[..|ls| - 1]), w, h, slice, ls[|ls| - 1])
  }

  lemma {:induction false} AllFrame(t: Tables, m: Store, w: nat, h: nat, slice: nat, ls: seq<Line>, lo: nat, hi: nat,
                                    a: nat)
    requires slice < N_SLICE_THREADS && Picture(w, h) && AllFit(w, h, ls) && AllWithin(w, h, ls, lo, hi)
    requires a < SIZE && !OwnSamples(a, lo, hi)
    ensures FilterAll(t, m, w, h, slice, ls)[a] == m[a]
  {
    if ls != [] {
      var n := |ls| - 1;
      AllFrame(t, m, w, h, slice, ls[..n], lo, hi, a);
      LineFrame(t, FilterAll(t, m, w, h, slice, ls[..n]), w, h, slice, ls[n], lo, hi, a);
    }
  }

  lemma {:induction false} AllAgree(t: Tables, m: Store, m': Store, w: nat, h: nat, slice: nat, ls: seq<Line>,
                                    lo: nat, hi: nat)
    requires slice < N_SLICE_THREADS && Picture(w, h) && AllFit(w, h, ls) && AllWithin(w, h, ls, lo, hi)
    requires Agree(m, m', slice, lo, hi)
    ensures Agree(FilterAll(t, m, w, h, slice, ls), FilterAll(t, m', w, h, slice, ls), slice, lo, hi)
  {
    if ls != [] {
      var n := |ls| - 1;
      AllAgree(t, m, m', w, h, slice, ls[..n], lo, hi);
      LineAgrees(t, FilterAll(t, m, w, h, slice, ls[..n]), FilterAll(t, m', w, h, slice, ls[..n]),
                 w, h, slice, ls[n], lo, hi);
    }
  }

  // ---------- the lines of a slice ----------

  // mb_pos_x and mb_pos_y
  function Column(w: nat, mb: nat): nat
    requires w > 0
  {
    mb % w * 16
  }

  function Row(w: nat, mb: nat): nat
    requires w > 0
  {
    mb / w * 16
  }

  // The conditions under which filter_slice skips the vertical and the horizontal edges of a
  // macroblock, for a slice that starts at offset.
  predicate SkipLeft(w: nat, offset: nat, mb: nat)
    requires w > 0
  {
    Column(w, mb) == 0 || (Column(w, mb) == Column(w, offset) && Row(w, mb) == Row(w, offset))
  }

  predicate SkipTop(w: nat, offset: nat, mb: nat)
    requires w > 0
  {
    if Column(w, mb) < Column(w, offset) then Row(w, mb) <= Row(w, offset) + 16 else Row(w, mb) <= Row(w, offset)
  }

  lemma Coordinates(w: nat, mb: nat)
    requires w > 0
    ensures mb == mb / w * w + mb % w && 0 <= mb % w < w
  {
  }

  // The vertical edges are filtered exactly if the macroblock to the left is in the picture row and
  // in the slice.
  lemma SkipLeftIff(w: nat, h: nat, offset: nat, mb: nat)
    requires Picture(w, h) && offset <= mb
    ensures SkipLeft(w, offset, mb) <==> mb % w == 0 || mb - 1 < offset
  {
    Coordinates(w, mb);
    Coordinates(w, offset);
  }

  // The horizontal edges are filtered exactly if the macroblock above is in the slice.
  lemma SkipTopIff(w: nat, h: nat, offset: nat, mb: nat)
    requires Picture(w, h) && offset <= mb
    ensures SkipTop(w, offset, mb) <==> mb - w < offset
  {
    Coordinates(w, mb);
    Coordinates(w, offset);
    RowAbove(w, mb / w, mb % w, offset / w, offset % w);
    assert (mb / w - 1) * w == mb / w * w - w;
  }

  lemma RowAbove(w: nat, r: nat, c: nat, r0: nat, c0: nat)
    requires c < w && c0 < w
    ensures (r - 1) * w + c < r0 * w + c0 <==> if c < c0 then r <= r0 + 1 else r <= r0
  {
    var d := r - 1 - r0;
    assert (r - 1) * w - r0 * w == d * w;
    AtLeastOnce(d, w);
  }

  // The loops over edges and lines, flattened; a chroma plane has two edges of eight lines.
  function LumaLines(w: nat, vertical: bool, mb: nat): seq<Line>
    requires w > 0
  {
    seq(64, n requires 0 <= n < 64 =>
      if vertical then Line(true, false, 0, Column(w, mb) + n / 16 * 4, Row(w, mb) + n % 16)
      else Line(false, false, 0, Column(w, mb) + n % 16, Row(w, mb) + n / 16 * 4))
  }

  function ChromaLines(w: nat, vertical: bool, plane: nat, mb: nat): seq<Line>
    requires w > 0
  {
    seq(16, n requires 0 <= n < 16 =>
      if vertical then Line(true, true, plane, Column(w, mb) + n / 8 * 4, Row(w, mb) + n % 8)
      else Line(false, true, plane, Column(w, mb) + n % 8, Row(w, mb) + n / 8 * 4))
  }

  // The lines of one macroblock, unless they are skipped.
  function Unless(skip: bool, ls: seq<Line>): seq<Line> { if skip then [] else ls }

  // A line of a macroblock, at (dx, dy) in it, whose neighbour across the edge is in the slice.
  lemma LineIsWithin(w: nat, h: nat, lo: nat, hi: nat, mb: nat, l: Line, dx: nat, dy: nat)
    requires Picture(w, h) && lo <= mb < hi <= w * h && l.plane < 2
    requires l.x == Column(w, mb) + dx && l.y == Row(w, mb) + dy && dx < 16 && dy < 16
    requires (if l.vertical then dx else dy) <= (if l.chroma then 8 else 12)
    requires if l.vertical then mb % w > 0 && lo <= mb - 1 else lo <= mb - w
    ensures Within(w, h, l, lo, hi)
  {
    Coordinates(w, mb);
    assert l.x / 16 == mb % w && l.y / 16 == mb / w && l.x % 16 == dx && l.y % 16 == dy;
    assert Q(w, l) == mb;
    if w == 8 {} else if w == 11 {} else {}
    assert Fits(w, h, l);
    BlocksOfLine(w, h, l);
  }

  lemma LumaLinesAreWithin(w: nat, h: nat, lo: nat, hi: nat, mb: nat, vertical: bool)
    requires Picture(w, h) && lo <= mb < hi <= w * h
    requires if vertical then mb % w > 0 && lo <= mb - 1 else lo <= mb - w
    ensures AllWithin(w, h, LumaLines(w, vertical, mb), lo, hi)
  {
    forall n | 0 <= n < 64
      ensures Within(w, h, LumaLines(w, vertical, mb)[n], lo, hi)
    {
      LineIsWithin(w, h, lo, hi, mb, LumaLines(w, vertical, mb)[n],
                   if vertical then n / 16 * 4 else n % 16, if vertical then n % 16 else n / 16 * 4);
    }
    EachWithin(w, h, LumaLines(w, vertical, mb), lo, hi);
  }

  lemma ChromaLinesAreWithin(w: nat, h: nat, lo: nat, hi: nat, mb: nat, vertical: bool, plane: nat)
    requires Picture(w, h) && lo <= mb < hi <= w * h && plane < 2
    requires if vertical then mb % w > 0 && lo <= mb - 1 else lo <= mb - w
    ensures AllWithin(w, h, ChromaLines(w, vertical, plane, mb), lo, hi)
  {
    forall n | 0 <= n < 16
      ensures Within(w, h, ChromaLines(w, vertical, plane, mb)[n], lo, hi)
    {
      LineIsWithin(w, h, lo, hi, mb, ChromaLines(w, vertical, plane, mb)[n],
                   if vertical then n / 8 * 4 else n % 8, if vertical then n % 8 else n / 8 * 4);
    }
    EachWithin(w, h, ChromaLines(w, vertical, plane, mb), lo, hi);
  }

  function Edges(w: nat, vertical: bool, chroma: bool, plane: nat, mb: nat): seq<Line>
    requires w > 0
  {
    if chroma then ChromaLines(w, vertical, plane, mb) else LumaLines(w, vertical, mb)
  }

  // Both directions of the edges of one plane, unless they are skipped.
  function PlaneLines(w: nat, offset: nat, mb: nat, chroma: bool, plane: nat): seq<Line>
    requires w > 0
  {
    Unless(SkipLeft(w, offset, mb), Edges(w, true, chroma, plane, mb))
    + Unless(SkipTop(w, offset, mb), Edges(w, false, chroma, plane, mb))
  }

  lemma VerticalLinesAreWithin(w: nat, h: nat, offset: nat, hi: nat, mb: nat, chroma: bool, plane: nat)
    requires Picture(w, h) && offset <= mb < hi <= w * h && plane < 2
    ensures AllWithin(w, h, Unless(SkipLeft(w, offset, mb), Edges(w, true, chroma, plane, mb)), offset, hi)
  {
    SkipLeftIff(w, h, offset, mb);
    if !SkipLeft(w, offset, mb) {
      if chroma {
        ChromaLinesAreWithin(w, h, offset, hi, mb, true, plane);
      } else {
        LumaLinesAreWithin(w, h, offset, hi, mb, true);
      }
    }
  }

  lemma HorizontalLinesAreWithin(w: nat, h: nat, offset: nat, hi: nat, mb: nat, chroma: bool, plane: nat)
    requires Picture(w, h) && offset <= mb < hi <= w * h && plane < 2
    ensures AllWithin(w, h, Unless(SkipTop(w, offset, mb), Edges(w, false, chroma, plane, mb)), offset, hi)
  {
    SkipTopIff(w, h, offset, mb);
    if !SkipTop(w, offset, mb) {
      if chroma {
        ChromaLinesAreWithin(w, h, offset, hi, mb, false, plane);
      } else {
        LumaLinesAreWithin(w, h, offset, hi, mb, false);
      }
    }
  }

  lemma PlaneLinesAreWithin(w: nat, h: nat, offset: nat, hi: nat, mb: nat, chroma: bool, plane: nat)
    requires Picture(w, h) && offset <= mb < hi <= w * h && plane < 2
    ensures AllWithin(w, h, PlaneLines(w, offset, mb, chroma, plane), offset, hi)
  {
    VerticalLinesAreWithin(w, h, offset, hi, mb, chroma, plane);
    HorizontalLinesAreWithin(w, h, offset, hi, mb, chroma, plane);
    WithinConcat(w, h, Unless(SkipLeft(w, offset, mb), Edges(w, true, chroma, plane, mb)),
                 Unless(SkipTop(w, offset, mb), Edges(w, false, chroma, plane, mb)), offset, hi);
  }

  function MbLines(w: nat, offset: nat, mb: nat): seq<Line>
    requires w > 0
  {
    PlaneLines(w, offset, mb, false, 0) + PlaneLines(w, offset, mb, true, 0) + PlaneLines(w, offset, mb, true, 1)
  }

  function SliceLines(w: nat, offset: nat, length: nat): seq<Line>
    requires w > 0
  {
    if length == 0 then [] else SliceLines(w, offset, length - 1) + MbLines(w, offset, offset + length - 1)
  }

  lemma MbLinesAreWithin(w: nat, h: nat, offset: nat, hi: nat, mb: nat)
    requires Picture(w, h) && offset <= mb < hi <= w * h
    ensures AllWithin(w, h, MbLines(w, offset, mb), offset, hi)
  {
    var luma, cb, cr := PlaneLines(w, offset, mb, false, 0), PlaneLines(w, offset, mb, true, 0), PlaneLines(w,
        offset, mb, true, 1);
    PlaneLinesAreWithin(w, h, offset, hi, mb, false, 0);
    PlaneLinesAreWithin(w, h, offset, hi, mb, true, 0);
    PlaneLinesAreWithin(w, h, offset, hi, mb, true, 1);
    WithinConcat(w, h, luma, cb, offset, hi);
    WithinConcat(w, h, luma + cb, cr, offset, hi);
  }

  lemma {:induction false} SliceLinesAreWithin(w: nat, h: nat, offset: nat, length: nat, hi: nat)
    requires Picture(w, h) && offset + length <= hi <= w * h
    ensures AllWithin(w, h, SliceLines(w, offset, length), offset, hi)
    ensures AllFit(w, h, SliceLines(w, offset, length))
  {
    hide MbLines, Within;
    if length > 0 {
      SliceLinesAreWithin(w, h, offset, length - 1, hi);
      MbLinesAreWithin(w, h, offset, hi, offset + length - 1);
      WithinConcat(w, h, SliceLines(w, offset, length - 1), MbLines(w, offset, offset + length - 1), offset, hi);
    }
    WithinFits(w, h, SliceLines(w, offset, length), offset, hi);
  }

  // ---------- a slice ----------

  // The registers describe a slice of a picture up to CIF.
  predicate Ready(m: Store, slice: nat) {
    && slice < N_SLICE_THREADS && Format(m) < 3
    && Offset(m, slice) + Length(m, slice) <= WidthInMbs(Format(m)) * HeightInMbs(Format(m))
  }

  function End(m: Store, slice: nat): nat
    requires slice < N_SLICE_THREADS
  {
    Offset(m, slice) + Length(m, slice)
  }

  // filter_slice
  ghost function FilterSlice(t: Tables, m: Store, slice: nat): Store
    requires Ready(m, slice)
  {
    var w, h := WidthInMbs(Format(m)), HeightInMbs(Format(m));
    SliceLinesAreWithin(w, h, Offset(m, slice), Length(m, slice), End(m, slice));
    FilterAll(t, m, w, h, slice, SliceLines(w, Offset(m, slice), Length(m, slice)))
  }

  // A slice writes samples of its own macroblocks and nothing else; in particular no register.
  lemma SliceFrame(t: Tables, m: Store, slice: nat, a: nat)
    requires Ready(m, slice) && a < SIZE && !OwnSamples(a, Offset(m, slice), End(m, slice))
    ensures FilterSlice(t, m, slice)[a] == m[a]
  {
    var w, h := WidthInMbs(Format(m)), HeightInMbs(Format(m));
    SliceLinesAreWithin(w, h, Offset(m, slice), Length(m, slice), End(m, slice));
    AllFrame(t, m, w, h, slice, SliceLines(w, Offset(m, slice), Length(m, slice)), Offset(m, slice), End(m, slice), a);
  }

  ghost predicate SameRegisters(m: Store, m': Store) {
    forall a | REGISTERS <= a < SIZE :: m[a] == m'[a]
  }

  lemma SliceKeepsRegisters(t: Tables, m: Store, slice: nat)
    requires Ready(m, slice)
    ensures SameRegisters(m, FilterSlice(t, m, slice))
  {
    forall a | REGISTERS <= a < SIZE
      ensures m[a] == FilterSlice(t, m, slice)[a]
    {
      SliceFrame(t, m, slice, a);
    }
  }

  // Stores with the same registers have the same slices.
  lemma SameSlices(m: Store, m': Store, slice: nat)
    requires SameRegisters(m, m') && slice < N_SLICE_THREADS
    ensures Format(m) == Format(m') && Offset(m, slice) == Offset(m', slice) && Length(m, slice) == Length(m', slice)
    ensures m[SLICE_OFFSET * slice + REG_SLI_ALPHA] == m'[SLICE_OFFSET * slice + REG_SLI_ALPHA]
    ensures m[SLICE_OFFSET * slice + REG_SLI_BETA] == m'[SLICE_OFFSET * slice + REG_SLI_BETA]
  {
  }

  // What a slice computes depends on its own macroblocks and the registers only.
  lemma SliceDepends(t: Tables, m: Store, m': Store, slice: nat, a: nat)
    requires Ready(m, slice) && SameRegisters(m, m')
    requires forall b | 0 <= b < SIZE && Own(b, Offset(m, slice), End(m, slice)) :: m[b] == m'[b]
    requires a < SIZE && Own(a, Offset(m, slice), End(m, slice))
    ensures Ready(m', slice) && FilterSlice(t, m, slice)[a] == FilterSlice(t, m', slice)[a]
  {
    var w, h := WidthInMbs(Format(m)), HeightInMbs(Format(m));
    SameSlices(m, m', slice);
    SliceLinesAreWithin(w, h, Offset(m, slice), Length(m, slice), End(m, slice));
    AllAgree(t, m, m', w, h, slice, SliceLines(w, Offset(m, slice), Length(m, slice)), Offset(m, slice), End(m, slice));
  }

  predicate Disjoint(m: Store, s: nat, u: nat)
    requires s < N_SLICE_THREADS && u < N_SLICE_THREADS
  {
    End(m, s) <= Offset(m, u) || End(m, u) <= Offset(m, s)
  }

  // Filtering two disjoint slices commutes.
  lemma SlicesCommute(t: Tables, m: Store, s: nat, u: nat)
    requires Ready(m, s) && Ready(m, u) && Disjoint(m, s, u)
    ensures Ready(FilterSlice(t, m, s), u) && Ready(FilterSlice(t, m, u), s)
    ensures FilterSlice(t, FilterSlice(t, m, s), u) == FilterSlice(t, FilterSlice(t, m, u), s)
  {
    SliceKeepsRegisters(t, m, s);
    SliceKeepsRegisters(t, m, u);
    SameSlices(m, FilterSlice(t, m, s), u);
    SameSlices(m, FilterSlice(t, m, u), s);
    var su, us := FilterSlice(t, FilterSlice(t, m, s), u), FilterSlice(t, FilterSlice(t, m, u), s);
    forall a | 0 <= a < SIZE
      ensures su[a] == us[a]
    {
      CommutesAt(t, m, s, u, a);
    }
  }

  lemma CommutesAt(t: Tables, m: Store, s: nat, u: nat, a: nat)
    requires Ready(m, s) && Ready(m, u) && Disjoint(m, s, u) && a < SIZE
    ensures Ready(FilterSlice(t, m, s), u) && Ready(FilterSlice(t, m, u), s)
    ensures FilterSlice(t, FilterSlice(t, m, s), u)[a] == FilterSlice(t, FilterSlice(t, m, u), s)[a]
  {
    if Own(a, Offset(m, s), End(m, s)) {
      CommutesInside(t, m, s, u, a);
    } else if Own(a, Offset(m, u), End(m, u)) {
      CommutesInside(t, m, u, s, a);
    } else {
      CommutesOutside(t, m, s, u, a);
      CommutesOutside(t, m, u, s, a);
    }
  }

  // In the macroblocks of s, both orders leave what s alone does.
  lemma CommutesInside(t: Tables, m: Store, s: nat, u: nat, a: nat)
    requires Ready(m, s) && Ready(m, u) && Disjoint(m, s, u) && a < SIZE && Own(a, Offset(m, s), End(m, s))
    ensures Ready(FilterSlice(t, m, s), u) && Ready(FilterSlice(t, m, u), s)
    ensures FilterSlice(t, FilterSlice(t, m, s), u)[a] == FilterSlice(t, m, s)[a]
    ensures FilterSlice(t, FilterSlice(t, m, u), s)[a] == FilterSlice(t, m, s)[a]
  {
    var ms, mu := FilterSlice(t, m, s), FilterSlice(t, m, u);
    SliceKeepsRegisters(t, m, s);
    SliceKeepsRegisters(t, m, u);
    SameSlices(m, ms, u);
    SameSlices(m, mu, s);
    forall b | 0 <= b < SIZE && Own(b, Offset(m, s), End(m, s))
      ensures !OwnSamples(b, Offset(m, u), End(m, u)) && m[b] == mu[b]
    {
      OwnByBlock(b, Offset(m, u), End(m, u));
      SliceFrame(t, m, u, b);
    }
    SliceFrame(t, ms, u, a);
    SliceDepends(t, m, mu, s, a);
  }

  lemma CommutesOutside(t: Tables, m: Store, s: nat, u: nat, a: nat)
    requires Ready(m, s) && Ready(m, u) && a < SIZE
    requires !Own(a, Offset(m, s), End(m, s)) && !Own(a, Offset(m, u), End(m, u))
    ensures Ready(FilterSlice(t, m, s), u) && FilterSlice(t, FilterSlice(t, m, s), u)[a] == m[a]
  {
    SliceKeepsRegisters(t, m, s);
    SameSlices(m, FilterSlice(t, m, s), u);
    OwnByBlock(a, Offset(m, s), End(m, s));
    OwnByBlock(a, Offset(m, u), End(m, u));
    SliceFrame(t, m, s, a);
    SliceFrame(t, FilterSlice(t, m, s), u, a);
  }
}

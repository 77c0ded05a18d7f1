/**
 The deblocking filter on the samples across one edge, after sections 8.7.2.3 and 8.7.2.4 of ITU-T
 H.264.  The thresholds are whatever the tables of the device give.
 */
module DbfFilter {
  import opened Bytes

  // p0 and q0 are next to the edge.
  datatype Samples = Samples(p0: u8, p1: u8, p2: u8, p3: u8, q0: u8, q1: u8, q2: u8, q3: u8)

  datatype Thresholds = Thresholds(alpha: int, beta: int, tc0: int)

  function Abs(x: int): int { if x < 0 then -x else x }

  function CustomClip(x: int, lo: int, hi: int): int { if x < lo then lo else if x > hi then hi else x }

  // A value stored in an unsigned char.
  function Byte(x: int): u8 { if 0 <= x < 256 then x else x % 256 }

  predicate Filtered(s: Samples, bS: nat, t: Thresholds) {
    bS != 0 && Abs(s.p0 - s.q0) < t.alpha && Abs(s.p1 - s.p0) < t.beta && Abs(s.q1 - s.q0) < t.beta
  }

  // ---------- bS < 4 ----------

  function Tc(s: Samples, chroma: bool, t: Thresholds): int {
    if chroma then t.tc0 + 1
    else t.tc0 + (if Abs(s.p2 - s.p0) < t.beta then 1 else 0) + (if Abs(s.q2 - s.q0) < t.beta then 1 else 0)
  }

  function Delta(s: Samples, tc: int): int {
    CustomClip(((s.q0 - s.p0) * 4 + (s.p1 - s.q1) + 4) / 8, -tc, tc)
  }

  // The second sample of a side, x2, x1, x0 outwards to inwards, y0 across the edge.
  function WeakSecond(x2: u8, x1: u8, x0: u8, y0: u8, tc0: int): int {
    x1 + CustomClip((x2 + (x0 + y0 + 1) / 2 - 2 * x1) / 2, -tc0, tc0)
  }

  function Weak(s: Samples, chroma: bool, t: Thresholds): Samples {
    var delta := Delta(s, Tc(s, chroma, t));
    s.(p0 := Byte(CustomClip(s.p0 + delta, 0, 255)),
       q0 := Byte(CustomClip(s.q0 - delta, 0, 255)),
       p1 := if Abs(s.p2 - s.p0) < t.beta && !chroma then Byte(WeakSecond(s.p2, s.p1, s.p0, s.q0, t.tc0)) else s.p1,
       q1 := if Abs(s.q2 - s.q0) < t.beta && !chroma then Byte(WeakSecond(s.q2, s.q1, s.q0, s.p0, t.tc0)) else s.q1)
  }

  // ---------- bS == 4 ----------

  predicate Strong(chroma: bool, a: int, s: Samples, t: Thresholds) {
    !chroma && a < t.beta && Abs(s.p0 - s.q0) < t.alpha / 4 + 2
  }

  function StrongFirst(x2: u8, x1: u8, x0: u8, y0: u8, y1: u8): int { (x2 + 2 * x1 + 2 * x0 + 2 * y0 + y1 + 4) / 8 }

  function StrongSecond(x2: u8, x1: u8, x0: u8, y0: u8): int { (x2 + x1 + x0 + y0 + 2) / 4 }

  function StrongThird(x3: u8, x2: u8, x1: u8, x0: u8, y0: u8): int { (2 * x3 + 3 * x2 + x1 + x0 + y0 + 4) / 8 }

  function Plain(x1: u8, x0: u8, y1: u8): int { (2 * x1 + x0 + y1 + 2) / 4 }

  // The new samples of one side, outwards from the edge.
  function Side(strong: bool, x3: u8, x2: u8, x1: u8, x0: u8, y0: u8, y1: u8): (u8, u8, u8) {
    if strong then
      (Byte(StrongFirst(x2, x1, x0, y0, y1)), Byte(StrongSecond(x2, x1, x0, y0)), Byte(StrongThird(x3, x2, x1, x0, y0)))
    else (Byte(Plain(x1, x0, y1)), x1, x2)
  }

  function Intra(s: Samples, chroma: bool, t: Thresholds): Samples {
    var (p0, p1, p2) := Side(Strong(chroma, Abs(s.p2 - s.p0), s, t), s.p3, s.p2, s.p1, s.p0, s.q0, s.q1);
    var (q0, q1, q2) := Side(Strong(chroma, Abs(s.q2 - s.q0), s, t), s.q3, s.q2, s.q1, s.q0, s.p0, s.p1);
    Samples(p0, p1, p2, s.p3, q0, q1, q2, s.q3)
  }

  // filter_block
  function FilterBlock(s: Samples, chroma: bool, bS: nat, t: Thresholds): Samples {
    if Filtered(s, bS, t) && bS < 4 then Weak(s, chroma, t)
    else if Filtered(s, bS, t) && bS == 4 then Intra(s, chroma, t)
    else s
  }

  // ---------- what the filter keeps ----------

  predicate Between(x: int, lo: int, hi: int) { lo <= x <= hi }

  // No second sample leaves the range of a byte, though only the first ones are clipped to it; and
  // none moves by more than tc0.
  lemma WeakSecondFits(x2: u8, x1: u8, x0: u8, y0: u8, tc0: int)
    requires tc0 >= 0
    ensures Between(WeakSecond(x2, x1, x0, y0, tc0), 0, 255)
    ensures Byte(WeakSecond(x2, x1, x0, y0, tc0)) == WeakSecond(x2, x1, x0, y0, tc0)
    ensures Abs(WeakSecond(x2, x1, x0, y0, tc0) - x1) <= tc0
  {
    var full := (x2 + (x0 + y0 + 1) / 2 - 2 * x1) / 2;
    assert 0 <= x1 + full <= 255;
  }

  lemma FirstStays(x: u8, delta: int, tc: int)
    requires -tc <= delta <= tc
    ensures Abs(Byte(CustomClip(x + delta, 0, 255)) - x) <= tc
  {
  }

  lemma DeltaIsClipped(s: Samples, tc: int)
    requires tc >= 0
    ensures -tc <= Delta(s, tc) <= tc
  {
  }

  lemma TcIsPositive(s: Samples, chroma: bool, t: Thresholds)
    requires t.tc0 >= 0
    ensures Tc(s, chroma, t) >= 0
  {
  }

  // For bS < 4 the first samples move by at most tc and the second ones by at most tc0.
  lemma WeakStays(s: Samples, chroma: bool, t: Thresholds)
    requires t.tc0 >= 0
    ensures var r := Weak(s, chroma, t);
      && Abs(r.p0 - s.p0) <= Tc(s, chroma, t) && Abs(r.q0 - s.q0) <= Tc(s, chroma, t)
      && Abs(r.p1 - s.p1) <= t.tc0 && Abs(r.q1 - s.q1) <= t.tc0
  {
    var tc := Tc(s, chroma, t);
    var delta := Delta(s, tc);
    DeltaIsClipped(s, tc);
    FirstStays(s.p0, delta, tc);
    FirstStays(s.q0, -delta, tc);
    WeakSecondFits(s.p2, s.p1, s.p0, s.q0, t.tc0);
    WeakSecondFits(s.q2, s.q1, s.q0, s.p0, t.tc0);
  }

  // Every weighted average for bS 4 stays in any range that holds the samples it averages: it lies
  // between the least and the greatest of them.
  lemma FirstAverages(x2: u8, x1: u8, x0: u8, y0: u8, y1: u8, lo: int, hi: int)
    requires Between(x2, lo, hi) && Between(x1, lo, hi) && Between(x0, lo, hi)
    requires Between(y0, lo, hi) && Between(y1, lo, hi)
    ensures Between(StrongFirst(x2, x1, x0, y0, y1), lo, hi)
  {
  }

  lemma SecondAverages(x2: u8, x1: u8, x0: u8, y0: u8, lo: int, hi: int)
    requires Between(x2, lo, hi) && Between(x1, lo, hi) && Between(x0, lo, hi) && Between(y0, lo, hi)
    ensures Between(StrongSecond(x2, x1, x0, y0), lo, hi)
  {
  }

  lemma ThirdAverages(x3: u8, x2: u8, x1: u8, x0: u8, y0: u8, lo: int, hi: int)
    requires Between(x3, lo, hi) && Between(x2, lo, hi) && Between(x1, lo, hi) && Between(x0, lo, hi)
    requires Between(y0, lo, hi)
    ensures Between(StrongThird(x3, x2, x1, x0, y0), lo, hi)
  {
  }

  lemma PlainAverages(x1: u8, x0: u8, y1: u8, lo: int, hi: int)
    requires Between(x1, lo, hi) && Between(x0, lo, hi) && Between(y1, lo, hi)
    ensures Between(Plain(x1, x0, y1), lo, hi)
  {
  }

  // Nothing that is stored wraps: every stored sample is the value that was computed.
  lemma NothingWraps(x3: u8, x2: u8, x1: u8, x0: u8, y0: u8, y1: u8)
    ensures Byte(StrongFirst(x2, x1, x0, y0, y1)) == StrongFirst(x2, x1, x0, y0, y1)
    ensures Byte(StrongSecond(x2, x1, x0, y0)) == StrongSecond(x2, x1, x0, y0)
    ensures Byte(StrongThird(x3, x2, x1, x0, y0)) == StrongThird(x3, x2, x1, x0, y0)
    ensures Byte(Plain(x1, x0, y1)) == Plain(x1, x0, y1)
  {
    FirstAverages(x2, x1, x0, y0, y1, 0, 255);
    SecondAverages(x2, x1, x0, y0, 0, 255);
    ThirdAverages(x3, x2, x1, x0, y0, 0, 255);
    PlainAverages(x1, x0, y1, 0, 255);
  }

  lemma SideStaysInside(strong: bool, x3: u8, x2: u8, x1: u8, x0: u8, y0: u8, y1: u8, lo: int, hi: int)
    requires Between(x3, lo, hi) && Between(x2, lo, hi) && Between(x1, lo, hi) && Between(x0, lo, hi)
    requires Between(y0, lo, hi) && Between(y1, lo, hi)
    ensures var (f, g, h) := Side(strong, x3, x2, x1, x0, y0, y1);
      Between(f, lo, hi) && Between(g, lo, hi) && Between(h, lo, hi)
  {
    NothingWraps(x3, x2, x1, x0, y0, y1);
    FirstAverages(x2, x1, x0, y0, y1, lo, hi);
    SecondAverages(x2, x1, x0, y0, lo, hi);
    ThirdAverages(x3, x2, x1, x0, y0, lo, hi);
    PlainAverages(x1, x0, y1, lo, hi);
  }

  // The two sides of an edge, exchanged.
  function Mirror(s: Samples): Samples { Samples(s.q0, s.q1, s.q2, s.q3, s.p0, s.p1, s.p2, s.p3) }

  // The filter for bS 4 treats both sides alike.
  lemma IntraMirrors(s: Samples, chroma: bool, t: Thresholds)
    ensures Intra(Mirror(s), chroma, t) == Mirror(Intra(s, chroma, t))
  {
  }

  predicate Inside(s: Samples, lo: int, hi: int) {
    && Between(s.p0, lo, hi) && Between(s.p1, lo, hi) && Between(s.p2, lo, hi) && Between(s.p3, lo, hi)
    && Between(s.q0, lo, hi) && Between(s.q1, lo, hi) && Between(s.q2, lo, hi) && Between(s.q3, lo, hi)
  }

  // For bS 4 no sample leaves any range that holds the eight samples.
  lemma IntraStaysInside(s: Samples, chroma: bool, t: Thresholds, lo: int, hi: int)
    requires Inside(s, lo, hi)
    ensures Inside(Intra(s, chroma, t), lo, hi)
  {
    SideStaysInside(Strong(chroma, Abs(s.p2 - s.p0), s, t), s.p3, s.p2, s.p1, s.p0, s.q0, s.q1, lo, hi);
    SideStaysInside(Strong(chroma, Abs(s.q2 - s.q0), s, t), s.q3, s.q2, s.q1, s.q0, s.p0, s.p1, lo, hi);
  }

  // Whatever the strength: the outermost samples stay, chroma changes the first samples only, and
  // without strength nothing changes.
  lemma FilterKeeps(s: Samples, chroma: bool, bS: nat, t: Thresholds)
    ensures var r := FilterBlock(s, chroma, bS, t);
      && r.p3 == s.p3 && r.q3 == s.q3
      && (chroma ==> r == s.(p0 := r.p0, q0 := r.q0))
      && (bS < 4 ==> r.p2 == s.p2 && r.q2 == s.q2)
      && (bS == 0 ==> r == s)
  {
  }

  // A flat edge is left alone.
  lemma FlatStays(s: Samples, chroma: bool, bS: nat, t: Thresholds)
    requires t.tc0 >= 0 && Inside(s, s.p0, s.p0)
    ensures FilterBlock(s, chroma, bS, t) == s
  {
    if bS < 4 {
      FlatWeak(s, chroma, t);
    } else {
      IntraStaysInside(s, chroma, t, s.p0, s.p0);
    }
  }

  lemma FlatWeak(s: Samples, chroma: bool, t: Thresholds)
    requires t.tc0 >= 0 && Inside(s, s.p0, s.p0)
    ensures Weak(s, chroma, t) == s
  {
    assert Delta(s, Tc(s, chroma, t)) == 0;
    assert WeakSecond(s.p0, s.p0, s.p0, s.p0, t.tc0) == s.p0;
  }

  // ---------- order across the edge ----------

  predicate Rising(s: Samples) {
    s.p3 <= s.p2 <= s.p1 <= s.p0 <= s.q0 <= s.q1 <= s.q2 <= s.q3
  }

  // For bS 4 a rising edge is still rising, also when only one of its sides is smoothed strongly,
  lemma IntraKeepsOrder(s: Samples, chroma: bool, t: Thresholds)
    requires Rising(s)
    ensures Rising(Intra(s, chroma, t))
  {
    SideKeepsOrder(Strong(chroma, Abs(s.p2 - s.p0), s, t), Strong(chroma, Abs(s.q2 - s.q0), s, t), s);
    hide Side, Strong;
  }

  lemma SideKeepsOrder(strongP: bool, strongQ: bool, s: Samples)
    requires Rising(s)
    ensures var (p0, p1, p2) := Side(strongP, s.p3, s.p2, s.p1, s.p0, s.q0, s.q1);
      var (q0, q1, q2) := Side(strongQ, s.q3, s.q2, s.q1, s.q0, s.p0, s.p1);
      s.p3 <= p2 <= p1 <= p0 <= q0 <= q1 <= q2 <= s.q3
  {
    NothingWraps(s.p3, s.p2, s.p1, s.p0, s.q0, s.q1);
    NothingWraps(s.q3, s.q2, s.q1, s.q0, s.p0, s.p1);
    hide Byte;
  }

  // and so is a falling one.
  lemma IntraKeepsFall(s: Samples, chroma: bool, t: Thresholds)
    requires Rising(Mirror(s))
    ensures Rising(Mirror(Intra(s, chroma, t)))
  {
    IntraKeepsOrder(Mirror(s), chroma, t);
    IntraMirrors(s, chroma, t);
    hide Intra;
  }

  // For bS < 4 the first samples of a rising edge do not pass each other.
  lemma WeakKeepsOrder(s: Samples, chroma: bool, t: Thresholds)
    requires t.tc0 >= 0 && s.p1 <= s.p0 <= s.q0 <= s.q1
    ensures Weak(s, chroma, t).p0 <= Weak(s, chroma, t).q0
  {
    TcIsPositive(s, chroma, t);
    var delta := Delta(s, Tc(s, chroma, t));
    HalfTheStep(s, Tc(s, chroma, t));
    ClippedInOrder(s.p0 + delta, s.q0 - delta);
    hide Delta, Tc, CustomClip, Byte, WeakSecond;
  }

  lemma HalfTheStep(s: Samples, tc: int)
    requires tc >= 0 && s.p1 <= s.p0 <= s.q0 <= s.q1
    ensures s.p0 + Delta(s, tc) <= s.q0 - Delta(s, tc)
  {
    var d := s.q0 - s.p0;
    assert (d * 4 + (s.p1 - s.q1) + 4) / 8 <= (3 * d + 4) / 8;
    assert 2 * ((3 * d + 4) / 8) <= d;
  }

  lemma ClippedInOrder(x: int, y: int)
    requires x <= y
    ensures Byte(CustomClip(x, 0, 255)) <= Byte(CustomClip(y, 0, 255))
  {
  }

  // On a step between two even sides, what one side gains the other one loses, and neither leaves
  // the range of the two.
  lemma WeakSharesTheStep(s: Samples, chroma: bool, t: Thresholds)
    requires t.tc0 >= 0 && s.p1 == s.p0 && s.q1 == s.q0
    ensures var r := Weak(s, chroma, t);
      && r.p0 + r.q0 == s.p0 + s.q0
      && (s.p0 <= s.q0 ==> s.p0 <= r.p0 <= r.q0 <= s.q0)
      && (s.q0 <= s.p0 ==> s.q0 <= r.q0 <= r.p0 <= s.p0)
  {
    TcIsPositive(s, chroma, t);
    DeltaOfStep(s, Tc(s, chroma, t));
    hide Delta, Tc, WeakSecond;
  }

  lemma DeltaOfStep(s: Samples, tc: int)
    requires tc >= 0 && s.p1 == s.p0 && s.q1 == s.q0
    ensures var d, delta := s.q0 - s.p0, Delta(s, tc);
      if d >= 0 then 0 <= 2 * delta <= d else d <= 2 * delta <= 0
  {
    var d := s.q0 - s.p0;
    assert d * 4 + (s.p1 - s.q1) + 4 == 3 * d + 4;
  }

  // A second sample moves towards the mean of its neighbour and the edge, and not past it.
  lemma WeakSecondApproaches(x2: u8, x1: u8, x0: u8, y0: u8, tc0: int)
    requires tc0 >= 0
    ensures var mean := (x2 + (x0 + y0 + 1) / 2) / 2;
      var x := WeakSecond(x2, x1, x0, y0, tc0);
      && (x1 <= x <= mean || mean <= x <= x1)
      && (Abs(mean - x1) <= tc0 ==> x == mean)
      && (Abs(mean - x1) > tc0 ==> Abs(x - x1) == tc0)
  {
  }

  // How far the filter goes, for every strength: within the thresholds below 4, and never outside
  // the range of the eight samples at 4.
  lemma FilterBounds(s: Samples, chroma: bool, bS: nat, t: Thresholds, lo: int, hi: int)
    requires t.tc0 >= 0 && Inside(s, lo, hi)
    ensures var r := FilterBlock(s, chroma, bS, t);
      && (bS < 4 ==>
            && Abs(r.p0 - s.p0) <= Tc(s, chroma, t) && Abs(r.q0 - s.q0) <= Tc(s, chroma, t)
            && Abs(r.p1 - s.p1) <= t.tc0 && Abs(r.q1 - s.q1) <= t.tc0)
      && (bS >= 4 ==> Inside(r, lo, hi))
  {
    WeakStays(s, chroma, t);
    IntraStaysInside(s, chroma, t, lo, hi);
    TcIsPositive(s, chroma, t);
    hide Weak, Intra, Tc;
  }

  // ---------- how far the filter goes ----------

  // The filter works where no threshold says that the step is the picture's own.
  predicate Works(s: Samples, t: Thresholds) {
    && -t.alpha < s.p0 - s.q0 < t.alpha
    && -t.beta < s.p1 - s.p0 < t.beta && -t.beta < s.q1 - s.q0 < t.beta
  }

  // A side is flat if its third sample is near the first one.
  predicate Flat(x2: u8, x0: u8, t: Thresholds) { -t.beta < x2 - x0 < t.beta }

  // Anywhere else, and for strengths that do not exist, nothing changes.
  lemma OnlyWhereItWorks(s: Samples, chroma: bool, bS: nat, t: Thresholds)
    ensures bS == 0 || bS > 4 || !Works(s, t) ==> FilterBlock(s, chroma, bS, t) == s
  {
  }

  // A value in a byte, or the end of the range that it is past.
  predicate Nearest(b: u8, x: int) { b == x || (x < 0 && b == 0) || (x > 255 && b == 255) }

  // tc is one more for each flat side of a luma edge, and one more for chroma.
  lemma TcCounts(s: Samples, chroma: bool, t: Thresholds)
    ensures var more := Tc(s, chroma, t) - t.tc0;
      && (chroma ==> more == 1)
      && (!chroma ==> 0 <= more <= 2)
      && (!chroma ==> (more == 2 <==> Flat(s.p2, s.p0, t) && Flat(s.q2, s.q0, t)))
      && (!chroma ==> (more == 0 <==> !Flat(s.p2, s.p0, t) && !Flat(s.q2, s.q0, t)))
  {
  }

  // For bS < 4 the first samples move towards each other by d, an eighth of the weighted step across
  // the edge to the nearest integer, or as near to it as tc allows.
  lemma WeakMoves(s: Samples, chroma: bool, bS: nat, t: Thresholds) returns (d: int)
    requires 0 < bS < 4 && Works(s, t) && t.tc0 >= 0
    ensures var r, step, tc := FilterBlock(s, chroma, bS, t), 4 * (s.q0 - s.p0) + (s.p1 - s.q1), Tc(s, chroma, t);
      && -tc <= d <= tc
      && (d > -tc ==> 8 * d - step <= 4)
      && (d < tc ==> -4 < 8 * d - step)
      && Nearest(r.p0, s.p0 + d) && Nearest(r.q0, s.q0 - d)
  {
    TcIsPositive(s, chroma, t);
    d := Delta(s, Tc(s, chroma, t));
    DeltaIsEighth(s, Tc(s, chroma, t));
    hide Tc, Delta, WeakSecond;
  }

  lemma DeltaIsEighth(s: Samples, tc: int)
    requires tc >= 0
    ensures var d, step := Delta(s, tc), 4 * (s.q0 - s.p0) + (s.p1 - s.q1);
      && -tc <= d <= tc && (d > -tc ==> 8 * d - step <= 4) && (d < tc ==> -4 < 8 * d - step)
  {
  }

  // Beside them, on the flat sides of a luma edge only, the second samples go to the mean of their
  // neighbour and the edge, or by tc0 towards it.
  lemma WeakSeconds(s: Samples, chroma: bool, bS: nat, t: Thresholds)
    requires 0 < bS < 4 && Works(s, t) && t.tc0 >= 0
    ensures var r := FilterBlock(s, chroma, bS, t);
      && r.p1 == (if Flat(s.p2, s.p0, t) && !chroma then WeakSecond(s.p2, s.p1, s.p0, s.q0, t.tc0) else s.p1)
      && r.q1 == (if Flat(s.q2, s.q0, t) && !chroma then WeakSecond(s.q2, s.q1, s.q0, s.p0, t.tc0) else s.q1)
  {
    hide Weak;
    SecondsOf(s, chroma, t);
  }

  lemma SecondsOf(s: Samples, chroma: bool, t: Thresholds)
    requires t.tc0 >= 0
    ensures var r := Weak(s, chroma, t);
      && r.p1 == (if Flat(s.p2, s.p0, t) && !chroma then WeakSecond(s.p2, s.p1, s.p0, s.q0, t.tc0) else s.p1)
      && r.q1 == (if Flat(s.q2, s.q0, t) && !chroma then WeakSecond(s.q2, s.q1, s.q0, s.p0, t.tc0) else s.q1)
  {
    hide *;
    WeakSecondFits(s.p2, s.p1, s.p0, s.q0, t.tc0);
    WeakSecondFits(s.q2, s.q1, s.q0, s.p0, t.tc0);
    WeakHas(s, chroma, t);
    FlatIs(s.p2, s.p0, t);
    FlatIs(s.q2, s.q0, t);
  }

  lemma WeakHas(s: Samples, chroma: bool, t: Thresholds)
    ensures var r := Weak(s, chroma, t);
      && r.p1 == (if Abs(s.p2 - s.p0) < t.beta && !chroma
                  then Byte(WeakSecond(s.p2, s.p1, s.p0, s.q0, t.tc0)) else s.p1)
      && r.q1 == (if Abs(s.q2 - s.q0) < t.beta && !chroma
                  then Byte(WeakSecond(s.q2, s.q1, s.q0, s.p0, t.tc0)) else s.q1)
  {
    hide Abs, Byte, WeakSecond, Delta, Tc, CustomClip;
  }

  lemma FlatIs(x2: u8, x0: u8, t: Thresholds)
    ensures Flat(x2, x0, t) <==> Abs(x2 - x0) < t.beta
  {
  }

  // A step of two or more between two even sides becomes smaller.
  lemma StepShrinks(s: Samples, chroma: bool, bS: nat, t: Thresholds)
    requires 0 < bS < 4 && Works(s, t) && t.tc0 >= 0 && Tc(s, chroma, t) > 0
    requires s.p1 == s.p0 && s.q1 == s.q0 && Abs(s.q0 - s.p0) >= 2
    ensures var r := FilterBlock(s, chroma, bS, t);
      Abs(r.q0 - r.p0) < Abs(s.q0 - s.p0)
  {
    var d := WeakMoves(s, chroma, bS, t);
    WeakSharesTheStep(s, chroma, t);
    hide Weak, Tc, FilterBlock;
    assert 4 * (s.q0 - s.p0) + (s.p1 - s.q1) == 3 * (s.q0 - s.p0);
    assert d != 0;
  }

  // A value is the mean of n terms with this sum, rounded to the nearest integer, halves upwards.
  predicate Rounds(x: int, sum: int, n: int) { -n < 2 * (n * x - sum) <= n }

  // The averages for bS 4, as section 8.7.2.4 of ITU-T H.264 has them.
  lemma AveragesRound(x3: u8, x2: u8, x1: u8, x0: u8, y0: u8, y1: u8)
    ensures Rounds(StrongFirst(x2, x1, x0, y0, y1), x2 + 2 * x1 + 2 * x0 + 2 * y0 + y1, 8)
    ensures Rounds(StrongSecond(x2, x1, x0, y0), x2 + x1 + x0 + y0, 4)
    ensures Rounds(StrongThird(x3, x2, x1, x0, y0), 2 * x3 + 3 * x2 + x1 + x0 + y0, 8)
    ensures Rounds(Plain(x1, x0, y1), 2 * x1 + x0 + y1, 4)
  {
  }

  // The new samples x of one side, whose old ones are in o, x0 next to the edge.
  ghost predicate SideRounds(strong: bool, o: (u8, u8, u8, u8), y0: u8, y1: u8, r: (u8, u8, u8)) {
    var (x0, x1, x2, x3) := o;
    if strong then
      && Rounds(r.0, x2 + 2 * x1 + 2 * x0 + 2 * y0 + y1, 8) && Rounds(r.1, x2 + x1 + x0 + y0, 4)
      && Rounds(r.2, 2 * x3 + 3 * x2 + x1 + x0 + y0, 8)
    else Rounds(r.0, 2 * x1 + x0 + y1, 4) && r.1 == x1 && r.2 == x2
  }

  lemma SideIsRounded(strong: bool, x3: u8, x2: u8, x1: u8, x0: u8, y0: u8, y1: u8)
    ensures SideRounds(strong, (x0, x1, x2, x3), y0, y1, Side(strong, x3, x2, x1, x0, y0, y1))
  {
    NothingWraps(x3, x2, x1, x0, y0, y1);
    AveragesRound(x3, x2, x1, x0, y0, y1);
    hide Byte, StrongFirst, StrongSecond, StrongThird, Plain, Rounds;
  }

  // For bS 4 all three samples of a side become weighted means across the edge if it is luma, the side is
  // flat and the step is small; otherwise the first one does, and the others stay.
  lemma IntraMoves(s: Samples, chroma: bool, t: Thresholds)
    requires Works(s, t)
    ensures var r, small := FilterBlock(s, chroma, 4, t), 4 * Abs(s.p0 - s.q0) <= t.alpha + 4;
      && SideRounds(!chroma && small && Flat(s.p2, s.p0, t), (s.p0, s.p1, s.p2, s.p3), s.q0, s.q1, (r.p0, r.p1, r.p2))
      && SideRounds(!chroma && small && Flat(s.q2, s.q0, t), (s.q0, s.q1, s.q2, s.q3), s.p0, s.p1, (r.q0, r.q1, r.q2))
  {
    var r := FilterBlock(s, chroma, 4, t);
    var strongP, strongQ := Strong(chroma, Abs(s.p2 - s.p0), s, t), Strong(chroma, Abs(s.q2 - s.q0), s, t);
    SmallStep(Abs(s.p0 - s.q0), t.alpha);
    FlatIs(s.p2, s.p0, t);
    FlatIs(s.q2, s.q0, t);
    assert strongP == (!chroma && 4 * Abs(s.p0 - s.q0) <= t.alpha + 4 && Flat(s.p2, s.p0, t));
    assert strongQ == (!chroma && 4 * Abs(s.p0 - s.q0) <= t.alpha + 4 && Flat(s.q2, s.q0, t));
    assert r == Intra(s, chroma, t);
    SideIsRounded(strongP, s.p3, s.p2, s.p1, s.p0, s.q0, s.q1);
    SideIsRounded(strongQ, s.q3, s.q2, s.q1, s.q0, s.p0, s.p1);
    hide Side, SideRounds, Flat, Strong, Abs;
  }

  lemma SmallStep(d: int, alpha: int)
    ensures d < alpha / 4 + 2 <==> 4 * d <= alpha + 4
  {
  }
}

/**
 The rolling average of etrace_if.cpp over a ring of ten samples.
 */
module RollAverage {
  import opened Arithmetic

  const MAX_HISTORY: nat := 10
  function Sum(s: seq<u64>): nat {
    if s == [] then 0 else Sum(s[..|s| - 1]) + s[|s| - 1]
  }

  lemma {:induction false} SumConcat(a: seq<u64>, b: seq<u64>)
    ensures Sum(a + b) == Sum(a) + Sum(b)
  {
    if b == [] {
      assert a + b == a;
    } else {
      assert (a + b)[..|a + b| - 1] == a + b[..|b| - 1];
      SumConcat(a, b[..|b| - 1]);
    }
  }

  // A ring holds its samples from some place on, wrapping around; their sum does not depend on
  // the place.
  lemma RotationSum(s: seq<u64>, k: nat)
    requires k <= |s|
    ensures Sum(s[k..] + s[..k]) == Sum(s)
  {
    SumConcat(s[k..], s[..k]);
    SumConcat(s[..k], s[k..]);
    assert s[..k] + s[k..] == s;
  }

  // The last ten samples, or all of them while there are fewer.
  function Recent(s: seq<u64>): seq<u64> {
    if |s| <= MAX_HISTORY then s else s[|s| - MAX_HISTORY..]
  }

  function Mean(sum: nat, n: nat): nat
    requires n > 0
  {
    sum / n
  }

  // The mean, rounded down.
  lemma MeanIsFloor(sum: nat, n: nat)
    requires n > 0
    ensures Mean(sum, n) * n <= sum < (Mean(sum, n) + 1) * n
  {
    assert sum == sum / n * n + sum % n;
  }

  // The accumulator is 64 bits wide, so the answer is the mean of the last samples exactly when
  // their sum fits.
  lemma MeanIffNoOverflow(s: seq<u64>)
    requires s != []
    ensures Mean(Sum(Recent(s)) % TWO64, |Recent(s)|) == Mean(Sum(Recent(s)), |Recent(s)|) <==> Sum(Recent(s)) < TWO64
  {
    if Sum(Recent(s)) >= TWO64 {
      LowerQuotient(Sum(Recent(s)) % TWO64, Sum(Recent(s)), |Recent(s)|);
    }
  }

  // Two samples of the greatest value: their mean is that value, and the answer is half of it.
  lemma MeanCanOverflow()
    ensures var s: seq<u64> := [TWO64 - 1, TWO64 - 1];
      && Mean(Sum(Recent(s)), |Recent(s)|) == TWO64 - 1
      && Mean(Sum(Recent(s)) % TWO64, |Recent(s)|) == TWO64 / 2 - 1
  {
    var s: seq<u64> := [TWO64 - 1, TWO64 - 1];
    assert s[..1] == [TWO64 - 1] && s[..1][..0] == [];
    assert Sum(s) == Sum(s[..1]) + (TWO64 - 1) == 2 * TWO64 - 2;
  }

  lemma LowerQuotient(a: nat, b: nat, n: nat)
    requires n > 0 && a + n <= b
    ensures a / n < b / n
  {
  }

  lemma AddModulo(a: nat, b: nat)
    ensures (a % TWO64 + b) % TWO64 == (a + b) % TWO64
  {
    assert a == a / TWO64 * TWO64 + a % TWO64;
  }

  // Sample k is in slot k mod ten until ten more have come.
  ghost predicate Ring(slots: seq<u64>, samples: seq<u64>) {
    forall k | 0 <= k < |samples| && |samples| - MAX_HISTORY <= k ::
      k % MAX_HISTORY < |slots| && slots[k % MAX_HISTORY] == samples[k]
  }

  lemma RingPush(slots: seq<u64>, samples: seq<u64>, x: u64)
    requires |slots| == MAX_HISTORY && Ring(slots, samples)
    ensures Ring(slots[|samples| % MAX_HISTORY := x], samples + [x])
  {
    var i := |samples| % MAX_HISTORY;
    forall k | 0 <= k < |samples| + 1 && |samples| + 1 - MAX_HISTORY <= k
      ensures slots[i := x][k % MAX_HISTORY] == (samples + [x])[k]
    {
      if k < |samples| {
        assert k % MAX_HISTORY != i;
      }
    }
  }

  class Averager {
    var fullAverage: bool
    var currIdx: nat
    const history: array<u64>
    ghost var samples: seq<u64>     // every sample so far

    ghost predicate Valid()
      reads this, history
    {
      && history.Length == MAX_HISTORY
      && currIdx == |samples| % MAX_HISTORY
      && fullAverage == (|samples| >= MAX_HISTORY - 1)
      && Ring(history[..], samples)
    }

    constructor (history: array<u64>)
      requires history.Length == MAX_HISTORY
      ensures Valid() && samples == [] && this.history == history
    {
      fullAverage, currIdx, samples := false, 0, [];
      this.history := history;
    }

    // The two summing loops of roll_average.
    method Accumulate(count: nat) returns (acc: u64)
      requires count <= history.Length
      ensures acc == Sum(history[..count]) % TWO64
    {
      acc := 0;
      for i := 0 to count
        invariant acc == Sum(history[..i]) % TWO64
      {
        assert history[..i + 1][..i] == history[..i];
        AddModulo(Sum(history[..i]), history[i]);
        acc := (acc + history[i]) % TWO64;
      }
    }

    method Store(newSamp: u64)
      requires Valid()
      modifies history
      ensures Ring(history[..], samples + [newSamp])
    {
      RingPush(history[..], samples, newSamp);
      history[currIdx] := newSamp;
      assert history[..] == old(history[..])[currIdx := newSamp];
    }

    method Average(ghost all: seq<u64>) returns (res: u64)
      requires history.Length == MAX_HISTORY && Ring(history[..], all) && all != []
      requires currIdx == (|all| - 1) % MAX_HISTORY && fullAverage == (|all| >= MAX_HISTORY)
      ensures res == Mean(Sum(Recent(all)) % TWO64, |Recent(all)|)
    {
      var count := if fullAverage then MAX_HISTORY else currIdx + 1;
      assert count == |Recent(all)|;
      RingPrefix(history[..], all, count);
      assert history[..][..count] == history[..count];
      SlotsAreRecent(history[..count], all, currIdx);
      var acc := Accumulate(count);
      res := Mean(acc, count);
    }

    // Update the index, and from the ninth sample on the flag, for the next call.
    method Advance(ghost newSamp: u64)
      requires history.Length == MAX_HISTORY && Ring(history[..], samples + [newSamp])
      requires currIdx == |samples| % MAX_HISTORY && fullAverage == (|samples| >= MAX_HISTORY - 1)
      modifies this
      ensures Valid() && samples == old(samples) + [newSamp]
    {
      NextIndex(|samples|);
      samples := samples + [newSamp];
      currIdx := (currIdx + 1) % MAX_HISTORY;
      if currIdx == MAX_HISTORY - 1 {
        fullAverage := true;
      }
    }

    // roll_average.  What the slots held before they were written never shows in the result.
    method Roll(newSamp: u64) returns (res: u64)
      requires Valid()
      modifies this, history
      ensures Valid() && samples == old(samples) + [newSamp]
      ensures res == Mean(Sum(Recent(samples)) % TWO64, |Recent(samples)|)
    {
      Store(newSamp);
      res := Average(samples + [newSamp]);
      Advance(newSamp);
    }
  }

  lemma NextIndex(n: nat)
    ensures (n % MAX_HISTORY + 1) % MAX_HISTORY == (n + 1) % MAX_HISTORY
    ensures n < MAX_HISTORY - 1 ==> (n + 1) % MAX_HISTORY == n + 1
  {
  }

  lemma RingPrefix(slots: seq<u64>, samples: seq<u64>, n: nat)
    requires |slots| == MAX_HISTORY && Ring(slots, samples) && n == |Recent(samples)|
    ensures Ring(slots[..n], samples)
  {
    forall k | 0 <= k < |samples| && |samples| - MAX_HISTORY <= k
      ensures k % MAX_HISTORY < n
    {
    }
  }

  // Where the k-th of the last ten samples is, when the newest is in slot idx.
  lemma SlotOf(n: nat, idx: nat, k: nat)
    requires n > MAX_HISTORY && idx == (n - 1) % MAX_HISTORY && k < MAX_HISTORY
    ensures (n - MAX_HISTORY + k) % MAX_HISTORY
            == if k < MAX_HISTORY - 1 - idx then idx + 1 + k else k - (MAX_HISTORY - 1 - idx)
  {
  }

  lemma SlotsRotate(slots: seq<u64>, samples: seq<u64>, idx: nat)
    requires |samples| > MAX_HISTORY && idx == (|samples| - 1) % MAX_HISTORY
    requires |slots| == MAX_HISTORY && Ring(slots, samples)
    ensures slots[idx + 1..] + slots[..idx + 1] == Recent(samples)
  {
    var n, r := |samples|, Recent(samples);
    forall k | 0 <= k < MAX_HISTORY
      ensures (slots[idx + 1..] + slots[..idx + 1])[k] == r[k]
    {
      SlotOf(n, idx, k);
      assert r[k] == samples[n - MAX_HISTORY + k];
    }
  }

  lemma SlotsInOrder(slots: seq<u64>, samples: seq<u64>)
    requires |samples| <= MAX_HISTORY && |slots| == |samples| && Ring(slots, samples)
    ensures slots == samples
  {
    forall k | 0 <= k < |samples|
      ensures slots[k] == samples[k]
    {
      assert k % MAX_HISTORY == k;
    }
  }

  // The slots that are summed are the last samples, rotated.
  lemma SlotsAreRecent(slots: seq<u64>, samples: seq<u64>, idx: nat)
    requires samples != [] && idx == (|samples| - 1) % MAX_HISTORY
    requires |slots| == |Recent(samples)| && Ring(slots, samples)
    ensures Sum(slots) == Sum(Recent(samples))
  {
    if |samples| <= MAX_HISTORY {
      SlotsInOrder(slots, samples);
    } else {
      SlotsRotate(slots, samples, idx);
      RotationSum(slots, idx + 1);
    }
  }
}

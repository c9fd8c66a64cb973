/** Boat races (d06/src/main.rs): holding the button for `t` of the race's
    `total` milliseconds covers `t * (total - t)` millimetres; a race's ways
    to win are the hold times that beat the record, and the answer is the
    product of the ways over all races. */
module BoatRace {
  import opened Wrappers

  /** `evaluate`: the distance covered when holding for `t`. */
  function Evaluate(t: nat, total: nat): nat
    requires t <= total
  {
    t * (total - t)
  }

  /** Holding for `t` or for `total - t` covers the same distance. */
  lemma EvaluateSymmetric(t: nat, total: nat)
    requires t <= total
    ensures Evaluate(t, total) == Evaluate(total - t, total)
  {
  }

  /** The tests of `evaluate` for a seven millisecond race. */
  lemma EvaluateExamples()
    ensures Evaluate(1, 7) == 6 && Evaluate(2, 7) == 10 && Evaluate(3, 7) == 12
  {
  }

  /** Up to the middle of the race, holding longer never goes less far. */
  lemma EvaluateMonotone(t1: nat, t2: nat, total: nat)
    requires t1 <= t2 <= total / 2
    ensures Evaluate(t1, total) <= Evaluate(t2, total)
  {
    var k := t2 - t1;
    var s := total - t1 - t2;
    assert Evaluate(t2, total) - Evaluate(t1, total) == k * s by {
      calc {
        Evaluate(t2, total) - Evaluate(t1, total);
        (t1 + k) * (total - t1 - k) - t1 * (total - t1);
        k * (total - t1 - k) - t1 * k;
        k * s;
      }
    }
  }

  /** The middle of the race goes furthest. */
  lemma EvaluatePeak(t: nat, total: nat)
    requires t <= total
    ensures Evaluate(t, total) <= Evaluate(total / 2, total)
  {
    if t <= total / 2 {
      EvaluateMonotone(t, total / 2, total);
    } else {
      EvaluateSymmetric(t, total);
      EvaluateMonotone(total - t, total / 2, total);
    }
  }

  // ---------------------------------------------------------------------
  // The count the search computes

  /** How many hold times in `[lo, hi)` beat the record `distance`. */
  function CountIn(total: nat, distance: nat, lo: nat, hi: nat): (n: nat)
    requires hi <= total + 1
    ensures n <= hi - lo || lo > hi
    decreases hi - lo
  {
    if lo >= hi then 0
    else (if Evaluate(lo, total) > distance then 1 else 0) + CountIn(total, distance, lo + 1, hi)
  }

  /** The ways to win a race: hold times `0..=total` that beat the record. */
  function CountWins(total: nat, distance: nat): nat
  {
    CountIn(total, distance, 0, total + 1)
  }

  /** Counts over adjacent intervals add up. */
  lemma {:induction false} CountSplit(total: nat, distance: nat, lo: nat, mid: nat, hi: nat)
    requires lo <= mid <= hi <= total + 1
    ensures CountIn(total, distance, lo, hi) == CountIn(total, distance, lo, mid) + CountIn(total, distance, mid, hi)
    decreases mid - lo
  {
    if lo < mid {
      CountSplit(total, distance, lo + 1, mid, hi);
    }
  }

  /** An interval where every hold time wins counts in full. */
  lemma {:induction false} CountAll(total: nat, distance: nat, lo: nat, hi: nat)
    requires lo <= hi <= total + 1
    requires forall t :: lo <= t < hi ==> Evaluate(t, total) > distance
    ensures CountIn(total, distance, lo, hi) == hi - lo
    decreases hi - lo
  {
    if lo < hi {
      CountAll(total, distance, lo + 1, hi);
    }
  }

  /** An interval where no hold time wins counts nothing. */
  lemma {:induction false} CountNone(total: nat, distance: nat, lo: nat, hi: nat)
    requires lo <= hi <= total + 1
    requires forall t :: lo <= t < hi ==> Evaluate(t, total) <= distance
    ensures CountIn(total, distance, lo, hi) == 0
    decreases hi - lo
  {
    if lo < hi {
      CountNone(total, distance, lo + 1, hi);
    }
  }

  /** Below a losing hold time of the first half, every hold time loses. */
  lemma LosesBefore(total: nat, distance: nat, m: nat)
    requires m <= total / 2 && Evaluate(m, total) <= distance
    ensures CountIn(total, distance, 0, m + 1) == 0
  {
    forall t | 0 <= t < m + 1
      ensures Evaluate(t, total) <= distance
    {
      EvaluateMonotone(t, m, total);
    }
    CountNone(total, distance, 0, m + 1);
  }

  /** Mirrored: from `total - m` on, every hold time loses. */
  lemma LosesAfter(total: nat, distance: nat, m: nat)
    requires m <= total / 2 && Evaluate(m, total) <= distance
    ensures CountIn(total, distance, total - m, total + 1) == 0
  {
    forall t | total - m <= t < total + 1
      ensures Evaluate(t, total) <= distance
    {
      EvaluateSymmetric(t, total);
      EvaluateMonotone(total - t, m, total);
    }
    CountNone(total, distance, total - m, total + 1);
  }

  /** From a winning hold time `w` of the first half to its mirror, every
      hold time wins. */
  lemma WinsInside(total: nat, distance: nat, w: nat)
    requires 1 <= w <= total / 2 && Evaluate(w, total) > distance
    ensures CountIn(total, distance, w, total - w + 1) == total - 2 * w + 1
  {
    forall t | w <= t < total - w + 1
      ensures Evaluate(t, total) > distance
    {
      if t <= total / 2 {
        EvaluateMonotone(w, t, total);
      } else {
        EvaluateSymmetric(t, total);
        EvaluateMonotone(w, total - t, total);
      }
    }
    CountAll(total, distance, w, total - w + 1);
  }

  /** The closed form of the answer: when `m` loses and `m + 1` wins (both
      in the first half), exactly the hold times strictly between `m` and
      `total - m` win. */
  lemma WinsBetween(total: nat, distance: nat, m: nat)
    requires m + 1 <= total / 2
    requires Evaluate(m, total) <= distance < Evaluate(m + 1, total)
    ensures CountWins(total, distance) == total - 2 * m - 1
  {
    LosesBefore(total, distance, m);
    WinsInside(total, distance, m + 1);
    LosesAfter(total, distance, m);
    CountSplit(total, distance, 0, m + 1, total + 1);
    CountSplit(total, distance, m + 1, total - m, total + 1);
  }

  /** A record the middle hold time cannot beat cannot be beaten at all. */
  lemma NoWins(total: nat, distance: nat)
    requires Evaluate(total / 2, total) <= distance
    ensures CountWins(total, distance) == 0
  {
    forall t | 0 <= t < total + 1
      ensures Evaluate(t, total) <= distance
    {
      EvaluatePeak(t, total);
    }
    CountNone(total, distance, 0, total + 1);
  }

  /** A race can be won exactly when the middle hold time beats the record. */
  lemma WinnableIffPeakBeats(total: nat, distance: nat)
    ensures CountWins(total, distance) > 0 <==> Evaluate(total / 2, total) > distance
  {
    if Evaluate(total / 2, total) <= distance {
      NoWins(total, distance);
    } else {
      CountSplit(total, distance, 0, total / 2, total + 1);
      CountSplit(total, distance, total / 2, total / 2 + 1, total + 1);
    }
  }

  /** What `get_ways_to_win` as written answers for one race: `None` for
      the underflow of a race of length 0, the true count when the middle
      hold time beats the record, and otherwise 0 for a one millisecond race
      and `1 + total % 2` for a longer one. */
  function WaysAsWritten(total: nat, distance: nat): Option<nat>
  {
    if total == 0 then None
    else if Evaluate(total / 2, total) > distance then Some(CountWins(total, distance))
    else if total == 1 then Some(0)
    else Some(1 + total % 2)
  }

  /** The answer as written is the true count exactly when the race can be
      won or lasts one millisecond; a longer unwinnable race is overcounted. */
  lemma AsWrittenAgrees(total: nat, distance: nat)
    requires total > 0
    ensures WaysAsWritten(total, distance) == Some(CountWins(total, distance)) <==>
      Evaluate(total / 2, total) > distance || total == 1
    ensures WaysAsWritten(total, distance).Some?
  {
    if Evaluate(total / 2, total) <= distance {
      NoWins(total, distance);
    }
  }

  // ---------------------------------------------------------------------
  // The binary search

  /** `get_ways_to_win` as written: bisect `[0, total / 2]` for the last
      losing hold time, then count the hold times between it and its mirror.
      `None` is the `u64` underflow of `total + 1 - 2` when `total` is 0.
      When the record beats even the middle hold time the search never moves
      `min_ok_time`, and the count comes out as `1 + total % 2` rather than 0. */
  method WaysToWinAsWritten(total: nat, distance: nat) returns (r: Option<nat>)
    ensures total == 0 <==> r.None?
    ensures total == 1 ==> r == Some(0)
    ensures total >= 1 && Evaluate(total / 2, total) > distance ==> r == Some(CountWins(total, distance))
    ensures total >= 2 && Evaluate(total / 2, total) <= distance ==> r == Some(1 + total % 2)
    ensures r == WaysAsWritten(total, distance)
  {
    var maxNok: nat := 0;
    var minOk: nat := total / 2;
    while minOk - maxNok > 1
      invariant maxNok <= minOk <= total / 2
      invariant maxNok < minOk || minOk == 0
      invariant Evaluate(maxNok, total) <= distance
      invariant minOk == total / 2 || Evaluate(minOk, total) > distance
      decreases minOk - maxNok
    {
      var mid := maxNok + (minOk - maxNok) / 2;
      if Evaluate(mid, total) > distance {
        minOk := mid;
      } else {
        maxNok := mid;
      }
    }
    if total + 1 < 2 * (maxNok + 1) {
      return None;
    }
    if Evaluate(total / 2, total) > distance {
      WinsBetween(total, distance, maxNok);
    } else if minOk != total / 2 {
      EvaluateMonotone(minOk, total / 2, total);
    }
    return Some(total + 1 - 2 * (maxNok + 1));
  }

  /** The ways to win one race: as the search above, with the unbeatable
      record answered by 0 before the search starts. */
  method WaysToWin(total: nat, distance: nat) returns (r: nat)
    ensures r == CountWins(total, distance)
  {
    if Evaluate(total / 2, total) <= distance {
      NoWins(total, distance);
      return 0;
    }
    var found := WaysToWinAsWritten(total, distance);
    return found.value;
  }

  /** The record 4 in a four millisecond race cannot be beaten (the hold
      times go 0, 3, 4, 3, 0), yet `WaysToWinAsWritten` answers 1. */
  lemma UnbeatableRace()
    ensures Evaluate(4 / 2, 4) <= 4 && 1 + 4 % 2 == 1
    ensures CountWins(4, 4) == 0
  {
    NoWins(4, 4);
  }

  // ---------------------------------------------------------------------
  // All races

  /** The product of the ways to win over the first `n` races. */
  function WaysProduct(times: seq<nat>, distances: seq<nat>, n: nat): nat
    requires n <= |times| && n <= |distances|
  {
    if n == 0 then 1
    else WaysProduct(times, distances, n - 1) * CountWins(times[n - 1], distances[n - 1])
  }

  /** The product is zero exactly when one of the races cannot be won. */
  lemma {:induction false} ProductZeroIff(times: seq<nat>, distances: seq<nat>, n: nat)
    requires n <= |times| && n <= |distances|
    ensures WaysProduct(times, distances, n) == 0 <==>
      exists i :: 0 <= i < n && Evaluate(times[i] / 2, times[i]) <= distances[i]
  {
    if n > 0 {
      ProductZeroIff(times, distances, n - 1);
      WinnableIffPeakBeats(times[n - 1], distances[n - 1]);
    }
  }

  /** The product `main` computes over the first `n` races as written:
      each race answered by `get_ways_to_win`, `None` once one underflows. */
  function ProductAsWritten(times: seq<nat>, distances: seq<nat>, n: nat): Option<nat>
    requires n <= |times| && n <= |distances|
  {
    if n == 0 then Some(1)
    else match (ProductAsWritten(times, distances, n - 1), WaysAsWritten(times[n - 1], distances[n - 1]))
      case (Some(p), Some(w)) => Some(p * w)
      case _ => None
  }

  /** The product as written fails exactly when a race lasts 0 milliseconds,
      and agrees with the true product when every race can be won. */
  lemma {:induction false} ProductAsWrittenMeets(times: seq<nat>, distances: seq<nat>, n: nat)
    requires n <= |times| && n <= |distances|
    ensures ProductAsWritten(times, distances, n).None? <==> exists i :: 0 <= i < n && times[i] == 0
    ensures (forall i :: 0 <= i < n ==> Evaluate(times[i] / 2, times[i]) > distances[i]) ==>
      ProductAsWritten(times, distances, n) == Some(WaysProduct(times, distances, n))
  {
    if n > 0 {
      ProductAsWrittenMeets(times, distances, n - 1);
      if times[n - 1] > 0 {
        AsWrittenAgrees(times[n - 1], distances[n - 1]);
      }
    }
  }

  /** A single unbeatable four millisecond race: `main` prints 1, while no
      way of winning it exists. */
  lemma UnbeatableProduct()
    ensures ProductAsWritten([4], [4], 1) == Some(1)
    ensures WaysProduct([4], [4], 1) == 0
  {
    UnbeatableRace();
  }

  /** `main` as written: zip the times with the records (the longer list is
      cut), answer each race with `get_ways_to_win` and multiply; no race at
      all is the `unwrap` of an empty `reduce`, and a race of length 0 is the
      underflow inside `get_ways_to_win`. */
  method RaceProduct(times: seq<nat>, distances: seq<nat>) returns (r: Option<nat>)
    ensures r.None? <==>
      (times == [] || distances == [] || exists i :: 0 <= i < Min(|times|, |distances|) && times[i] == 0)
    ensures r.Some? ==> r == ProductAsWritten(times, distances, Min(|times|, |distances|))
  {
    var n := Min(|times|, |distances|);
    if n == 0 {
      return None;
    }
    var first := WaysToWinAsWritten(times[0], distances[0]);
    if first.None? {
      return None;
    }
    var acc := first.value;
    for i := 1 to n
      invariant ProductAsWritten(times, distances, i) == Some(acc)
    {
      var ways := WaysToWinAsWritten(times[i], distances[i]);
      if ways.None? {
        ProductAsWrittenMeets(times, distances, n);
        return None;
      }
      acc := acc * ways.value;
    }
    ProductAsWrittenMeets(times, distances, n);
    return Some(acc);
  }

  /** The product `main` evidently means: the same zip and multiplication
      with every race answered by its true count of ways to win. */
  method CorrectedRaceProduct(times: seq<nat>, distances: seq<nat>) returns (r: Option<nat>)
    ensures r.None? <==> times == [] || distances == []
    ensures r.Some? ==> r.value == WaysProduct(times, distances, Min(|times|, |distances|))
  {
    var n := Min(|times|, |distances|);
    if n == 0 {
      return None;
    }
    var acc := WaysToWin(times[0], distances[0]);
    for i := 1 to n
      invariant acc == WaysProduct(times, distances, i)
    {
      var ways := WaysToWin(times[i], distances[i]);
      acc := acc * ways;
    }
    return Some(acc);
  }
}

/** The exponential moving average of server/store.cpp: each sample moves the average a quarter of
    the way, rounded down because `>> 2` shifts arithmetically. */
module Smoothing {

  /** `average + ((value - average) >> 2)`. Division by a positive constant rounds down, as the shift does. */
  function Smooth(average: int, value: int): int
  {
    average + (value - average) / 4
  }

  /** `to` lies a quarter of the way from `from` to `value`, rounded down. */
  predicate QuarterStep(from: int, value: int, to: int)
  {
    4 * (to - from) <= value - from < 4 * (to - from) + 4
  }

  /** Each sample moves the average by exactly the floor of a quarter of the difference. */
  lemma MovesAQuarter(average: int, value: int, next: int)
    ensures next == Smooth(average, value) <==> QuarterStep(average, value, next)
  {
  }

  /** The average after the samples `values`: the first one is taken as it is. */
  function Average(values: seq<int>): int
    requires values != []
  {
    var n := |values| - 1;
    if n == 0 then values[0] else Smooth(Average(values[..n]), values[n])
  }

  predicate Within(values: seq<int>, lo: int, hi: int)
  {
    forall i :: 0 <= i < |values| ==> lo <= values[i] <= hi
  }

  /** The average never leaves the range of the samples seen. */
  lemma {:induction false} AverageWithin(values: seq<int>, lo: int, hi: int)
    requires values != [] && Within(values, lo, hi)
    ensures lo <= Average(values) <= hi
  {
    var n := |values| - 1;
    if n > 0 {
      AverageWithin(values[..n], lo, hi);
    }
  }

  predicate FitsI32(n: int)
  {
    -0x8000_0000 <= n < 0x8000_0000
  }

  /** The 32-bit subtraction `value_milli - average_milli` cannot overflow while the samples span less
      than 2^31. */
  lemma NoOverflow(values: seq<int>, value: int, lo: int, hi: int)
    requires values != [] && Within(values + [value], lo, hi) && hi - lo < 0x8000_0000
    ensures FitsI32(value - Average(values))
  {
    assert forall i :: 0 <= i < |values| ==> (values + [value])[i] == values[i];
    assert (values + [value])[|values|] == value;
    AverageWithin(values, lo, hi);
  }

  /** A sample of the range can be smoothed in after samples of the range. */
  predicate StaysIn32(values: seq<int>, value: int, lo: int, hi: int)
  {
    values != [] && Within(values + [value], lo, hi) ==> FitsI32(value - Average(values))
  }

  /** That span is exact: no samples of a range overflow if and only if the range is narrower than 2^31. */
  lemma OverflowFreeRange(lo: int, hi: int)
    requires lo <= hi
    ensures (forall values, value :: StaysIn32(values, value, lo, hi)) <==> hi - lo < 0x8000_0000
  {
    if hi - lo < 0x8000_0000 {
      forall values, value
        ensures StaysIn32(values, value, lo, hi)
      {
        if values != [] && Within(values + [value], lo, hi) {
          NoOverflow(values, value, lo, hi);
        }
      }
    } else {
      assert !StaysIn32([lo], hi, lo, hi);
    }
  }

  /** The average after `n` samples of one value. */
  function Steady(average: int, value: int, n: nat): int
  {
    if n == 0 then average else Smooth(Steady(average, value, n - 1), value)
  }

  /** Where constant input leads: to the value itself from above, but only to within three of it from below. */
  function SteadyLimit(average: int, value: int): int
  {
    if average >= value then value
    else if average >= value - 3 then average
    else value - 3
  }

  function Distance(a: int, b: int): nat
  {
    if a < b then b - a else a - b
  }

  /** Constant input moves monotonically towards the limit, at least one unit per sample until there. */
  lemma {:induction false} SteadyProgress(average: int, value: int, n: nat)
    ensures var s, l := Steady(average, value, n), SteadyLimit(average, value);
            if average >= l then l <= s <= (if average - n > l then average - n else l)
            else (if average + n < l then average + n else l) <= s <= l
  {
    if n > 0 {
      SteadyProgress(average, value, n - 1);
    }
  }

  /** The limit is reached exactly, and kept. */
  lemma SteadyReachesLimit(average: int, value: int, n: nat)
    requires n >= Distance(average, SteadyLimit(average, value))
    ensures Steady(average, value, n) == SteadyLimit(average, value)
  {
    SteadyProgress(average, value, n);
  }

  /** Constant input lifts an average above the threshold `t` eventually if and only if the value is
      at least `t + 4`, when it starts at or below `t`. */
  lemma CrossesThreshold(average: int, value: int, t: int)
    requires average <= t
    ensures (exists n: nat :: Steady(average, value, n) > t) <==> value >= t + 4
  {
    if value >= t + 4 {
      SteadyReachesLimit(average, value, Distance(average, SteadyLimit(average, value)));
    } else {
      forall n: nat
        ensures Steady(average, value, n) <= t
      {
        SteadyProgress(average, value, n);
      }
    }
  }
}

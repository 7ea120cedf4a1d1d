/**
 * Operation duration statistics (rdc_tool/runtime_state.py, percentile and
 * summarize_operation_durations), over exact reals.
 */
module Durations {
  import Sorting

  function Itself(x: int): int {
    x
  }

  function Sorted(values: seq<int>): seq<int> {
    Sorting.Sorted(values, Itself)
  }

  predicate Ascending(s: seq<int>) {
    forall i, j :: 0 <= i < j < |s| ==> s[i] <= s[j]
  }

  predicate Within(s: seq<int>, lower: int, upper: int) {
    forall i :: 0 <= i < |s| ==> lower <= s[i] <= upper
  }

  /** The result is ordered, and a permutation of the values. */
  lemma SortedSorts(values: seq<int>)
    ensures Ascending(Sorted(values)) && multiset(Sorted(values)) == multiset(values)
    ensures |Sorted(values)| == |values|
  {
    Sorting.SortedIsStable(values, Itself, 0);
    Sorting.SortedMembers(values, Itself);
    var sorted := Sorted(values);
    forall i, j | 0 <= i < j < |sorted| ensures sorted[i] <= sorted[j] {
      assert Itself(sorted[i]) <= Itself(sorted[j]);
    }
  }

  lemma SortedKeepsBounds(values: seq<int>, lower: int, upper: int)
    requires Within(values, lower, upper)
    ensures Within(Sorted(values), lower, upper)
  {
    Sorting.SortedMembers(values, Itself);
    forall i | 0 <= i < |Sorted(values)| ensures lower <= Sorted(values)[i] <= upper {
      assert Sorted(values)[i] in values;
    }
  }

  function Clamped(pct: real): real {
    if pct < 0.0 then 0.0 else if 1.0 < pct then 1.0 else pct
  }

  function Rank(pct: real, n: nat): (r: real)
    requires 0 < n
    ensures 0.0 <= r <= (n - 1) as real
  {
    var p := Clamped(pct);
    assert p * (n - 1) as real <= 1.0 * (n - 1) as real;
    p * (n - 1) as real
  }

  /** Linear interpolation between the two neighbouring ranks. */
  function Interpolated(items: seq<int>, rank: real): real
    requires items != [] && 0.0 <= rank <= (|items| - 1) as real
  {
    var lo := rank.Floor;
    var hi := if lo + 1 < |items| - 1 then lo + 1 else |items| - 1;
    if lo == hi then items[lo] as real
    else
      var frac := rank - lo as real;
      items[lo] as real * (1.0 - frac) + items[hi] as real * frac
  }

  function Percentile(values: seq<int>, pct: real): real {
    if values == [] then 0.0
    else
      SortedSorts(values);
      var items := Sorted(values);
      if |items| == 1 then items[0] as real else Interpolated(items, Rank(pct, |items|))
  }

  datatype Summary = Summary(count: real, average: real, p95: real, max: real)

  function NonNegative(values: seq<int>): seq<int> {
    if values == [] then []
    else if 0 <= values[0] then [values[0]] + NonNegative(values[1..])
    else NonNegative(values[1..])
  }

  function Sum(values: seq<int>): int {
    if values == [] then 0 else values[0] + Sum(values[1..])
  }

  function Largest(values: seq<int>): int
    requires values != []
  {
    if |values| == 1 then values[0]
    else
      var rest := Largest(values[1..]);
      if values[0] < rest then rest else values[0]
  }

  function Mean(values: seq<int>): (m: real)
    requires values != []
    ensures m * |values| as real == Sum(values) as real
  {
    Quotient(Sum(values) as real, |values| as real);
    Sum(values) as real / |values| as real
  }

  function Summarize(values: seq<int>): Summary {
    var items := NonNegative(values);
    if items == [] then Summary(0.0, 0.0, 0.0, 0.0)
    else Summary(|items| as real, Mean(items), Percentile(items, 0.95), Largest(items) as real)
  }

  // ----- Interpolation

  lemma MixBetween(a: real, b: real, frac: real)
    requires a <= b && 0.0 <= frac <= 1.0
    ensures a <= a * (1.0 - frac) + b * frac <= b
  {
    MixIsRise(a, b, frac);
    Product(b - a, frac);
    Product(b - a, 1.0 - frac);
    Distribute(1.0, frac, b - a);
    assert (b - a) * (1.0 - frac) == (1.0 - frac) * (b - a);
  }

  lemma Distribute(a: real, b: real, c: real)
    ensures (a - b) * c == a * c - b * c
  {
  }

  lemma Product(a: real, b: real)
    requires 0.0 <= a && 0.0 <= b
    ensures 0.0 <= a * b
  {
  }

  lemma MixIsRise(a: real, b: real, frac: real)
    ensures a * (1.0 - frac) + b * frac == a + (b - a) * frac
  {
    assert a * (1.0 - frac) == a - a * frac;
    assert (b - a) * frac == b * frac - a * frac;
  }

  lemma MixMonotone(a: real, b: real, f: real, g: real)
    requires a <= b && f <= g
    ensures a * (1.0 - f) + b * f <= a * (1.0 - g) + b * g
  {
    MixIsRise(a, b, f);
    MixIsRise(a, b, g);
    Product(g - f, b - a);
    Distribute(g, f, b - a);
    assert g * (b - a) == (b - a) * g && f * (b - a) == (b - a) * f;
  }

  /** The value lies between its two neighbours. */
  lemma InterpolatedBetween(items: seq<int>, rank: real)
    requires items != [] && Ascending(items) && 0.0 <= rank <= (|items| - 1) as real
    ensures items[rank.Floor] as real <= Interpolated(items, rank)
    ensures rank.Floor + 1 < |items| ==> Interpolated(items, rank) <= items[rank.Floor + 1] as real
    ensures rank == rank.Floor as real ==> Interpolated(items, rank) == items[rank.Floor] as real
  {
    var lo := rank.Floor;
    if lo + 1 < |items| {
      MixBetween(items[lo] as real, items[lo + 1] as real, rank - lo as real);
    }
  }

  /** In full: on the straight line between two neighbours, at its share of the way. */
  lemma InterpolatedIs(items: seq<int>, rank: real, k: nat)
    requires k + 1 < |items| && k as real <= rank <= (k + 1) as real
    ensures rank <= (|items| - 1) as real
    ensures Interpolated(items, rank) == items[k] as real + (items[k + 1] - items[k]) as real * (rank - k as real)
  {
    if rank < (k + 1) as real {
      assert rank.Floor == k;
      MixIsRise(items[k] as real, items[k + 1] as real, rank - k as real);
    } else {
      assert rank.Floor == k + 1 && rank - k as real == 1.0;
      InterpolatedAt(items, k + 1);
      var rise := (items[k + 1] - items[k]) as real;
      assert rise * 1.0 == rise;
    }
  }

  lemma InterpolatedAt(items: seq<int>, k: nat)
    requires k < |items|
    ensures Interpolated(items, k as real) == items[k] as real
  {
    assert (k as real).Floor == k;
    if k + 1 < |items| {
      MixIsRise(items[k] as real, items[k + 1] as real, 0.0);
    }
  }

  /** Monotone across breakpoints as well as between them. */
  lemma InterpolatedMonotone(items: seq<int>, r: real, s: real)
    requires items != [] && Ascending(items) && 0.0 <= r <= s <= (|items| - 1) as real
    ensures Interpolated(items, r) <= Interpolated(items, s)
  {
    var lo, at := r.Floor, s.Floor;
    InterpolatedBetween(items, r);
    InterpolatedBetween(items, s);
    if lo == at {
      if lo + 1 < |items| {
        MixMonotone(items[lo] as real, items[lo + 1] as real, r - lo as real, s - lo as real);
      }
    } else {
      assert items[lo + 1] <= items[at];
    }
  }

  // ----- Main results

  /** Between the minimum and the maximum: any common bounds of the values bound the percentile. */
  lemma PercentileWithinRange(values: seq<int>, pct: real, lower: int, upper: int)
    requires values != [] && Within(values, lower, upper)
    ensures lower as real <= Percentile(values, pct) <= upper as real
  {
    SortedSorts(values);
    var items := Sorted(values);
    SortedKeepsBounds(values, lower, upper);
    if |items| > 1 {
      var rank := Rank(pct, |items|);
      var last := (|items| - 1) as real;
      InterpolatedBetween(items, rank);
      InterpolatedMonotone(items, rank, last);
      InterpolatedBetween(items, last);
      assert lower <= items[rank.Floor] && items[|items| - 1] <= upper;
    }
  }

  lemma RankMonotone(p: real, q: real, n: nat)
    requires p <= q && 0 < n
    ensures Rank(p, n) <= Rank(q, n)
  {
    Product(Clamped(q) - Clamped(p), (n - 1) as real);
    Distribute(Clamped(q), Clamped(p), (n - 1) as real);
  }

  lemma PercentileMonotone(values: seq<int>, p: real, q: real)
    requires p <= q
    ensures Percentile(values, p) <= Percentile(values, q)
  {
    if values != [] {
      SortedSorts(values);
      var items := Sorted(values);
      if |items| > 1 {
        RankMonotone(p, q, |items|);
        InterpolatedMonotone(items, Rank(p, |items|), Rank(q, |items|));
      }
    }
  }

  /** At an integral rank the percentile is that element of the sorted list. */
  lemma PercentileAtRank(values: seq<int>, pct: real, k: nat)
    requires values != [] && k < |values|
    requires Clamped(pct) * (|values| - 1) as real == k as real
    ensures |Sorted(values)| == |values| && Percentile(values, pct) == Sorted(values)[k] as real
  {
    SortedSorts(values);
    if |values| > 1 {
      var rank := Rank(pct, |values|);
      assert rank == k as real && rank.Floor == k;
      InterpolatedBetween(Sorted(values), rank);
    }
  }

  /** A pct from 0 to 1 lies between two neighbouring ranks, and the percentile on the line between their values. */
  lemma PercentileIs(values: seq<int>, pct: real, rank: real, k: nat)
    requires 0.0 <= pct <= 1.0 && k + 1 < |values| && rank == pct * (|values| - 1) as real
    requires k as real <= rank <= (k + 1) as real
    ensures |Sorted(values)| == |values|
    ensures Percentile(values, pct) ==
      Sorted(values)[k] as real + (Sorted(values)[k + 1] - Sorted(values)[k]) as real * (rank - k as real)
  {
    SortedSorts(values);
    assert Rank(pct, |values|) == rank;
    assert Percentile(values, pct) == Interpolated(Sorted(values), rank);
    InterpolatedIs(Sorted(values), rank, k);
  }

  /** Beyond 0 and 1 it is the least and the greatest value. */
  lemma PercentileEnds(values: seq<int>, pct: real)
    ensures values == [] ==> Percentile(values, pct) == 0.0
    ensures |Sorted(values)| == |values|
    ensures values != [] && pct <= 0.0 ==> Percentile(values, pct) == Sorted(values)[0] as real
    ensures values != [] && 1.0 <= pct ==> Percentile(values, pct) == Sorted(values)[|values| - 1] as real
  {
    SortedSorts(values);
    if values != [] && pct <= 0.0 {
      PercentileAtRank(values, pct, 0);
    }
    if values != [] && 1.0 <= pct {
      PercentileAtRank(values, pct, |values| - 1);
    }
  }

  lemma {:induction false} LargestIsLargest(values: seq<int>)
    requires values != []
    ensures exists i :: 0 <= i < |values| && values[i] == Largest(values)
    ensures forall i :: 0 <= i < |values| ==> values[i] <= Largest(values)
  {
    if |values| > 1 {
      LargestIsLargest(values[1..]);
      var i :| 0 <= i < |values[1..]| && values[1..][i] == Largest(values[1..]);
      assert values[i + 1] == Largest(values[1..]);
      assert forall k :: 0 < k < |values| ==> values[k] == values[1..][k - 1];
    } else {
      assert values[0] == Largest(values);
    }
  }

  lemma {:induction false} SumWithin(values: seq<int>, lower: int, upper: int)
    requires Within(values, lower, upper)
    ensures lower * |values| <= Sum(values) <= upper * |values|
  {
    if values != [] {
      SumWithin(values[1..], lower, upper);
      assert upper * |values| == upper + upper * |values[1..]|;
      assert lower * |values| == lower + lower * |values[1..]|;
    }
  }

  lemma {:induction false} NonNegativeIsSo(values: seq<int>)
    ensures forall i :: 0 <= i < |NonNegative(values)| ==> 0 <= NonNegative(values)[i]
  {
    if values != [] {
      NonNegativeIsSo(values[1..]);
    }
  }

  lemma Ratio(sum: int, n: int, m: int)
    requires 0 < n && 0 <= sum <= m * n
    ensures 0.0 <= sum as real / n as real <= m as real
  {
    assert sum as real <= m as real * n as real;
    assert sum as real / n as real * n as real == sum as real;
  }

  /** Negative values are left out; the rest stay in order. */
  lemma {:induction false} NonNegativeAre(before: seq<int>, v: int)
    ensures NonNegative([]) == []
    ensures NonNegative(before + [v]) == NonNegative(before) + if v < 0 then [] else [v]
  {
    if before == [] {
      assert before + [v] == [v] && [v][1..] == [];
    } else {
      assert (before + [v])[1..] == before[1..] + [v];
      NonNegativeAre(before[1..], v);
    }
  }

  lemma Quotient(a: real, b: real)
    requires b != 0.0
    ensures a / b * b == a
  {
  }

  lemma {:induction false} SumIs(before: seq<int>, v: int)
    ensures Sum([]) == 0 && Sum(before + [v]) == Sum(before) + v
  {
    if before == [] {
      assert before + [v] == [v] && [v][1..] == [];
    } else {
      assert (before + [v])[1..] == before[1..] + [v];
      SumIs(before[1..], v);
    }
  }

  /** Count, mean and maximum of the values that are left, and their 95th percentile; zeros when there are none. */
  lemma SummaryIs(values: seq<int>)
    ensures var s, items := Summarize(values), NonNegative(values);
      && s.count == |items| as real
      && (items == [] ==> s.average == 0.0 && s.p95 == 0.0 && s.max == 0.0)
      && (items != [] ==>
            && s.average == Mean(items)
            && s.p95 == Percentile(items, 0.95)
            && (exists i :: 0 <= i < |items| && s.max == items[i] as real)
            && forall i :: 0 <= i < |items| ==> items[i] as real <= s.max)
  {
    var items := NonNegative(values);
    if items != [] {
      LargestIsLargest(items);
    }
  }

  /** Neither the average nor the 95th percentile ever exceeds the maximum. */
  lemma SummaryIsBounded(values: seq<int>)
    ensures var s := Summarize(values);
            0.0 <= s.average <= s.max && 0.0 <= s.p95 <= s.max
  {
    var items := NonNegative(values);
    if items != [] {
      NonNegativeIsSo(values);
      LargestIsLargest(items);
      SumWithin(items, 0, Largest(items));
      Ratio(Sum(items), |items|, Largest(items));
      PercentileWithinRange(items, 0.95, 0, Largest(items));
    }
  }
}

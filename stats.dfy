/** `calculate_stats`: the minimum, maximum, mean and median of the latencies a server answered with. */
module Stats {
  import opened Wrappers
  import opened Seqs

  datatype Summary = Summary(min: real, max: real, average: real, median: real)

  function Identity(x: real): real {
    x
  }

  /** The first element of a sorted permutation of `s` is the smallest element of `s`, the last the
      largest. */
  lemma SortedEnds(s: seq<real>, sorted: seq<real>)
    requires s != []
    requires SortedBy(sorted, Identity) && multiset(sorted) == multiset(s)
    ensures sorted[0] == MinOf(s) && sorted[|sorted| - 1] == MaxOf(s)
  {
    assert |sorted| == |multiset(sorted)| == |s|;
    forall i | 0 <= i < |s|
      ensures sorted[0] <= s[i] <= sorted[|sorted| - 1]
    {
      assert s[i] in multiset(sorted);
      var j :| 0 <= j < |sorted| && sorted[j] == s[i];
      assert Identity(sorted[0]) <= Identity(sorted[j]) || j == 0;
      assert Identity(sorted[j]) <= Identity(sorted[|sorted| - 1]) || j == |sorted| - 1;
    }
    assert sorted[0] in multiset(s);
    assert sorted[|sorted| - 1] in multiset(s);
  }

  lemma SortedOrder(sorted: seq<real>, i: nat, j: nat)
    requires SortedBy(sorted, Identity) && i <= j < |sorted|
    ensures sorted[i] <= sorted[j]
  {
    if i < j {
      assert Identity(sorted[i]) <= Identity(sorted[j]);
    }
  }

  /** `calculate_stats(times)`: `None` for no samples; otherwise sort ascending and take the ends, the
      mean, and the middle sample (the mean of the two middle samples for an even count). */
  function CalculateStats(times: seq<real>): (r: Option<Summary>)
    ensures r.None? <==> times == []
    ensures r.Some? ==> r.value.min == MinOf(times) && r.value.max == MaxOf(times)
    ensures r.Some? ==> r.value.average == Sum(times) / (|times| as real)
    ensures r.Some? ==> r.value.min <= r.value.average <= r.value.max
    ensures r.Some? ==> r.value.min <= r.value.median <= r.value.max
  {
    if times == [] then None
    else
      var sorted := SortBy(times, Identity);
      var n := |sorted|;
      var median := if n % 2 == 0 then (sorted[n / 2 - 1] + sorted[n / 2]) / 2.0 else sorted[n / 2];
      SortedEnds(times, sorted);
      SumOfPermutation(sorted, times);
      MeanBetween(times, MinOf(times), MaxOf(times));
      SortedOrder(sorted, 0, n / 2);
      SortedOrder(sorted, n / 2, n - 1);
      SortedOrder(sorted, 0, if n % 2 == 0 then n / 2 - 1 else 0);
      SortedOrder(sorted, if n % 2 == 0 then n / 2 - 1 else 0, n - 1);
      Some(Summary(sorted[0], sorted[n - 1], Sum(sorted) / (n as real), median))
  }

  /** A single sample is its own minimum, maximum, mean and median. */
  lemma OneSample(t: real)
    ensures CalculateStats([t]) == Some(Summary(t, t, t, t))
  {
    assert SortBy([t], Identity) == [t] by {
      assert multiset(SortBy([t], Identity)) == multiset{t};
      assert |SortBy([t], Identity)| == 1;
      assert SortBy([t], Identity)[0] in multiset{t};
    }
    assert Sum([t]) == Sum([]) + t;
  }
}

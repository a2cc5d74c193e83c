/** The summary of a finished test run: the fastest result, the overall latency range and mean, the
    success rate, the latency and reliability grades and the network score (src/utils/dnsMetrics.ts,
    with the thresholds of src/config/constants.ts). Latencies are `real`. */
module Metrics {
  import opened Wrappers
  import opened Seqs
  import opened Types

  const LatencyExcellent: real := 20.0
  const LatencyGreat: real := 35.0
  const LatencyGood: real := 60.0
  const LatencyFair: real := 90.0
  /** The last latency-score band, which has no grade of its own. */
  const LatencyPoorScoreCutoff: real := 120.0

  const ReliabilityExcellent: real := 0.98
  const ReliabilityGreat: real := 0.9
  const ReliabilityGood: real := 0.75
  const ReliabilityFair: real := 0.5

  datatype Grade = Excellent | Great | Good | Fair | Poor | Unknown

  /** Known grades, best first. */
  function Rank(g: Grade): nat {
    match g
    case Excellent => 0
    case Great => 1
    case Good => 2
    case Fair => 3
    case Poor => 4
    case Unknown => 5
  }

  /** The average of a result that has a numeric one. */
  function AverageOf(r: DnsTestResult): real {
    if r.average.Ms? then r.average.ms else 0.0
  }

  /** `results.filter((r) => typeof r.average === 'number')`. */
  function Numeric(results: seq<DnsTestResult>): (r: seq<DnsTestResult>)
    ensures |r| <= |results|
    ensures forall i :: 0 <= i < |r| ==> r[i].average.Ms?
  {
    if results == [] then []
    else
      var init := results[..|results| - 1];
      var last := results[|results| - 1];
      assert results == init + [last];
      Numeric(init) + if last.average.Ms? then [last] else []
  }

  /** The filter keeps exactly the results with a numeric average. */
  lemma {:induction false} NumericMembers(results: seq<DnsTestResult>, x: DnsTestResult)
    ensures x in Numeric(results) <==> x in results && x.average.Ms?
    decreases |results|
  {
    if results != [] {
      var init := results[..|results| - 1];
      NumericMembers(init, x);
      assert results == init + [results[|results| - 1]];
    }
  }

  lemma NumericSnoc(results: seq<DnsTestResult>, x: DnsTestResult)
    ensures Numeric(results + [x]) == Numeric(results) + if x.average.Ms? then [x] else []
  {
    assert (results + [x])[..|results|] == results;
  }

  // ---------------------------------------------------------------------------
  // getFastestResult

  /** The first of the results with a numeric average after a stable sort by average. */
  function GetFastestResult(results: seq<DnsTestResult>): (r: Option<DnsTestResult>)
    ensures r.None? <==> forall i :: 0 <= i < |results| ==> !results[i].average.Ms?
    ensures r.Some? ==> r.value in results && r.value.average.Ms?
    ensures r.Some? ==> forall i :: 0 <= i < |results| && results[i].average.Ms? ==>
      r.value.average.ms <= results[i].average.ms
  {
    var candidates := Numeric(results);
    if candidates == [] then
      assert forall i :: 0 <= i < |results| ==> !results[i].average.Ms? by {
        forall i | 0 <= i < |results| ensures !results[i].average.Ms? {
          NumericMembers(results, results[i]);
        }
      }
      None
    else
      var sorted := SortBy(candidates, AverageOf);
      assert sorted[0] in multiset(candidates);
      assert sorted[0] in candidates;
      NumericMembers(results, sorted[0]);
      SortByHead(candidates, AverageOf);
      assert forall i :: 0 <= i < |results| && results[i].average.Ms? ==> AverageOf(sorted[0]) <= AverageOf(results[i]) by {
        forall i | 0 <= i < |results| && results[i].average.Ms?
          ensures AverageOf(sorted[0]) <= AverageOf(results[i])
        {
          NumericMembers(results, results[i]);
        }
      }
      Some(sorted[0])
  }

  /** Adding one result: it becomes the fastest only when it is strictly faster than the fastest so far. */
  lemma FastestSnoc(results: seq<DnsTestResult>, x: DnsTestResult)
    ensures var before := GetFastestResult(results);
      GetFastestResult(results + [x]) ==
        if x.average.Ms? && (before.None? || x.average.ms < before.value.average.ms) then Some(x) else before
  {
    NumericSnoc(results, x);
    var c := Numeric(results);
    if x.average.Ms? {
      var c' := c + [x];
      assert c'[..|c'| - 1] == c;
      SortByHead(c', AverageOf);
      if c != [] {
        SortByHead(c, AverageOf);
      }
    } else {
      assert c + [] == c;
    }
  }

  /** A result before the last that is as fast as the fastest keeps the last from being the fastest. */
  lemma FastestOfPrefix(results: seq<DnsTestResult>, i: nat)
    requires i < |results| - 1 && results[i].average.Ms?
    requires GetFastestResult(results).Some? ==> results[i].average.ms <= GetFastestResult(results).value.average.ms
    ensures GetFastestResult(results) == GetFastestResult(results[..|results| - 1])
  {
    var init := results[..|results| - 1];
    var x := results[|results| - 1];
    assert results == init + [x];
    FastestSnoc(init, x);
    assert results[i] == init[i];
  }

  /** Among equally fast results the earliest is returned: the fastest result occurs no later than any
      result whose average is not larger. */
  lemma {:induction false} FastestIsEarliest(results: seq<DnsTestResult>, i: nat)
    requires i < |results| && results[i].average.Ms?
    requires GetFastestResult(results).Some? ==> results[i].average.ms <= GetFastestResult(results).value.average.ms
    ensures GetFastestResult(results).value in results[..i + 1]
    decreases |results|
  {
    if i == |results| - 1 {
      assert results[..i + 1] == results;
    } else {
      var init := results[..|results| - 1];
      FastestOfPrefix(results, i);
      assert results[i] == init[i];
      FastestIsEarliest(init, i);
      assert results[..i + 1] == init[..i + 1];
    }
  }

  // ---------------------------------------------------------------------------
  // Grades and the latency score

  /** `computeLatencyGrade`; `None` is a missing average. */
  function LatencyGrade(avg: Option<real>): (g: Grade)
    ensures g == Unknown <==> avg.None?
  {
    match avg
    case None => Unknown
    case Some(a) =>
      if a <= LatencyExcellent then Excellent
      else if a <= LatencyGreat then Great
      else if a <= LatencyGood then Good
      else if a <= LatencyFair then Fair
      else Poor
  }

  /** A larger average never gets a better latency grade. */
  lemma LatencyGradeMonotone(a: real, b: real)
    requires a <= b
    ensures Rank(LatencyGrade(Some(a))) <= Rank(LatencyGrade(Some(b)))
  {
  }

  /** The band of averages each latency grade stands for. */
  lemma LatencyGradeBands(a: real)
    ensures LatencyGrade(Some(a)) == Excellent <==> a <= 20.0
    ensures LatencyGrade(Some(a)) == Great <==> 20.0 < a <= 35.0
    ensures LatencyGrade(Some(a)) == Good <==> 35.0 < a <= 60.0
    ensures LatencyGrade(Some(a)) == Fair <==> 60.0 < a <= 90.0
    ensures LatencyGrade(Some(a)) == Poor <==> 90.0 < a
  {
  }

  /** `computeReliabilityGrade`; a total of 0 and a missing rate give no grade. */
  function ReliabilityGrade(rate: Option<real>, totalServers: int): (g: Grade)
    ensures g == Unknown <==> totalServers == 0 || rate.None?
  {
    if totalServers == 0 || rate.None? then Unknown
    else if rate.value >= ReliabilityExcellent then Excellent
    else if rate.value >= ReliabilityGreat then Great
    else if rate.value >= ReliabilityGood then Good
    else if rate.value >= ReliabilityFair then Fair
    else Poor
  }

  /** A higher success rate never gets a worse reliability grade. */
  lemma ReliabilityGradeMonotone(a: real, b: real, totalServers: int)
    requires a <= b && totalServers != 0
    ensures Rank(ReliabilityGrade(Some(b), totalServers)) <= Rank(ReliabilityGrade(Some(a), totalServers))
  {
  }

  /** The band of success rates each reliability grade stands for. */
  lemma ReliabilityGradeBands(rate: real, totalServers: int)
    requires totalServers != 0
    ensures ReliabilityGrade(Some(rate), totalServers) == Excellent <==> 0.98 <= rate
    ensures ReliabilityGrade(Some(rate), totalServers) == Great <==> 0.9 <= rate < 0.98
    ensures ReliabilityGrade(Some(rate), totalServers) == Good <==> 0.75 <= rate < 0.9
    ensures ReliabilityGrade(Some(rate), totalServers) == Fair <==> 0.5 <= rate < 0.75
    ensures ReliabilityGrade(Some(rate), totalServers) == Poor <==> rate < 0.5
  {
  }

  /** The latency part of the network score. */
  function LatencyScore(avg: real): (s: int)
    ensures 25 <= s <= 95
  {
    if avg <= LatencyExcellent then 95
    else if avg <= LatencyGreat then 85
    else if avg <= LatencyGood then 70
    else if avg <= LatencyFair then 55
    else if avg <= LatencyPoorScoreCutoff then 40
    else 25
  }

  /** A larger average never scores higher, and the score agrees with the latency grade up to `Fair`. */
  lemma LatencyScoreMonotone(a: real, b: real)
    requires a <= b
    ensures LatencyScore(b) <= LatencyScore(a)
    ensures LatencyGrade(Some(a)) == Excellent <==> LatencyScore(a) == 95
    ensures LatencyGrade(Some(a)) == Poor <==> LatencyScore(a) <= 40
  {
  }

  /** `Math.round`: halves round up. */
  function Round(x: real): (n: int)
    ensures x - 0.5 < n as real <= x + 0.5
  {
    (x + 0.5).Floor
  }

  /** 70% latency score, 30% success rate in percent, rounded. With a success rate that is a fraction,
      the score lies between 18 (slow, nothing answered) and 97 (fast, all answered). */
  function NetworkScore(avg: real, successRate: real): (score: int)
    ensures 0.0 <= successRate <= 1.0 ==> 18 <= score <= 97
  {
    var reliabilityScore := successRate * 100.0;
    var x := (LatencyScore(avg) as real) * 0.7 + reliabilityScore * 0.3;
    assert 0.0 <= successRate <= 1.0 ==> 17.5 <= x <= 96.5;
    Round(x)
  }

  // ---------------------------------------------------------------------------
  // computeOverallStats

  datatype OverallStats = OverallStats(
    overallMin: Option<real>,
    overallMax: Option<real>,
    overallAvg: Option<real>,
    validCount: nat,
    totalServers: int,
    successRate: real,
    latencyGrade: Grade,
    reliabilityGrade: Grade,
    networkScore: Option<int>)

  /** The numeric averages, in order. */
  function Averages(results: seq<DnsTestResult>): (a: seq<real>)
    ensures |a| == |Numeric(results)|
    ensures forall i :: 0 <= i < |a| ==> a[i] == Numeric(results)[i].average.ms
  {
    var numeric := Numeric(results);
    seq(|numeric|, i requires 0 <= i < |numeric| => numeric[i].average.ms)
  }

  /** An average is among `Averages` exactly when some result has it. */
  lemma AveragesMembers(results: seq<DnsTestResult>, x: real)
    ensures x in Averages(results) <==> exists i :: 0 <= i < |results| && results[i].average == Ms(x)
  {
    var numeric := Numeric(results);
    if x in Averages(results) {
      var k :| 0 <= k < |numeric| && Averages(results)[k] == x;
      NumericMembers(results, numeric[k]);
    }
    if exists i :: 0 <= i < |results| && results[i].average == Ms(x) {
      var i :| 0 <= i < |results| && results[i].average == Ms(x);
      NumericMembers(results, results[i]);
      var k :| 0 <= k < |numeric| && numeric[k] == results[i];
      assert Averages(results)[k] == x;
    }
  }

  /** `computeOverallStats`. */
  function ComputeOverallStats(results: seq<DnsTestResult>, totalServers: int): (s: OverallStats)
    ensures s.validCount == |Numeric(results)|
    ensures s.overallMin.None? <==> s.validCount == 0
    ensures s.overallMax.None? <==> s.validCount == 0
    ensures s.overallAvg.None? <==> s.validCount == 0
    ensures s.latencyGrade == Unknown <==> s.validCount == 0
    ensures s.networkScore.Some? <==> s.validCount > 0 && totalServers > 0
    ensures totalServers <= 0 ==> s.totalServers == 0 && s.successRate == 0.0 && s.reliabilityGrade == Unknown
    ensures totalServers > 0 ==>
      s.totalServers == totalServers && s.successRate == (s.validCount as real) / (totalServers as real)
  {
    var averages := Averages(results);
    var validCount := |averages|;
    var overallMin := if validCount > 0 then Some(MinOf(averages)) else None;
    var overallMax := if validCount > 0 then Some(MaxOf(averages)) else None;
    var overallAvg := if validCount > 0 then Some(Sum(averages) / (validCount as real)) else None;
    var safeTotal := if totalServers > 0 then totalServers else 0;
    var successRate := if safeTotal > 0 then (validCount as real) / (safeTotal as real) else 0.0;
    var networkScore :=
      if overallAvg.Some? && safeTotal > 0 then
        Some(NetworkScore(overallAvg.value, successRate))
      else None;
    OverallStats(overallMin, overallMax, overallAvg, validCount, safeTotal, successRate,
      LatencyGrade(overallAvg), ReliabilityGrade(Some(successRate), safeTotal), networkScore)
  }

  /** The overall minimum and maximum are averages of some results, bound every numeric average, and
      enclose the overall mean. */
  lemma OverallRange(results: seq<DnsTestResult>, totalServers: int)
    ensures var s := ComputeOverallStats(results, totalServers);
      && (s.overallAvg.Some? ==> s.overallMin.value <= s.overallAvg.value <= s.overallMax.value)
      && (s.overallMin.Some? ==>
            && (exists i :: 0 <= i < |results| && results[i].average == Ms(s.overallMin.value))
            && (exists i :: 0 <= i < |results| && results[i].average == Ms(s.overallMax.value)))
      && (s.overallMin.Some? ==> forall i :: 0 <= i < |results| && results[i].average.Ms? ==>
            s.overallMin.value <= results[i].average.ms <= s.overallMax.value)
  {
    var averages := Averages(results);
    if averages != [] {
      MeanBetween(averages, MinOf(averages), MaxOf(averages));
      AveragesMembers(results, MinOf(averages));
      AveragesMembers(results, MaxOf(averages));
      forall i | 0 <= i < |results| && results[i].average.Ms?
        ensures MinOf(averages) <= results[i].average.ms <= MaxOf(averages)
      {
        AveragesMembers(results, results[i].average.ms);
      }
    }
  }

  /** With no more numeric results than servers, the success rate is a fraction and the network score lies
      between 18 and 97. */
  lemma ScoreBounds(results: seq<DnsTestResult>, totalServers: int)
    ensures var s := ComputeOverallStats(results, totalServers);
      s.validCount <= s.totalServers ==>
        && 0.0 <= s.successRate <= 1.0
        && (s.networkScore.Some? ==> 18 <= s.networkScore.value <= 97)
  {
    var s := ComputeOverallStats(results, totalServers);
    if s.validCount <= s.totalServers && s.totalServers > 0 {
      QuotientBounds(0.0, s.validCount as real, 1.0, s.totalServers as real);
    }
  }
}

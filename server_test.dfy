/** `test_single_server`: query one DoH server for each domain and summarise its latency. Two warm-up
    queries first; a server that answers neither is not tested further. Then one query per domain, in order,
    under a timeout that starts at 5000 ms and halves after every failed query, never below the fastest
    answer seen so far; a server that has never answered is given up on once its timeout is down to 200 ms.
    The network is not modelled: what each query returns is an input (`warmup` for the warm-up queries,
    `main` for the query of each domain, of which only those actually sent are used). */
module ServerTest {
  import opened Wrappers
  import opened Seqs
  import opened Text
  import opened Stats

  const BaseTimeout: real := 5000.0
  const WarmupTimeout: real := 2000.0
  const GiveUpTimeout: real := 200.0
  const WarmupQueries: nat := 2

  datatype ServerInput = ServerInput(name: string, url: string, serverType: string)

  /** What `query_dns` returns: `Ok(Some(latency))`, `Ok(None)` (timed out or the fetch failed) or
      `Err(e)` with the error's message when it has one. */
  datatype Outcome = Latency(ms: real) | Timeout | Failure(message: Option<string>)

  /** `speed` is `None` for a domain that got no answer. */
  datatype DomainResult = DomainResult(website: string, speed: Option<real>)

  datatype ServerResult = ServerResult(
    name: string,
    url: string,
    min: Option<real>,
    max: Option<real>,
    average: Option<real>,
    median: Option<real>,
    error: Option<string>,
    errorDetails: Option<string>,
    individualResults: seq<DomainResult>)

  /** What a test collects: latency samples, error lines, one result per domain, and the timeout each
      main-phase query was sent with. */
  datatype Run = Run(times: seq<real>, errors: seq<string>, results: seq<DomainResult>, timeouts: seq<real>)

  function Then(a: Run, b: Run): Run {
    Run(a.times + b.times, a.errors + b.errors, a.results + b.results, a.timeouts + b.timeouts)
  }

  // ---------------------------------------------------------------------------
  // Warm-up

  function WarmupCount(domains: nat): (r: nat)
    ensures r <= domains && r <= WarmupQueries
    ensures domains > 0 ==> r > 0
  {
    if domains < WarmupQueries then domains else WarmupQueries
  }

  /** The latencies among some outcomes, in order. */
  function Latencies(outcomes: seq<Outcome>): (r: seq<real>)
    ensures |r| <= |outcomes|
  {
    if outcomes == [] then []
    else (if outcomes[0].Latency? then [outcomes[0].ms] else []) + Latencies(outcomes[1..])
  }

  /** No latency at all exactly when no outcome is an answer. */
  lemma {:induction false} NoLatencies(outcomes: seq<Outcome>)
    ensures Latencies(outcomes) == [] <==> forall i :: 0 <= i < |outcomes| ==> !outcomes[i].Latency?
  {
    if outcomes != [] {
      NoLatencies(outcomes[1..]);
      assert forall i :: 1 <= i < |outcomes| ==> outcomes[i] == outcomes[1..][i - 1];
    }
  }

  lemma {:induction false} LatenciesSnoc(outcomes: seq<Outcome>, o: Outcome)
    ensures Latencies(outcomes + [o]) == Latencies(outcomes) + (if o.Latency? then [o.ms] else [])
  {
    if outcomes == [] {
      assert [] + [o] == [o];
    } else {
      var head := if outcomes[0].Latency? then [outcomes[0].ms] else [];
      assert (outcomes + [o])[1..] == outcomes[1..] + [o];
      LatenciesSnoc(outcomes[1..], o);
      AppendAssoc(head, Latencies(outcomes[1..]), if o.Latency? then [o.ms] else []);
    }
  }

  /** No warm-up query was answered, and there is something to test. */
  predicate SkipsMain(domains: seq<string>, warmup: seq<Outcome>) {
    Latencies(warmup) == [] && domains != []
  }

  // ---------------------------------------------------------------------------
  // The main phase

  function ErrorLine(domain: string, o: Outcome): string
    requires !o.Latency?
  {
    match o
    case Timeout => domain + ": Timeout"
    case Failure(message) => domain + ": " + message.GetOr("unknown error")
  }

  /** The timeout for the next query: unchanged after an answer; halved after a failure, but not below the
      fastest answer so far. */
  function NextTimeout(timeout: real, fastest: Option<real>, o: Outcome): (r: real)
    ensures o.Latency? ==> r == timeout
    ensures !o.Latency? && fastest.None? ==> r == timeout / 2.0
    ensures !o.Latency? && fastest.Some? ==> r >= fastest.value && r >= timeout / 2.0
  {
    if o.Latency? then timeout
    else
      var halved := timeout * 0.5;
      if fastest.Some? && halved < fastest.value then fastest.value else halved
  }

  /** The fastest answer so far, after outcome `o`. */
  function NextFastest(fastest: Option<real>, o: Outcome): Option<real> {
    if o.Latency? then
      Some(match fastest case Some(m) => (if o.ms < m then o.ms else m) case None => o.ms)
    else fastest
  }

  function Labelled(domains: seq<string>, suffix: string): (r: seq<string>)
    ensures |r| == |domains|
  {
    seq(|domains|, i requires 0 <= i < |domains| => domains[i] + suffix)
  }

  function Unanswered(domains: seq<string>): (r: seq<DomainResult>)
    ensures |r| == |domains|
    ensures forall i :: 0 <= i < |r| ==> r[i] == DomainResult(domains[i], None)
  {
    seq(|domains|, i requires 0 <= i < |domains| => DomainResult(domains[i], None))
  }

  function Skipped(domains: seq<string>): Run {
    Run([], Labelled(domains, ": Skipped after repeated failures"), Unanswered(domains), [])
  }

  function WarmupFailed(domains: seq<string>): Run {
    Run([], Labelled(domains, ": Warmup failed"), Unanswered(domains), [])
  }

  /** The query of one domain. */
  function Query(domain: string, o: Outcome, timeout: real): Run {
    match o
    case Latency(t) => Run([t], [], [DomainResult(domain, Some(t))], [timeout])
    case _ => Run([], [ErrorLine(domain, o)], [DomainResult(domain, None)], [timeout])
  }

  /** How many domains got an answer. */
  function Answered(results: seq<DomainResult>): (n: nat)
    ensures n <= |results|
  {
    if results == [] then 0 else (if results[0].speed.Some? then 1 else 0) + Answered(results[1..])
  }

  lemma {:induction false} NoneAnswered(results: seq<DomainResult>)
    requires forall i :: 0 <= i < |results| ==> results[i].speed.None?
    ensures Answered(results) == 0
  {
    if results != [] {
      NoneAnswered(results[1..]);
    }
  }

  /** The main phase from domain `k` on, with the timeout and the fastest answer it has reached there. */
  function MainRun(domains: seq<string>, main: seq<Outcome>, k: nat, timeout: real, fastest: Option<real>): (r: Run)
    requires |main| == |domains| && k <= |domains|
    ensures |r.results| == |domains| - k
    decreases |domains| - k
  {
    if k == |domains| then Run([], [], [], [])
    else
      var o := main[k];
      var timeout' := NextTimeout(timeout, fastest, o);
      var fastest' := NextFastest(fastest, o);
      var rest :=
        if fastest'.None? && timeout' <= GiveUpTimeout then Skipped(domains[k + 1..])
        else MainRun(domains, main, k + 1, timeout', fastest');
      Then(Query(domains[k], o, timeout), rest)
  }

  /** What follows domain `k` in the main phase: the skipped rest after a give-up, else the main phase from
      `k + 1`. */
  function RestAfter(domains: seq<string>, main: seq<Outcome>, k: nat, timeout: real, fastest: Option<real>): Run
    requires |main| == |domains| && k < |domains|
  {
    var timeout' := NextTimeout(timeout, fastest, main[k]);
    var fastest' := NextFastest(fastest, main[k]);
    if fastest'.None? && timeout' <= GiveUpTimeout then Skipped(domains[k + 1..])
    else MainRun(domains, main, k + 1, timeout', fastest')
  }

  lemma MainRunUnfold(domains: seq<string>, main: seq<Outcome>, k: nat, timeout: real, fastest: Option<real>)
    requires |main| == |domains| && k < |domains|
    ensures MainRun(domains, main, k, timeout, fastest)
         == Then(Query(domains[k], main[k], timeout), RestAfter(domains, main, k, timeout, fastest))
  {
  }

  /** The speed a domain gets from the outcome of its query. */
  function SpeedOf(o: Outcome): Option<real> {
    if o.Latency? then Some(o.ms) else None
  }

  /** One step of the main phase, field by field. */
  lemma MainRunStep(domains: seq<string>, main: seq<Outcome>, k: nat, timeout: real, fastest: Option<real>)
    requires |main| == |domains| && k < |domains|
    ensures var r := MainRun(domains, main, k, timeout, fastest);
      var rest := RestAfter(domains, main, k, timeout, fastest);
      && r.timeouts == [timeout] + rest.timeouts
      && r.times == (if main[k].Latency? then [main[k].ms] else []) + rest.times
      && |r.errors| == (if main[k].Latency? then 0 else 1) + |rest.errors|
      && r.results == [DomainResult(domains[k], SpeedOf(main[k]))] + rest.results
  {
    MainRunUnfold(domains, main, k, timeout, fastest);
  }

  /** The results of `r`, read from domain `k` on, name the domains in order, and a domain has the latency
      its query returned exactly when its query was among those sent (one per timeout) and was answered. */
  predicate ResultsMatch(domains: seq<string>, main: seq<Outcome>, k: nat, r: Run)
    requires |main| == |domains|
  {
    && k + |r.results| <= |domains| && |r.timeouts| <= |r.results|
    && (forall i :: 0 <= i < |r.results| ==> r.results[i].website == domains[k + i])
    && (forall i :: 0 <= i < |r.results| ==>
          r.results[i].speed == if i < |r.timeouts| && main[k + i].Latency? then Some(main[k + i].ms) else None)
  }

  lemma SkippedMatches(domains: seq<string>, main: seq<Outcome>, k: nat)
    requires |main| == |domains| && k <= |domains|
    ensures ResultsMatch(domains, main, k, Skipped(domains[k..]))
  {
  }

  lemma QueryMatches(domains: seq<string>, main: seq<Outcome>, k: nat, timeout: real, rest: Run)
    requires |main| == |domains| && k < |domains| && ResultsMatch(domains, main, k + 1, rest)
    ensures ResultsMatch(domains, main, k, Then(Query(domains[k], main[k], timeout), rest))
  {
    var r := Then(Query(domains[k], main[k], timeout), rest);
    forall i | 0 < i < |r.results|
      ensures r.results[i] == rest.results[i - 1]
    {
    }
  }

  /** The main phase answers every remaining domain, in order, and a domain gets the latency its query
      returned only if its query was sent; the domains after a give-up are not queried. */
  lemma {:induction false} MainRunResults(domains: seq<string>, main: seq<Outcome>, k: nat, timeout: real, fastest: Option<real>)
    requires |main| == |domains| && k <= |domains|
    ensures ResultsMatch(domains, main, k, MainRun(domains, main, k, timeout, fastest))
    decreases |domains| - k, 1
  {
    if k < |domains| {
      RestMatches(domains, main, k, timeout, fastest);
      MainRunUnfold(domains, main, k, timeout, fastest);
      QueryMatches(domains, main, k, timeout, RestAfter(domains, main, k, timeout, fastest));
    }
  }

  /** What follows a query in the main phase answers the domains after it. */
  lemma {:induction false} RestMatches(domains: seq<string>, main: seq<Outcome>, k: nat, timeout: real, fastest: Option<real>)
    requires |main| == |domains| && k < |domains|
    ensures ResultsMatch(domains, main, k + 1, RestAfter(domains, main, k, timeout, fastest))
    decreases |domains| - k, 0
  {
    var timeout' := NextTimeout(timeout, fastest, main[k]);
    var fastest' := NextFastest(fastest, main[k]);
    if fastest'.None? && timeout' <= GiveUpTimeout {
      SkippedMatches(domains, main, k + 1);
    } else {
      MainRunResults(domains, main, k + 1, timeout', fastest');
    }
  }

  /** The latencies of the queries sent from domain `k` on, after one more query at `k - 1`. */
  lemma SamplesCons(main: seq<Outcome>, k: nat, timeout: real, rest: Run, r: Run)
    requires k < |main| && k + 1 + |rest.timeouts| <= |main|
    requires rest.times == Latencies(main[k + 1..k + 1 + |rest.timeouts|])
    requires r.timeouts == [timeout] + rest.timeouts
    requires r.times == (if main[k].Latency? then [main[k].ms] else []) + rest.times
    ensures k + |r.timeouts| <= |main| && r.times == Latencies(main[k..k + |r.timeouts|])
  {
    var sent := main[k..k + |r.timeouts|];
    assert sent[0] == main[k];
    assert sent[1..] == main[k + 1..k + 1 + |rest.timeouts|];
  }

  /** The samples are the latencies of the queries sent, in order. */
  lemma {:induction false} MainRunSamples(domains: seq<string>, main: seq<Outcome>, k: nat, timeout: real, fastest: Option<real>)
    requires |main| == |domains| && k <= |domains|
    ensures var r := MainRun(domains, main, k, timeout, fastest);
      k + |r.timeouts| <= |domains| && r.times == Latencies(main[k..k + |r.timeouts|])
    decreases |domains| - k, 1
  {
    if k < |domains| {
      RestSamples(domains, main, k, timeout, fastest);
      MainRunStep(domains, main, k, timeout, fastest);
      SamplesCons(main, k, timeout, RestAfter(domains, main, k, timeout, fastest), MainRun(domains, main, k, timeout, fastest));
    } else {
      assert main[k..k] == [];
    }
  }

  /** What follows a query in the main phase samples the queries it sends. */
  lemma {:induction false} RestSamples(domains: seq<string>, main: seq<Outcome>, k: nat, timeout: real, fastest: Option<real>)
    requires |main| == |domains| && k < |domains|
    ensures var rest := RestAfter(domains, main, k, timeout, fastest);
      k + 1 + |rest.timeouts| <= |main| && rest.times == Latencies(main[k + 1..k + 1 + |rest.timeouts|])
    decreases |domains| - k, 0
  {
    var timeout' := NextTimeout(timeout, fastest, main[k]);
    var fastest' := NextFastest(fastest, main[k]);
    if fastest'.None? && timeout' <= GiveUpTimeout {
      assert main[k + 1..k + 1] == [];
    } else {
      MainRunSamples(domains, main, k + 1, timeout', fastest');
    }
  }

  /** The counts of the main phase from domain `k` on, after one more query at `k - 1`. */
  lemma CountsCons(domain: string, o: Outcome, rest: Run, r: Run)
    requires |rest.errors| + |rest.times| == |rest.results| && |rest.times| == Answered(rest.results)
    requires r.times == (if o.Latency? then [o.ms] else []) + rest.times
    requires |r.errors| == (if o.Latency? then 0 else 1) + |rest.errors|
    requires r.results == [DomainResult(domain, SpeedOf(o))] + rest.results
    ensures |r.errors| + |r.times| == |r.results| && |r.times| == Answered(r.results)
  {
    assert r.results[1..] == rest.results;
  }

  /** Every domain is either a sample or an error line, and the samples are the domains answered. */
  lemma {:induction false} MainRunCounts(domains: seq<string>, main: seq<Outcome>, k: nat, timeout: real, fastest: Option<real>)
    requires |main| == |domains| && k <= |domains|
    ensures var r := MainRun(domains, main, k, timeout, fastest);
      |r.errors| + |r.times| == |r.results| && |r.times| == Answered(r.results)
    decreases |domains| - k, 1
  {
    if k < |domains| {
      RestCounts(domains, main, k, timeout, fastest);
      MainRunStep(domains, main, k, timeout, fastest);
      CountsCons(domains[k], main[k], RestAfter(domains, main, k, timeout, fastest), MainRun(domains, main, k, timeout, fastest));
    }
  }

  /** What follows a query in the main phase has a sample or an error line per domain. */
  lemma {:induction false} RestCounts(domains: seq<string>, main: seq<Outcome>, k: nat, timeout: real, fastest: Option<real>)
    requires |main| == |domains| && k < |domains|
    ensures var rest := RestAfter(domains, main, k, timeout, fastest);
      |rest.errors| + |rest.times| == |rest.results| && |rest.times| == Answered(rest.results)
    decreases |domains| - k, 0
  {
    var timeout' := NextTimeout(timeout, fastest, main[k]);
    var fastest' := NextFastest(fastest, main[k]);
    if fastest'.None? && timeout' <= GiveUpTimeout {
      NoneAnswered(Unanswered(domains[k + 1..]));
    } else {
      MainRunCounts(domains, main, k + 1, timeout', fastest');
    }
  }

  /** All that the test of one server collects: one result per domain, in order; a domain has a speed only
      if the main phase ran, sent its query, and the query was answered; every domain without an answer has
      an error line. */
  function RunOf(domains: seq<string>, warmup: seq<Outcome>, main: seq<Outcome>): (r: Run)
    requires |main| == |domains|
    ensures |r.results| == |domains| && |r.timeouts| <= |domains|
    ensures SkipsMain(domains, warmup) ==> r.timeouts == []
    ensures forall i :: 0 <= i < |r.results| ==> r.results[i].website == domains[i]
    ensures forall i :: 0 <= i < |r.results| ==>
      r.results[i].speed == if i < |r.timeouts| && main[i].Latency? then Some(main[i].ms) else None
    ensures r.times == Latencies(main[..|r.timeouts|])
    ensures |r.errors| + |r.times| == |domains|
    ensures |r.times| == Answered(r.results)
  {
    if SkipsMain(domains, warmup) then
      NoneAnswered(Unanswered(domains));
      WarmupFailed(domains)
    else
      MainRunResults(domains, main, 0, BaseTimeout, None);
      MainRunSamples(domains, main, 0, BaseTimeout, None);
      MainRunCounts(domains, main, 0, BaseTimeout, None);
      assert main[0..] == main;
      MainRun(domains, main, 0, BaseTimeout, None)
  }

  // ---------------------------------------------------------------------------
  // The report

  function DigitChar(d: nat): char
    requires d < 10
  {
    ('0' as int + d) as char
  }

  /** `format!("{}", n)` for a count. */
  function Decimal(n: nat): (s: string)
    ensures s != []
    ensures forall i :: 0 <= i < |s| ==> '0' <= s[i] <= '9'
  {
    if n < 10 then [DigitChar(n)] else Decimal(n / 10) + [DigitChar(n % 10)]
  }

  function DigitsValue(s: string): int {
    if s == [] then 0 else 10 * DigitsValue(s[..|s| - 1]) + (s[|s| - 1] as int - '0' as int)
  }

  /** The decimal digits read back as the count. */
  lemma {:induction false} DecimalValue(n: nat)
    ensures DigitsValue(Decimal(n)) == n
  {
    if n >= 10 {
      DecimalValue(n / 10);
      var s := Decimal(n);
      assert s[..|s| - 1] == Decimal(n / 10);
    }
  }

  const AllQueriesFailed := "All queries failed"

  /** The details of a test with some failed queries. */
  function PartialSuccess(failed: nat, total: nat): string {
    "Partial success: " + Decimal(failed) + "/" + Decimal(total) + " queries failed"
  }

  /** The result fields from what was collected. */
  function Report(server: ServerInput, domains: seq<string>, run: Run): ServerResult {
    match CalculateStats(run.times)
    case Some(s) =>
      ServerResult(server.name, server.url, Some(s.min), Some(s.max), Some(s.average), Some(s.median), None,
        if run.errors == [] then None else Some(PartialSuccess(|run.errors|, |domains|)),
        run.results)
    case None =>
      ServerResult(server.name, server.url, None, None, None, None, Some(AllQueriesFailed),
        if run.errors == [] then None else Some(Join(run.errors, "; ")),
        run.results)
  }

  /** What `test_single_server` returns, with the timeouts its main-phase queries were sent with. */
  function TestResult(server: ServerInput, domains: seq<string>, warmup: seq<Outcome>, main: seq<Outcome>): (ServerResult, seq<real>)
    requires |main| == |domains|
  {
    var run := RunOf(domains, warmup, main);
    (Report(server, domains, run), run.timeouts)
  }

  // ---------------------------------------------------------------------------
  // The method

  lemma ThenAssoc(a: Run, b: Run, c: Run)
    ensures Then(Then(a, b), c) == Then(a, Then(b, c))
  {
    assert (a.times + b.times) + c.times == a.times + (b.times + c.times);
    assert (a.errors + b.errors) + c.errors == a.errors + (b.errors + c.errors);
    assert (a.results + b.results) + c.results == a.results + (b.results + c.results);
    assert (a.timeouts + b.timeouts) + c.timeouts == a.timeouts + (b.timeouts + c.timeouts);
  }

  lemma ThenEmpty(a: Run)
    ensures Then(a, Run([], [], [], [])) == a
  {
    assert a.times + [] == a.times;
    assert a.errors + [] == a.errors;
    assert a.results + [] == a.results;
    assert a.timeouts + [] == a.timeouts;
  }

  lemma LabelledSnoc(domains: seq<string>, j: nat, suffix: string)
    requires j < |domains|
    ensures Labelled(domains[..j + 1], suffix) == Labelled(domains[..j], suffix) + [domains[j] + suffix]
    ensures Unanswered(domains[..j + 1]) == Unanswered(domains[..j]) + [DomainResult(domains[j], None)]
  {
  }

  /** Append "not queried" results for `domains[from..]`. */
  method AppendUnanswered(domains: seq<string>, from: nat, suffix: string, errors0: seq<string>, results0: seq<DomainResult>)
    returns (errors: seq<string>, results: seq<DomainResult>)
    requires from <= |domains|
    ensures errors == errors0 + Labelled(domains[from..], suffix)
    ensures results == results0 + Unanswered(domains[from..])
  {
    errors := errors0;
    results := results0;
    for j := from to |domains|
      invariant errors == errors0 + Labelled(domains[from..j], suffix)
      invariant results == results0 + Unanswered(domains[from..j])
    {
      assert domains[from..j + 1] == domains[from..][..j - from + 1];
      assert domains[from..j] == domains[from..][..j - from];
      LabelledSnoc(domains[from..], j - from, suffix);
      errors := errors + [domains[j] + suffix];
      results := results + [DomainResult(domains[j], None)];
    }
  }

  /** The warm-up loop of `test_single_server`: how many warm-up queries were answered. */
  method CountWarmupSuccesses(warmup: seq<Outcome>) returns (successes: nat)
    ensures successes == |Latencies(warmup)|
    ensures successes == 0 <==> forall i :: 0 <= i < |warmup| ==> !warmup[i].Latency?
  {
    successes := 0;
    for i := 0 to |warmup|
      invariant successes == |Latencies(warmup[..i])|
    {
      LatenciesSnoc(warmup[..i], warmup[i]);
      assert warmup[..i + 1] == warmup[..i] + [warmup[i]];
      if warmup[i].Latency? {
        successes := successes + 1;
      }
    }
    assert warmup[..|warmup|] == warmup;
    NoLatencies(warmup);
  }

  /** One domain of the main loop: record what its query returned and adjust the timeout. */
  method QueryDomain(domain: string, o: Outcome, run: Run, timeout: real, fastest: Option<real>)
    returns (run': Run, timeout': real, fastest': Option<real>)
    ensures run' == Then(run, Query(domain, o, timeout))
    ensures timeout' == NextTimeout(timeout, fastest, o) && fastest' == NextFastest(fastest, o)
  {
    var times, errors, individual := run.times, run.errors, run.results;
    var timeouts := run.timeouts + [timeout];
    timeout', fastest' := timeout, fastest;
    match o {
      case Latency(t) =>
        times := times + [t];
        individual := individual + [DomainResult(domain, Some(t))];
        fastest' := Some(match fastest case Some(m) => (if t < m then t else m) case None => t);
      case Timeout =>
        errors := errors + [domain + ": Timeout"];
        individual := individual + [DomainResult(domain, None)];
        timeout' := timeout * 0.5;
        if fastest.Some? && timeout' < fastest.value {
          timeout' := fastest.value;
        }
      case Failure(message) =>
        var text := message.GetOr("unknown error");
        errors := errors + [domain + ": " + text];
        individual := individual + [DomainResult(domain, None)];
        timeout' := timeout * 0.5;
        if fastest.Some? && timeout' < fastest.value {
          timeout' := fastest.value;
        }
    }
    run' := Run(times, errors, individual, timeouts);
    assert run.times + [] == run.times;
    assert run.errors + [] == run.errors;
  }

  /** The main loop of `test_single_server`. */
  method RunMainPhase(domains: seq<string>, main: seq<Outcome>) returns (run: Run)
    requires |main| == |domains|
    ensures run == MainRun(domains, main, 0, BaseTimeout, None)
  {
    run := Run([], [], [], []);
    var dynamicTimeout := BaseTimeout;
    var fastest: Option<real> := None;
    var idx := 0;
    assert Then(run, MainRun(domains, main, 0, BaseTimeout, None)) == MainRun(domains, main, 0, BaseTimeout, None) by {
      var m := MainRun(domains, main, 0, BaseTimeout, None);
      assert [] + m.times == m.times && [] + m.errors == m.errors;
      assert [] + m.results == m.results && [] + m.timeouts == m.timeouts;
    }
    while idx < |domains|
      invariant idx <= |domains|
      invariant MainRun(domains, main, 0, BaseTimeout, None)
             == Then(run, MainRun(domains, main, idx, dynamicTimeout, fastest))
      decreases |domains| - idx
    {
      ghost var before := run;
      ghost var step := Query(domains[idx], main[idx], dynamicTimeout);
      MainRunUnfold(domains, main, idx, dynamicTimeout, fastest);
      run, dynamicTimeout, fastest := QueryDomain(domains[idx], main[idx], run, dynamicTimeout, fastest);
      ghost var rest := if fastest.None? && dynamicTimeout <= GiveUpTimeout then Skipped(domains[idx + 1..])
                        else MainRun(domains, main, idx + 1, dynamicTimeout, fastest);
      ThenAssoc(before, step, rest);
      if fastest.None? && dynamicTimeout <= GiveUpTimeout {
        var errors, individual := AppendUnanswered(domains, idx + 1, ": Skipped after repeated failures", run.errors, run.results);
        run := run.(errors := errors, results := individual);
        assert run == Then(Then(before, step), rest) by {
          assert run.times == run.times + [] && run.timeouts == run.timeouts + [];
        }
        break;
      }
      idx := idx + 1;
    }
    if idx == |domains| {
      ThenEmpty(run);
    }
  }

  /** `test_single_server`. */
  method TestSingleServer(server: ServerInput, domains: seq<string>, warmup: seq<Outcome>, main: seq<Outcome>)
    returns (result: ServerResult, timeouts: seq<real>)
    requires |warmup| == WarmupCount(|domains|) && |main| == |domains|
    ensures (result, timeouts) == TestResult(server, domains, warmup, main)
  {
    var times: seq<real> := [];
    var errors: seq<string> := [];
    var individual: seq<DomainResult> := [];
    timeouts := [];

    var warmupSuccesses := 0;
    if domains != [] {
      warmupSuccesses := CountWarmupSuccesses(warmup);
    }
    var skipMain := warmupSuccesses == 0 && domains != [];
    if skipMain {
      errors, individual := AppendUnanswered(domains, 0, ": Warmup failed", errors, individual);
      assert domains[0..] == domains;
    } else {
      var run := RunMainPhase(domains, main);
      times, errors, individual, timeouts := run.times, run.errors, run.results, run.timeouts;
    }
    assert Run(times, errors, individual, timeouts) == RunOf(domains, warmup, main);

    var stats := CalculateStats(times);
    if stats.Some? {
      var s := stats.value;
      var details: Option<string> := None;
      if errors != [] {
        details := Some(PartialSuccess(|errors|, |domains|));
      }
      result := ServerResult(server.name, server.url, Some(s.min), Some(s.max), Some(s.average), Some(s.median), None, details, individual);
    } else {
      var details: Option<string> := None;
      if errors != [] {
        details := Some(Join(errors, "; "));
      }
      result := ServerResult(server.name, server.url, None, None, None, None, Some(AllQueriesFailed), details, individual);
    }
  }

  // ---------------------------------------------------------------------------
  // Properties of the result

  /** The error field says whether any domain was answered; the details count the failed queries, or list
      the error lines when nothing was answered. */
  lemma ReportErrors(server: ServerInput, domains: seq<string>, warmup: seq<Outcome>, main: seq<Outcome>)
    requires |main| == |domains|
    ensures var r := TestResult(server, domains, warmup, main).0;
      var answered := Answered(r.individualResults);
      && |r.individualResults| == |domains|
      && (r.error.None? <==> answered > 0)
      && (answered == 0 ==>
            && r.error == Some(AllQueriesFailed)
            && r.min.None? && r.max.None? && r.average.None? && r.median.None?
            && (r.errorDetails.Some? <==> domains != []))
      && (0 < answered < |domains| ==> r.errorDetails == Some(PartialSuccess(|domains| - answered, |domains|)))
      && (answered == |domains| ==> r.errorDetails.None?)
  {
    var run := RunOf(domains, warmup, main);
    if run.times != [] {
      assert CalculateStats(run.times).Some?;
    }
  }

  /** Where the latencies among some outcomes come from. */
  lemma {:induction false} LatencyMembers(outcomes: seq<Outcome>, x: real)
    ensures x in Latencies(outcomes) <==> exists i :: 0 <= i < |outcomes| && outcomes[i].Latency? && outcomes[i].ms == x
  {
    if outcomes != [] {
      LatencyMembers(outcomes[1..], x);
      if x in Latencies(outcomes[1..]) {
        var i :| 0 <= i < |outcomes[1..]| && outcomes[1..][i].Latency? && outcomes[1..][i].ms == x;
        assert outcomes[i + 1] == outcomes[1..][i];
      }
      if exists i :: 0 <= i < |outcomes| && outcomes[i].Latency? && outcomes[i].ms == x {
        var i :| 0 <= i < |outcomes| && outcomes[i].Latency? && outcomes[i].ms == x;
        if i > 0 {
          assert outcomes[1..][i - 1] == outcomes[i];
        }
      }
    }
  }

  /** The samples are the speeds of the domains answered. */
  lemma SamplesAreSpeeds(domains: seq<string>, warmup: seq<Outcome>, main: seq<Outcome>, x: real)
    requires |main| == |domains|
    ensures var run := RunOf(domains, warmup, main);
      x in run.times <==> exists i :: 0 <= i < |run.results| && run.results[i].speed == Some(x)
  {
    var run := RunOf(domains, warmup, main);
    var sent := main[..|run.timeouts|];
    LatencyMembers(sent, x);
    if x in run.times {
      var i :| 0 <= i < |sent| && sent[i].Latency? && sent[i].ms == x;
      assert run.results[i].speed == Some(x);
    }
    if exists i :: 0 <= i < |run.results| && run.results[i].speed == Some(x) {
      var i :| 0 <= i < |run.results| && run.results[i].speed == Some(x);
      assert sent[i] == main[i];
    }
  }

  /** `min` is the fastest answer and `max` the slowest, both among the domains answered. */
  lemma FastestAndSlowest(server: ServerInput, domains: seq<string>, warmup: seq<Outcome>, main: seq<Outcome>)
    requires |main| == |domains|
    ensures var r := TestResult(server, domains, warmup, main).0;
      var results := r.individualResults;
      && (r.min.Some? <==> Answered(results) > 0)
      && (r.min.Some? <==> r.max.Some?)
      && (r.min.Some? ==> exists i :: 0 <= i < |results| && results[i].speed == r.min)
      && (r.max.Some? ==> exists i :: 0 <= i < |results| && results[i].speed == r.max)
      && (forall i :: 0 <= i < |results| && results[i].speed.Some? && r.min.Some? ==>
            r.min.value <= results[i].speed.value <= r.max.value)
  {
    var run := RunOf(domains, warmup, main);
    var stats := CalculateStats(run.times);
    var r := TestResult(server, domains, warmup, main).0;
    assert r.individualResults == run.results;
    assert r.min == (if stats.Some? then Some(stats.value.min) else None);
    assert r.max == (if stats.Some? then Some(stats.value.max) else None);
    if stats.Some? {
      SamplesAreSpeeds(domains, warmup, main, stats.value.min);
      SamplesAreSpeeds(domains, warmup, main, stats.value.max);
      forall i | 0 <= i < |run.results| && run.results[i].speed.Some?
        ensures stats.value.min <= run.results[i].speed.value <= stats.value.max
      {
        SamplesAreSpeeds(domains, warmup, main, run.results[i].speed.value);
      }
    }
  }

  function Pow2(n: nat): (r: real)
    ensures r >= 1.0
  {
    if n == 0 then 1.0 else 2.0 * Pow2(n - 1)
  }

  /** One unanswered query before anything was answered: the timeout halves, and the main phase stops once
      the halved timeout is down to the give-up threshold. */
  lemma FailedStep(domains: seq<string>, main: seq<Outcome>, k: nat, timeout: real)
    requires |main| == |domains| && k < |domains| && !main[k].Latency?
    ensures MainRun(domains, main, k, timeout, None).timeouts ==
      [timeout] + if timeout * 0.5 <= GiveUpTimeout then [] else MainRun(domains, main, k + 1, timeout * 0.5, None).timeouts
  {
    MainRunStep(domains, main, k, timeout, None);
  }

  /** While nothing answers, the timeout halves after every query, and the main phase stops after the query
      whose halved timeout reaches the give-up threshold: from a timeout in (400·2^(j-1), 400·2^j] that is
      after j + 1 queries. */
  lemma {:induction false} HalvingUntilGiveUp(domains: seq<string>, main: seq<Outcome>, k: nat, timeout: real, j: nat)
    requires |main| == |domains| && k <= |domains|
    requires forall i :: k <= i < |domains| ==> !main[i].Latency?
    requires timeout <= 400.0 * Pow2(j)
    requires j > 0 ==> timeout > 400.0 * Pow2(j - 1)
    ensures var ts := MainRun(domains, main, k, timeout, None).timeouts;
      && |ts| == (if |domains| - k < j + 1 then |domains| - k else j + 1)
      && Halvings(ts, timeout)
    decreases |domains| - k
  {
    if k < |domains| {
      if j == 0 {
        FailedStep(domains, main, k, timeout);
      } else {
        HalvingStep(timeout, j);
        HalvingUntilGiveUp(domains, main, k + 1, timeout * 0.5, j - 1);
        HalvingGoesOn(domains, main, k, timeout, j - 1);
      }
    }
  }

  /** A failed query whose halved timeout is still above the give-up threshold is followed by the halvings
      of that half. */
  lemma HalvingGoesOn(domains: seq<string>, main: seq<Outcome>, k: nat, timeout: real, j: nat)
    requires |main| == |domains| && k < |domains| && !main[k].Latency?
    requires timeout * 0.5 > GiveUpTimeout
    requires var rest := MainRun(domains, main, k + 1, timeout * 0.5, None).timeouts;
      && |rest| == (if |domains| - (k + 1) < j + 1 then |domains| - (k + 1) else j + 1)
      && Halvings(rest, timeout * 0.5)
    ensures var ts := MainRun(domains, main, k, timeout, None).timeouts;
      && |ts| == (if |domains| - k < j + 2 then |domains| - k else j + 2)
      && Halvings(ts, timeout)
  {
    FailedStep(domains, main, k, timeout);
    HalvedCons(timeout, MainRun(domains, main, k + 1, timeout * 0.5, None).timeouts, MainRun(domains, main, k, timeout, None).timeouts);
  }

  /** Each timeout of `ts` is `timeout` halved once more than the one before. */
  predicate Halvings(ts: seq<real>, timeout: real) {
    forall i :: 0 <= i < |ts| ==> ts[i] == Halved(timeout, i)
  }

  /** A timeout followed by the halvings of its half is the run of its own halvings. */
  lemma HalvedCons(timeout: real, rest: seq<real>, ts: seq<real>)
    requires ts == [timeout] + rest
    requires Halvings(rest, timeout * 0.5)
    ensures |ts| == |rest| + 1
    ensures Halvings(ts, timeout)
  {
    forall i | 0 < i < |ts|
      ensures ts[i] == Halved(timeout, i)
    {
      assert ts[i] == rest[i - 1];
      HalvedFirst(timeout, i - 1);
    }
  }

  lemma HalvingStep(timeout: real, j: nat)
    requires 0 < j
    requires timeout <= 400.0 * Pow2(j)
    requires timeout > 400.0 * Pow2(j - 1)
    ensures timeout * 0.5 > GiveUpTimeout
    ensures timeout * 0.5 <= 400.0 * Pow2(j - 1)
    ensures j - 1 > 0 ==> timeout * 0.5 > 400.0 * Pow2(j - 2)
  {
    if j > 1 {
      assert Pow2(j - 1) == 2.0 * Pow2(j - 2);
    }
  }

  /** `t` halved `n` times. */
  function Halved(t: real, n: nat): real {
    if n == 0 then t else Halved(t, n - 1) * 0.5
  }

  lemma {:induction false} HalvedFirst(t: real, n: nat)
    ensures Halved(t * 0.5, n) == Halved(t, n + 1)
  {
    if n > 0 {
      HalvedFirst(t, n - 1);
    }
  }

  /** A server that answers no main-phase query is given up on after five queries, sent with timeouts of
      5000, 2500, 1250, 625 and 312.5 ms; the next halving, 156.25 ms, is below the give-up threshold. */
  lemma GiveUpWhenNothingAnswers(server: ServerInput, domains: seq<string>, warmup: seq<Outcome>, main: seq<Outcome>)
    requires |main| == |domains|
    requires forall i :: 0 <= i < |main| ==> !main[i].Latency?
    ensures var ts := TestResult(server, domains, warmup, main).1;
      && |ts| == (if SkipsMain(domains, warmup) then 0 else if |domains| < 5 then |domains| else 5)
      && forall i :: 0 <= i < |ts| ==> ts[i] == Halved(BaseTimeout, i)
  {
    if !SkipsMain(domains, warmup) {
      assert Pow2(4) == 16.0 by {
        assert Pow2(1) == 2.0;
        assert Pow2(2) == 4.0;
        assert Pow2(3) == 8.0;
      }
      HalvingUntilGiveUp(domains, main, 0, BaseTimeout, 4);
    }
  }

  /** Every query sent got its answer, if any, within its timeout. This is an assumption about the
      network, not something the source enforces: the abort timer is armed before the clock starts, and a
      late-firing timer can let a slower answer through. */
  predicate AnsweredInTime(main: seq<Outcome>, k: nat, timeouts: seq<real>)
    requires k + |timeouts| <= |main|
  {
    forall i :: 0 <= i < |timeouts| && main[k + i].Latency? ==> main[k + i].ms <= timeouts[i]
  }

  /** `min_success_latency` after the outcomes `main[k..k + n]`, starting from `fastest`: `NextFastest`
      folded over those outcomes. */
  function Fastest(fastest: Option<real>, main: seq<Outcome>, k: nat, n: nat): Option<real>
    requires k + n <= |main|
  {
    if n == 0 then fastest else NextFastest(Fastest(fastest, main, k, n - 1), main[k + n - 1])
  }

  /** Starting one outcome later from the fastest answer after it. */
  lemma {:induction false} FastestShift(fastest: Option<real>, main: seq<Outcome>, k: nat, n: nat)
    requires k + 1 + n <= |main|
    ensures Fastest(fastest, main, k, n + 1) == Fastest(NextFastest(fastest, main[k]), main, k + 1, n)
  {
    if n > 0 {
      FastestShift(fastest, main, k, n - 1);
    }
  }

  /** One step of the policy keeps the timeout non-negative, never raises it, and keeps it at or above the
      fastest answer, when an answer arrives within the timeout. */
  lemma PolicyStep(timeout: real, fastest: Option<real>, o: Outcome)
    requires 0.0 <= timeout && (fastest.Some? ==> fastest.value <= timeout)
    requires o.Latency? ==> o.ms <= timeout
    ensures var timeout' := NextTimeout(timeout, fastest, o);
      var fastest' := NextFastest(fastest, o);
      0.0 <= timeout' <= timeout && (fastest'.Some? ==> fastest'.value <= timeout')
  {
  }

  /** The timeouts `ts`, sent from domain `k` on starting at `timeout` with `fastest` the fastest answer so
      far, never grow, never exceed `timeout`, and never fall below the fastest answer before them. */
  predicate Floor(main: seq<Outcome>, k: nat, ts: seq<real>, timeout: real, fastest: Option<real>)
    requires k + |ts| <= |main|
  {
    && (forall i :: 0 <= i < |ts| ==> ts[i] <= timeout)
    && (forall i :: 0 < i < |ts| ==> ts[i] <= ts[i - 1])
    && (forall i :: 0 <= i < |ts| && Fastest(fastest, main, k, i).Some? ==> Fastest(fastest, main, k, i).value <= ts[i])
  }

  /** A timeout at or above the fastest answer, followed by timeouts that keep the floor from the next
      timeout and fastest answer on, keeps the floor. */
  lemma FloorCons(main: seq<Outcome>, k: nat, timeout: real, fastest: Option<real>, rest: seq<real>, ts: seq<real>)
    requires k < |main| && k + |ts| <= |main| && ts == [timeout] + rest
    requires fastest.Some? ==> fastest.value <= timeout
    requires NextTimeout(timeout, fastest, main[k]) <= timeout
    requires Floor(main, k + 1, rest, NextTimeout(timeout, fastest, main[k]), NextFastest(fastest, main[k]))
    ensures Floor(main, k, ts, timeout, fastest)
  {
    forall i | 0 < i < |ts|
      ensures ts[i] <= timeout && ts[i] <= ts[i - 1]
      ensures Fastest(fastest, main, k, i).Some? ==> Fastest(fastest, main, k, i).value <= ts[i]
    {
      assert ts[i] == rest[i - 1];
      FastestShift(fastest, main, k, i - 1);
    }
  }

  /** The queries after the first of some sent in time were sent in time. */
  lemma InTimeTail(main: seq<Outcome>, k: nat, timeout: real, rest: seq<real>, ts: seq<real>)
    requires k + |ts| <= |main| && ts == [timeout] + rest && AnsweredInTime(main, k, ts)
    ensures main[k].Latency? ==> main[k].ms <= timeout
    ensures AnsweredInTime(main, k + 1, rest)
  {
    assert ts[0] == timeout;
    forall i | 0 <= i < |rest| && main[k + 1 + i].Latency?
      ensures main[k + 1 + i].ms <= rest[i]
    {
      assert ts[i + 1] == rest[i];
    }
  }

  /** With answers in time, the timeout never grows and never falls below the fastest answer so far. */
  lemma {:induction false} TimeoutFloor(domains: seq<string>, main: seq<Outcome>, k: nat, timeout: real, fastest: Option<real>)
    requires |main| == |domains| && k <= |domains|
    requires 0.0 <= timeout && (fastest.Some? ==> fastest.value <= timeout)
    requires var ts := MainRun(domains, main, k, timeout, fastest).timeouts;
      k + |ts| <= |main| && AnsweredInTime(main, k, ts)
    ensures var ts := MainRun(domains, main, k, timeout, fastest).timeouts;
      k + |ts| <= |main| && Floor(main, k, ts, timeout, fastest)
    decreases |domains| - k, 1
  {
    if k < |domains| {
      var rest := RestAfter(domains, main, k, timeout, fastest).timeouts;
      var ts := MainRun(domains, main, k, timeout, fastest).timeouts;
      MainRunStep(domains, main, k, timeout, fastest);
      InTimeTail(main, k, timeout, rest, ts);
      PolicyStep(timeout, fastest, main[k]);
      RestFloor(domains, main, k, timeout, fastest);
      FloorCons(main, k, timeout, fastest, rest, ts);
    }
  }

  /** What follows a query in the main phase keeps the floor from the next timeout and fastest answer. */
  lemma {:induction false} RestFloor(domains: seq<string>, main: seq<Outcome>, k: nat, timeout: real, fastest: Option<real>)
    requires |main| == |domains| && k < |domains|
    requires var timeout', fastest' := NextTimeout(timeout, fastest, main[k]), NextFastest(fastest, main[k]);
      0.0 <= timeout' && (fastest'.Some? ==> fastest'.value <= timeout')
    requires var rest := RestAfter(domains, main, k, timeout, fastest).timeouts;
      k + 1 + |rest| <= |main| && AnsweredInTime(main, k + 1, rest)
    ensures var rest := RestAfter(domains, main, k, timeout, fastest).timeouts;
      k + 1 + |rest| <= |main|
      && Floor(main, k + 1, rest, NextTimeout(timeout, fastest, main[k]), NextFastest(fastest, main[k]))
    decreases |domains| - k, 0
  {
    var timeout' := NextTimeout(timeout, fastest, main[k]);
    var fastest' := NextFastest(fastest, main[k]);
    if !(fastest'.None? && timeout' <= GiveUpTimeout) {
      TimeoutFloor(domains, main, k + 1, timeout', fastest');
    }
  }

  /** One more outcome keeps the fastest answer among the latencies, and makes it known once there is one. */
  lemma FastestStep(fastest: Option<real>, seen: seq<real>, o: Outcome)
    requires seen != [] ==> fastest.Some?
    requires fastest.Some? ==> fastest.value in seen
    ensures var seen' := seen + (if o.Latency? then [o.ms] else []);
      && (seen' != [] ==> NextFastest(fastest, o).Some?)
      && (NextFastest(fastest, o).Some? ==> NextFastest(fastest, o).value in seen')
  {
  }

  /** The step of `FastestIsAnAnswer` from the first `n` outcomes to the first `n + 1`. */
  lemma FastestNext(main: seq<Outcome>, n: nat)
    requires n < |main|
    requires Latencies(main[..n]) != [] ==> Fastest(None, main, 0, n).Some?
    requires Fastest(None, main, 0, n).Some? ==> Fastest(None, main, 0, n).value in Latencies(main[..n])
    ensures Latencies(main[..n + 1]) != [] ==> Fastest(None, main, 0, n + 1).Some?
    ensures Fastest(None, main, 0, n + 1).Some? ==> Fastest(None, main, 0, n + 1).value in Latencies(main[..n + 1])
  {
    assert main[..n + 1] == main[..n] + [main[n]];
    LatenciesSnoc(main[..n], main[n]);
    FastestStep(Fastest(None, main, 0, n), Latencies(main[..n]), main[n]);
  }

  /** Once anything was answered the fastest answer is known; it is one of the latencies, and the least. */
  lemma {:induction false} FastestIsAnAnswer(main: seq<Outcome>, n: nat)
    requires n <= |main|
    ensures Latencies(main[..n]) != [] ==> Fastest(None, main, 0, n).Some?
    ensures Fastest(None, main, 0, n).Some? ==> Fastest(None, main, 0, n).value in Latencies(main[..n])
    ensures Fastest(None, main, 0, n).Some? ==>
      forall x :: x in Latencies(main[..n]) ==> Fastest(None, main, 0, n).value <= x
  {
    if n > 0 {
      FastestIsAnAnswer(main, n - 1);
      FastestNext(main, n - 1);
      assert main[..n] == main[..n - 1] + [main[n - 1]];
      LatenciesSnoc(main[..n - 1], main[n - 1]);
    }
  }

  /** The timeout policy: the first main-phase query waits 5000 ms; with answers arriving within their
      timeout, the timeout never grows, and never falls below the fastest answer so far. */
  lemma TimeoutPolicy(server: ServerInput, domains: seq<string>, warmup: seq<Outcome>, main: seq<Outcome>)
    requires |main| == |domains|
    requires var ts := TestResult(server, domains, warmup, main).1;
      |ts| <= |main| && AnsweredInTime(main, 0, ts)
    ensures var ts := TestResult(server, domains, warmup, main).1;
      && (ts != [] ==> ts[0] == BaseTimeout)
      && (forall i :: 0 < i < |ts| ==> ts[i] <= ts[i - 1])
      && (forall i :: 0 <= i < |ts| && Latencies(main[..i]) != [] ==> MinOf(Latencies(main[..i])) <= ts[i])
  {
    if !SkipsMain(domains, warmup) {
      var ts := MainRun(domains, main, 0, BaseTimeout, None).timeouts;
      if ts != [] {
        MainRunUnfold(domains, main, 0, BaseTimeout, None);
      }
      TimeoutFloor(domains, main, 0, BaseTimeout, None);
      forall i | 0 <= i < |ts| && Latencies(main[..i]) != []
        ensures MinOf(Latencies(main[..i])) <= ts[i]
      {
        FastestIsAnAnswer(main, i);
      }
    }
  }
}

# DNS speed test: a Dafny model of its core

The project is a browser DNS-over-HTTPS (DoH) speed test. Alongside the UI it has four pieces of logic, which this Dafny project models and proves properties of:

- **Catalog builder** (`scripts/buildAllInFromDnscrypt.mjs`):
  - decodes DNSCrypt `sdns://` stamps, including their binary LP and VLP fields;
  - parses the public resolver list (a Markdown document) into DoH server entries;
  - merges those entries into the curated server list by URL.
- **Per-server test engine** (`dns-wasm/src/lib.rs`):
  - builds the DNS query message or the GET URL;
  - warms a server up, then queries each test domain with a timeout that shrinks after failures;
  - gives up on servers that never answer, and reports min/max/average/median with error summaries.
- **Aggregation and grading** (`src/utils/dnsMetrics.ts`, with thresholds from `src/config/constants.ts`):
  - the fastest result;
  - latency and reliability grades;
  - overall statistics and a network score.
- **Presentation helpers** that are pure logic inside UI files:
  - vendor classification and keep-the-fastest-per-vendor grouping for the chart, plus the chart height (`src/components/ResultsChart.jsx`);
  - the country flag emoji and the per-country DNS recommendation (`src/services/geoLocation.js`);
  - the letter grade and the same-region test of the recommendation card (`src/components/RecommendationCard.jsx`).

Layout: one Dafny module per source concern.

| module | file | models |
|---|---|---|
| Wrappers | `wrappers.dfy` | `Option` |
| Seqs | `seqs.dfy` | sequence folds: de-duplication, stable sort, sums, minimum and maximum |
| Text | `text.dfy` | JavaScript `trim`, `startsWith`, ASCII case folding, `split`, `join` |
| Bytes | `bytes.dfy` | bytes shown as text |
| OrderedMap | `ordered_map.dfy` | a JavaScript `Map`, which iterates in insertion order |
| Base64 | `base64.dfy` | base64url normalisation; decoding per section 4 of RFC 4648 |
| Stamp | `stamp.dfy` | `decodeStamp` and its LP and VLP readers |
| ResolverList | `resolver_list.dfy` | `parsePublicResolvers` |
| Types | `types.dfy` | the `DnsServer` and `DnsTestResult` records |
| Merge | `merge.dfy` | `mergeServers` |
| DnsQuery | `dns_query.dfy` | `build_dns_query`, the GET URL, the method choice |
| Stats | `stats.dfy` | `calculate_stats` |
| ServerTest | `server_test.dfy` | `test_single_server` |
| Metrics | `metrics.dfy` | `dnsMetrics.ts` |
| ResultsChart | `results_chart.dfy` | vendor grouping and chart height |
| Geo | `geo.dfy` | flag emoji and DNS recommendation |
| Recommendation | `recommendation.dfy` | `gradeFromAverage`, `normalizeRegion`, `isSameRegion` |

Source loops that update state step by step are Dafny methods with loop invariants:

- the stamp readers, the two parser passes and the merger;
- the query builder;
- the warm-up and main phases of the server test;
- the vendor lookup and the grouping.

Each method's `ensures` ties its result to a specification function (a fold over the input). The lemmas then prove what the source promises about that function. Expression-shaped code is modelled as functions and lemmas.

The network, timers and randomness are out of the model. Each outcome of a DNS query (a latency, a timeout, or an error with an optional message) is an input sequence. `ServerTest.TestSingleServer` also returns the timeout it used for each main-phase query. The source does not return that value; it is returned only so that the timeout policy can be stated.

Two behaviours of `mergeServers` are worth stating explicitly:

- **Duplicate base URLs in `mergeServers`.** A later base server with the same URL replaces the earlier record but keeps the earlier position (`Map.set`, `scripts/buildAllInFromDnscrypt.mjs:184`). An extra never overwrites base metadata; it can only widen `ips`.
- **Extras are not copied.** An extra inserted as a new entry is the caller's own object. A later extra with the same URL then rewrites its `ips` in place (line 193). The model returns new values and does not capture this aliasing.

## Model

| member | source | states |
|---|---|---|
| Base64.PadLength | scripts/buildAllInFromDnscrypt.mjs:52-55 | the padding is 0–3 characters, makes the length a multiple of 4, and is 0 exactly when the length already is |
| Base64.Normalize | scripts/buildAllInFromDnscrypt.mjs:51-55 | every character is mapped `-`→`+`, `_`→`/` (others kept) and followed by only `=` padding up to a multiple of 4, adding nothing to a multiple of 4 |
| Base64.SextetOf | scripts/buildAllInFromDnscrypt.mjs:59 | a recognised character is the standard alphabet's character for its 6-bit value |
| Base64.SextetOfStdChar | scripts/buildAllInFromDnscrypt.mjs:59 | each 6-bit value's character decodes back to that value |
| Base64.Decode | scripts/buildAllInFromDnscrypt.mjs:59 | a successful decode of n groups yields between 3n−3 and 3n bytes |
| Base64.EncodeUrl | scripts/buildAllInFromDnscrypt.mjs:51-59 | unpadded base64url encoding: its length, and its characters all from the URL-safe alphabet, with no `=` |
| Base64.RoundTrip | scripts/buildAllInFromDnscrypt.mjs:51-59 | normalising and decoding the unpadded base64url text of any bytes gives back those bytes |
| Bytes.AsText | scripts/buildAllInFromDnscrypt.mjs:87 | a field's bytes become characters one for one |
| Stamp.LP | scripts/buildAllInFromDnscrypt.mjs:78-88 | the cursor never passes the buffer end and advances whenever a byte is left; a returned field is the `len` bytes after the length byte; an overrunning field returns empty after consuming only its length byte |
| Stamp.ReadLP | scripts/buildAllInFromDnscrypt.mjs:78-88 | the reader method returns the field and new cursor of `LP` |
| Stamp.VLP | scripts/buildAllInFromDnscrypt.mjs:90-106 | the cursor stays within the buffer and advances when bytes remain; every kept segment is 1–127 bytes |
| Stamp.ReadVLP | scripts/buildAllInFromDnscrypt.mjs:90-106 | the loop with `break` returns the segments and cursor of `VLP` |
| Stamp.LengthByteMasks | scripts/buildAllInFromDnscrypt.mjs:94-95 | `& 0x80` tests the continuation bit and `& 0x7f` is the byte with that bit cleared |
| Stamp.DecodeBuffer | scripts/buildAllInFromDnscrypt.mjs:64-113 | empty buffer gives null; a first byte other than 0x02 gives only the protocol; a DoH buffer decodes iff it has at least 9 bytes; a decoded path is never empty |
| Stamp.Decoded | scripts/buildAllInFromDnscrypt.mjs:44-114 | null without the `sdns://` prefix or when the rest trims to empty; a non-DoH result never carries 0x02; a DoH path is never empty |
| Stamp.DecodeStamp | scripts/buildAllInFromDnscrypt.mjs:44-114 | the cursor-walking method computes `Decoded` |
| Stamp.LPRoundTrip | scripts/buildAllInFromDnscrypt.mjs:78-88 | a length-prefixed field of at most 255 bytes reads back whole, with the cursor just past it |
| Stamp.VLPRoundTrip | scripts/buildAllInFromDnscrypt.mjs:90-106 | segments of 1–127 bytes with continuation bits on all but the last read back whole |
| Stamp.BufferRoundTrip | scripts/buildAllInFromDnscrypt.mjs:64-113 | `[0x02][8 flags][LP addr][VLP hashes][LP host][LP path]` decodes to the same address, host and path, and an empty path to `/dns-query` |
| Stamp.StampRoundTrip | scripts/buildAllInFromDnscrypt.mjs:44-114 | the same through `sdns://` and unpadded base64url |
| ResolverList.DropCR | scripts/buildAllInFromDnscrypt.mjs:117 | a line loses at most one trailing carriage return |
| ResolverList.Lines | scripts/buildAllInFromDnscrypt.mjs:117 | splitting on `\r?\n` gives at least one line and no line holds a newline |
| ResolverList.LinesJoin | scripts/buildAllInFromDnscrypt.mjs:117 | without carriage returns, the lines joined with `\n` are the document |
| ResolverList.Section | scripts/buildAllInFromDnscrypt.mjs:122-129 | a header names a section only with a non-empty title other than `public-resolvers` |
| ResolverList.Scan | scripts/buildAllInFromDnscrypt.mjs:121-136 | every collected stamp starts with `sdns://` and carries a real section name; at most one stamp per line |
| ResolverList.CurrentSectionIsLastHeader | scripts/buildAllInFromDnscrypt.mjs:121-130 | the current name is the one set by the last header line, and there is none before any header |
| ResolverList.HeaderThenStamp | scripts/buildAllInFromDnscrypt.mjs:122-135 | a stamp line right after a header is collected exactly when that header names a section |
| ResolverList.PlaceholderSections | scripts/buildAllInFromDnscrypt.mjs:122-129 | `## ` with an empty title or `public-resolvers` clears the name; any other trimmed title sets it |
| ResolverList.CollectStamps | scripts/buildAllInFromDnscrypt.mjs:121-136 | the first loop collects the stamp entries of `Scan` |
| ResolverList.DohUrl | scripts/buildAllInFromDnscrypt.mjs:147 | the endpoint URL is `https://` followed by something (the host and a path, `/dns-query` when none) |
| ResolverList.CandidateOf | scripts/buildAllInFromDnscrypt.mjs:141-149 | a decodable DoH stamp with a host yields an `https://` URL under the entry's name |
| ResolverList.DohFoldContents | scripts/buildAllInFromDnscrypt.mjs:138-176 | the map's keys are the distinct URLs in first-seen order; each entry has its first stamp's name, the fixed defaults and each non-empty address once, in first-seen order |
| ResolverList.ExpectedFirst | scripts/buildAllInFromDnscrypt.mjs:151-173 | a URL's first stamp creates the entry with its own address |
| ResolverList.ExpectedLater | scripts/buildAllInFromDnscrypt.mjs:171-173 | a later stamp for a known URL only adds its address when new |
| ResolverList.BuildDoHEntries | scripts/buildAllInFromDnscrypt.mjs:138-176 | the second loop returns the map's values in insertion order |
| ResolverList.ParsePublicResolvers | scripts/buildAllInFromDnscrypt.mjs:116-177 | the whole parse computes `Parsed` |
| ResolverList.ParsedEntries | scripts/buildAllInFromDnscrypt.mjs:116-177 | one entry per distinct DoH URL, in first-seen order, each the expected entry |
| Merge.Merged | scripts/buildAllInFromDnscrypt.mjs:189-194 | widening changes nothing but the address list |
| Merge.Expected | scripts/buildAllInFromDnscrypt.mjs:179-201 | a URL has an entry iff a base server or an extra lists it (non-empty), under that URL |
| Merge.WidenMerged | scripts/buildAllInFromDnscrypt.mjs:189-194 | widening by one more extra is the union over all extras so far |
| Merge.ExtraIntoExisting | scripts/buildAllInFromDnscrypt.mjs:189-194 | an extra for a known URL only widens the address list |
| Merge.ExtraNew | scripts/buildAllInFromDnscrypt.mjs:195-197 | an extra for a new URL is inserted unchanged |
| Merge.BaseFoldContents | scripts/buildAllInFromDnscrypt.mjs:182-185 | the first loop keys the distinct base URLs in first-seen order, each to its last base server |
| Merge.ExtraFoldContents | scripts/buildAllInFromDnscrypt.mjs:187-198 | after the second loop the keys are the distinct URLs of base then extras and each value is the expected entry |
| Merge.MergeServers | scripts/buildAllInFromDnscrypt.mjs:179-201 | the two loops compute `MergedServers` |
| Merge.MergedServersContents | scripts/buildAllInFromDnscrypt.mjs:179-201 | one entry per distinct URL, each the expected entry, with the base URLs first in their order |
| DnsQuery.EncodeLabelsSnoc | dns-wasm/src/lib.rs:53-57 | encoding one more label appends that label's encoding |
| DnsQuery.BuildDnsQuery | dns-wasm/src/lib.rs:47-69 | the loop builds header, labels, terminator, QTYPE A and QCLASS IN |
| DnsQuery.EncodedLength | dns-wasm/src/lib.rs:53-57 | the labels take one byte more than the dotted name |
| DnsQuery.QueryLength | dns-wasm/src/lib.rs:47-69 | the message is 18 bytes longer than the hostname |
| DnsQuery.ReadEncodedName | dns-wasm/src/lib.rs:53-66 | labels of 1–255 bytes, then the zero byte, read back as the same labels (the name layout of section 4.1.2 of RFC 1035) |
| DnsQuery.QueryCarriesHostname | dns-wasm/src/lib.rs:47-69 | with labels of 1–255 bytes, the message is the fixed header then the hostname's labels then A/IN, and the labels join back to the hostname |
| DnsQuery.GetUrl | dns-wasm/src/lib.rs:92-95 | the URL is the server URL, then `&` if the server URL already has `?` (else `?`), then `name=<domain>&type=A`, for every server URL and domain |
| DnsQuery.GetUrlParameters | dns-wasm/src/lib.rs:92-95 | round trip: for a server URL without a query string and a domain without `?` or `&`, splitting the URL at `?` and then `&` gives back the server URL, `name=<domain>` and `type=A` |
| DnsQuery.EffectiveType | dns-wasm/src/lib.rs:164-168 | an empty type means `post`; any other type is kept |
| DnsQuery.MethodFor | dns-wasm/src/lib.rs:92-100 | GET exactly for type `get`, POST for any other |
| Stats.CalculateStats | dns-wasm/src/lib.rs:140-157 | `None` iff there are no samples; min and max are the samples' minimum and maximum, the average their mean, and average and median lie between them |
| Stats.SortedEnds | dns-wasm/src/lib.rs:144-147 | the ends of a sorted permutation are the minimum and the maximum |
| Stats.OneSample | dns-wasm/src/lib.rs:140-157 | one sample is min, max, average and median |
| ServerTest.WarmupCount | dns-wasm/src/lib.rs:171-175 | at most two warm-up queries and no more than the domains, and at least one when there is a domain |
| ServerTest.NoLatencies | dns-wasm/src/lib.rs:210-211 | no samples iff no outcome was a latency |
| ServerTest.LatencyMembers | dns-wasm/src/lib.rs:210-211 | a value is a sample iff some outcome answered in that time |
| ServerTest.CountWarmupSuccesses | dns-wasm/src/lib.rs:172-185 | the loop counts the answered warm-up queries; zero iff none answered |
| ServerTest.NextTimeout | dns-wasm/src/lib.rs:233-253 | an answer keeps the timeout; a failure halves it, but never below the fastest answer so far |
| ServerTest.QueryDomain | dns-wasm/src/lib.rs:207-254 | one iteration appends the domain's sample or error line and result, and updates timeout and fastest answer |
| ServerTest.AppendUnanswered | dns-wasm/src/lib.rs:189-196 | the loop appends a labelled error line and an unanswered result for each remaining domain |
| ServerTest.MainRun | dns-wasm/src/lib.rs:206-267 | the main phase yields one result per remaining domain |
| ServerTest.MainRunResults | dns-wasm/src/lib.rs:206-267 | results follow the domain order, with a speed exactly for the answered queries that were sent; no more queries than remaining domains |
| ServerTest.MainRunSamples | dns-wasm/src/lib.rs:209-223 | the samples are the latencies of the queries actually sent, in order |
| ServerTest.MainRunCounts | dns-wasm/src/lib.rs:209-264 | errors plus samples is the number of domains; the samples are the answered results |
| ServerTest.RunMainPhase | dns-wasm/src/lib.rs:198-267 | the loop with its give-up `break` computes `MainRun` from a 5000 ms timeout |
| ServerTest.RunOf | dns-wasm/src/lib.rs:159-268 | one result per domain, in order; no main query when the warm-up all failed; samples are the sent queries' latencies; errors plus samples equals the domains |
| ServerTest.DecimalValue | dns-wasm/src/lib.rs:275-279 | the decimal count in the summary reads back as the number |
| ServerTest.TestSingleServer | dns-wasm/src/lib.rs:159-294 | warm-up, main phase and report compute `TestResult` |
| ServerTest.ReportErrors | dns-wasm/src/lib.rs:270-294 | error is absent iff some query answered. With no answer: `All queries failed`, no statistics, and details iff there were domains. With some failures: `Partial success: f/n queries failed`, where f is the failed count. With none: no details |
| ServerTest.SamplesAreSpeeds | dns-wasm/src/lib.rs:209-215 | every sample is some domain's reported speed, and back |
| ServerTest.FastestAndSlowest | dns-wasm/src/lib.rs:270-281 | min and max are present iff some domain answered; they are speeds of some domains and bound every reported speed |
| ServerTest.HalvingUntilGiveUp | dns-wasm/src/lib.rs:233-265 | with no answer, each timeout is half the last until it reaches 200 ms, and the run then stops |
| ServerTest.GiveUpWhenNothingAnswers | dns-wasm/src/lib.rs:198-266 | a server that never answers is sent at most five main queries (5000, 2500, 1250, 625, 312.5 ms), or none if its warm-up failed |
| ServerTest.TimeoutFloor | dns-wasm/src/lib.rs:233-253 | provided every answer arrived within its own timeout: timeouts never grow and never drop below the fastest answer so far |
| ServerTest.FastestIsAnAnswer | dns-wasm/src/lib.rs:218-221 | the tracked minimum is the least latency answered so far |
| ServerTest.TimeoutPolicy | dns-wasm/src/lib.rs:198-253 | the first timeout is 5000 ms; provided every answer arrived within its own timeout, timeouts never grow, and once a query has answered they stay at or above the least latency so far |
| Metrics.NumericMembers | src/utils/dnsMetrics.ts:18-20 | the candidates are exactly the results with a numeric average |
| Metrics.GetFastestResult | src/utils/dnsMetrics.ts:16-23 | null iff no numeric average; otherwise a numeric result whose average is least |
| Metrics.FastestSnoc | src/components/ResultsChart.jsx:72-76 | one more result replaces the fastest so far only when strictly faster, which is the grouping's keep-the-fastest step |
| Metrics.FastestIsEarliest | src/utils/dnsMetrics.ts:22 | ties go to the earliest result (the sort is stable) |
| Metrics.LatencyGrade | src/utils/dnsMetrics.ts:25-32 | `Unknown` exactly for a missing average |
| Metrics.LatencyGradeBands | src/config/constants.ts:10-15 | Excellent ≤20, Great ≤35, Good ≤60, Fair ≤90, else Poor, as if-and-only-ifs |
| Metrics.LatencyGradeMonotone | src/utils/dnsMetrics.ts:25-32 | a larger average never gets a better grade |
| Metrics.ReliabilityGrade | src/utils/dnsMetrics.ts:34-41 | `Unknown` exactly for no servers or no rate |
| Metrics.ReliabilityGradeBands | src/config/constants.ts:18-23 | Excellent ≥0.98, Great ≥0.9, Good ≥0.75, Fair ≥0.5, else Poor, as if-and-only-ifs |
| Metrics.ReliabilityGradeMonotone | src/utils/dnsMetrics.ts:34-41 | a higher success rate never gets a worse grade |
| Metrics.LatencyScore | src/utils/dnsMetrics.ts:71-77 | the latency score lies in 25..95 |
| Metrics.LatencyScoreMonotone | src/utils/dnsMetrics.ts:71-77 | the score never rises with the average; 95 exactly for Excellent, at most 40 exactly for Poor |
| Metrics.Round | src/utils/dnsMetrics.ts:80 | `Math.round` lands within half of its argument |
| Metrics.NetworkScore | src/utils/dnsMetrics.ts:69-81 | 70% latency score plus 30% success percentage, rounded; for a success rate in [0,1] the score lies in 18..97 |
| Metrics.Averages | src/utils/dnsMetrics.ts:56 | the averages of the numeric results, in order |
| Metrics.AveragesMembers | src/utils/dnsMetrics.ts:47-56 | a value is among the averages iff some result has it as its numeric average |
| Metrics.ComputeOverallStats | src/utils/dnsMetrics.ts:43-94 | counts the numeric results; no min/max/avg and `Unknown` latency grade iff none; a score iff some and a positive total; a non-positive total gives total 0, rate 0 and `Unknown`; otherwise the rate is count/total |
| Metrics.OverallRange | src/utils/dnsMetrics.ts:55-60 | min ≤ avg ≤ max, min and max are some result's average, and every numeric average lies between them |
| Metrics.ScoreBounds | src/utils/dnsMetrics.ts:62-81 | the success rate lies in [0,1] when the total covers the results, and the score then lies in 18..97 |
| ResultsChart.FirstMatch | src/components/ResultsChart.jsx:45-50 | the first pattern from the start index that matches, or none matches |
| ResultsChart.GetVendorName | src/components/ResultsChart.jsx:43-61 | the loop with `break` computes `VendorOf`: the first matching pattern's vendor, else `Quad9` for a quad9 URL, else the name |
| ResultsChart.MatchesIgnoresCase | src/components/ResultsChart.jsx:21-41 | the `/i` patterns match a name iff they match it in lower case |
| ResultsChart.VendorIgnoresCase | src/components/ResultsChart.jsx:43-50 | the matched pattern does not depend on the name's ASCII case |
| ResultsChart.GroupFoldContents | src/components/ResultsChart.jsx:63-77 | the groups are the distinct vendors of the numeric entries in first-seen order, each holding that vendor's fastest, earliest on ties |
| ResultsChart.Renamed | src/components/ResultsChart.jsx:79-83 | each group becomes its server renamed to the vendor |
| ResultsChart.GroupResultsByVendor | src/components/ResultsChart.jsx:63-85 | the `forEach` with early returns computes `Grouped` |
| ResultsChart.GroupedIsRenamed | src/components/ResultsChart.jsx:79-84 | every output entry is a renamed group |
| ResultsChart.GroupedVendors | src/components/ResultsChart.jsx:63-84 | output sorted by average, one entry per distinct vendor with distinct names, every vendor present |
| ResultsChart.GroupedEntries | src/components/ResultsChart.jsx:63-84 | each entry is its vendor's fastest result with only the name changed |
| ResultsChart.ChartHeight | src/components/ResultsChart.jsx:250 | always within 300..800, and 35·n+100 for 6 to 20 bars |
| ResultsChart.ChartHeightMonotone | src/components/ResultsChart.jsx:250 | more bars never make the chart shorter |
| Geo.CountryFlag | src/services/geoLocation.js:260-269 | the globe for a missing code or one not 2 units long; otherwise two code points, 127397 plus each upper-cased unit |
| Geo.FlagRoundTrip | src/services/geoLocation.js:263-268 | subtracting 127397 from the flag gives back the upper-cased code |
| Geo.FlagIgnoresCaseOnly | src/services/geoLocation.js:263-266 | two codes get the same flag iff they agree after ASCII upper-casing |
| Geo.FlagOfCapitals | src/services/geoLocation.js:263-268 | ASCII letters map to regional indicator symbols U+1F1E6..U+1F1FF |
| Geo.TableEntry | src/services/geoLocation.js:275-290 | no entry iff no key equals the code; an entry is the listed one for the code |
| Geo.RecommendedDns | src/services/geoLocation.js:274-291 | always three services: the country's list when it has an own entry, else Google, Cloudflare, Quad9 |
| Geo.LowerCaseGetsDefault | src/services/geoLocation.js:275-290 | a code with a lower-case letter gets the default list |
| Geo.RecommendedDnsAsWritten | src/services/geoLocation.js:290 | a list result is the intended one; a non-list result occurs exactly for a non-key naming an inherited member |
| Geo.PrototypeKeyIsNotAList | src/services/geoLocation.js:290 | `toString` yields the inherited method, not a list |
| Recommendation.GradeFromAverage | src/components/RecommendationCard.jsx:4-10 | A+ exactly for an average of at most 20 ms, D exactly above 70 ms |
| Recommendation.GradeBands | src/components/RecommendationCard.jsx:4-10 | A+ ≤20, A ≤30, B ≤45, C ≤70, else D, as if-and-only-ifs |
| Recommendation.GradeMonotone | src/components/RecommendationCard.jsx:4-10 | a larger average never gets a better grade |
| Recommendation.LastToken | src/components/RecommendationCard.jsx:45-48 | the whitespace-free suffix of the trimmed value that is either all of it or preceded by whitespace; empty only for an empty value |
| Recommendation.NormalizeRegion | src/components/RecommendationCard.jsx:43-49 | `''` for a falsy value; otherwise the last token of the trimmed value; never contains whitespace |
| Recommendation.NormalizeIdempotent | src/components/RecommendationCard.jsx:43-49 | normalising twice equals normalising once |
| Recommendation.LastTokenUnique | src/components/RecommendationCard.jsx:46-48 | only one suffix has the last-token property, so the normalised value is determined |
| Recommendation.IsSameRegion | src/components/RecommendationCard.jsx:62-65 | a match needs a non-empty country and jurisdiction and compares a whitespace-free token; two names that trim to the same text always match |
| Recommendation.SameRegionSymmetric | src/components/RecommendationCard.jsx:62-65 | the same-region test is symmetric |
| Recommendation.SameRegionByLastWord | src/components/RecommendationCard.jsx:62-65 | a one-word region and any longer name ending in that word are the same region |

## Left out

- `fetchUrl` (HTTPS, redirects, streaming) and `main` (file write, console, exit code) are I/O. The write happens only after the merge.
- `Base64.Decode`: Node's `Buffer.from(..., 'base64')` skips invalid characters rather than failing, so the `catch` after it never runs. The model decodes per section 4 of RFC 4648 and returns `None` on a character outside the alphabet. Its properties are stated for valid input.
- `Bytes.AsText`: LP fields are decoded as UTF-8 in the source; the model maps each byte to one character, which agrees for ASCII only.
- `query_dns`, `sample_latency`, `test_servers` and the console summary are not modelled: they involve `fetch`, abort timers, serialization and concurrent joins. The query outcomes are inputs instead.
- `ServerTest.TimeoutFloor`, `ServerTest.TimeoutPolicy`: the run-level timeout policy (never growing, never below the fastest answer) is proved only for runs where every answer arrived within its own timeout. The source arms the abort timer before the clock starts (`dns-wasm/src/lib.rs:113-121`), so a late answer such as 5010 ms at a 5000 ms timeout can come back as a success; the next failure then raises the timeout to that latency. The per-step rule `ServerTest.NextTimeout` holds for every input.
- JavaScript numbers and Rust `f64` are modelled as exact reals. NaN, infinities and rounding are not modelled.
- `Stats.CalculateStats`: the median is only shown to lie between min and max. Its even-count midpoint formula is not stated.
- The partial-order comparator `partial_cmp(...).unwrap_or(Equal)` used for NaN in `calculate_stats` is not modelled. Without NaN it is a total order.
- `Merge.MergeServers`: `null` entries (`!server`) are not modelled: the model's lists hold records. The in-place rewrite of an extra object's `ips` (aliasing of the caller's input) is not captured.
- `Array.isArray` guards in `dnsMetrics.ts` and the `(results || [])` fallback are not modelled. Inputs are always sequences.
- `ResultsChart.GroupResultsByVendor`: the model keeps groups in first-insertion order. JavaScript objects list integer-like keys first, and a vendor named after an `Object.prototype` member (`constructor`, `__proto__`, …) would be mishandled by `groups[vendorName]`. Neither is modelled.
- `Geo.CountryFlag`: `toUpperCase` is modelled for ASCII letters only. Other characters, including those whose upper case has a different length, are left unchanged.
- `getPerformanceColor`, the live-latency card, the results table, the hooks, the WASM loader and the other React components are UI or browser plumbing, and are not part of this model. So are the clipboard code and the ad-block and adult-filter regular expressions of the recommendation card.
- The fetch-based location lookups in `geoLocation.js` (`getUserLocation`, `lookupIpGeo`, `reverseGeocode`) are network I/O.

## Findings

| source | as written | input that shows it | evidently intended | confidence | as-written member | corrected member |
|---|---|---|---|---|---|---|
| src/services/geoLocation.js:290 | `recommendations[countryCode]` also finds members inherited from `Object.prototype`, so the result need not be a list | `getRecommendedDNSByCountry('toString')` returns the `toString` function | a three-entry list for every code, with the default for codes not in the table | medium, not executed | Geo.PrototypeKeyIsNotAList | Geo.RecommendedDns |

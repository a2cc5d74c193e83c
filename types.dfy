/** The records the application passes around: a configured DNS-over-HTTPS server and the latency
    summary of testing one. A field the source marks optional (`?`) is an `Option`; `undefined` and an
    absent field are both `None`. */
module Types {
  import opened Wrappers

  /** `DnsServer`, plus the `allowCors` flag the resolver-list builder sets. `serverType` is the `type`
      field (`"get"` or `"post"`). */
  datatype DnsServer = DnsServer(
    name: string,
    url: string,
    serverType: Option<string>,
    allowCors: Option<bool>,
    ips: Option<seq<string>>,
    country: Option<string>,
    noLogs: Option<bool>,
    jurisdiction: Option<string>,
    transparency: Option<bool>,
    dnssec: Option<bool>,
    malwareFilter: Option<bool>,
    trustLevel: Option<string>)
  {
    /** `server.ips || []`. */
    function IpList(): seq<string> {
      if ips.Some? then ips.value else []
    }
  }

  /** A latency statistic: milliseconds, the string `'Unavailable'`, or `null`. */
  datatype Metric = Ms(ms: real) | Unavailable | Missing

  /** `DnsTestResult`, without the free-form metadata fields the core does not read. */
  datatype DnsTestResult = DnsTestResult(
    name: string,
    url: string,
    min: Metric,
    max: Metric,
    average: Metric,
    median: Metric,
    error: Option<string>,
    errorDetails: Option<string>)
}

/** The helpers behind the results bar chart (src/components/ResultsChart.jsx): a server's vendor, from
    its name and url; the fastest result of each vendor, sorted by average latency; and the chart's
    height. */
module ResultsChart {
  import opened Wrappers
  import opened Seqs
  import opened Text
  import opened Types
  import opened OrderedMap
  import Metrics

  /** A vendor and its name pattern `/^(p1|p2|…)/i`: a name matches when it starts with one of the
      prefixes, ignoring ASCII case. */
  datatype VendorPattern = VendorPattern(vendor: string, prefixes: seq<string>)

  /** `VENDOR_PATTERNS`, in declaration order. */
  const VendorPatterns: seq<VendorPattern> := [
    VendorPattern("AdGuard", ["AdGuard"]),
    VendorPattern("Cloudflare", ["Cloudflare"]),
    VendorPattern("Mullvad", ["Mullvad"]),
    VendorPattern("Yandex", ["Yandex"]),
    VendorPattern("Google", ["Google"]),
    VendorPattern("OpenDNS", ["OpenDNS"]),
    VendorPattern("Canadian Shield", ["Canadian Shield"]),
    VendorPattern("CleanBrowsing", ["CleanBrowsing", "Doh.cleanbrowsing"]),
    VendorPattern("ControlD", ["ControlD", "Controld"]),
    VendorPattern("Quad9", ["Quad9", "Doh9.9.9.9"]),
    VendorPattern("LibreDNS", ["LibreDNS", "Libredns"]),
    VendorPattern("BlahDNS", ["BlahDNS"]),
    VendorPattern("DNSWarden", ["DNSWarden"]),
    VendorPattern("Adhole", ["Adhole"]),
    VendorPattern("DNS0", ["DNS0"]),
    VendorPattern("Pi-DNS", ["Pi-dns", "Doh.centraleu.pi-dns", "Doh.eastus.pi-dns", "Doh.northeu.pi-dns", "Doh.westus.pi-dns"]),
    VendorPattern("Restena", ["Restena"]),
    VendorPattern("DNSPod", ["DNSPod", "Doh.pub"]),
    VendorPattern("NextDNS", ["NextDNS"])
  ]

  /** The vendor a url mentioning `quad9` (in any case) belongs to. */
  const Quad9Vendor := "Quad9"
  const Quad9UrlMark := "quad9"

  predicate Matches(p: VendorPattern, name: string) {
    exists k :: 0 <= k < |p.prefixes| && StartsWithIgnoreCase(name, p.prefixes[k])
  }

  /** The position of the first pattern from `from` on that matches `name`. */
  function FirstMatch(patterns: seq<VendorPattern>, name: string, from: nat): (r: Option<nat>)
    requires from <= |patterns|
    ensures r.None? ==> forall j :: from <= j < |patterns| ==> !Matches(patterns[j], name)
    ensures r.Some? ==>
      && from <= r.value < |patterns| && Matches(patterns[r.value], name)
      && forall j :: from <= j < r.value ==> !Matches(patterns[j], name)
    decreases |patterns| - from
  {
    if from == |patterns| then None
    else if Matches(patterns[from], name) then Some(from)
    else FirstMatch(patterns, name, from + 1)
  }

  /** `getVendorName`: the vendor of the first matching pattern; otherwise Quad9 for a url that mentions
      it; otherwise the server's own name. */
  function VendorOf(server: DnsTestResult): string {
    match FirstMatch(VendorPatterns, server.name, 0)
    case Some(k) => VendorPatterns[k].vendor
    case None => if ContainsIgnoreCase(server.url, Quad9UrlMark) then Quad9Vendor else server.name
  }

  /** `getVendorName`, with its loop over the patterns. */
  method GetVendorName(server: DnsTestResult) returns (vendorName: string)
    ensures vendorName == VendorOf(server)
  {
    var found: Option<string> := None;
    var i := 0;
    while i < |VendorPatterns|
      invariant i <= |VendorPatterns|
      invariant found.None?
      invariant FirstMatch(VendorPatterns, server.name, 0) == FirstMatch(VendorPatterns, server.name, i)
    {
      if Matches(VendorPatterns[i], server.name) {
        found := Some(VendorPatterns[i].vendor);
        break;
      }
      i := i + 1;
    }
    if found.None? {
      if server.url != [] && ContainsIgnoreCase(server.url, Quad9UrlMark) {
        vendorName := Quad9Vendor;
      } else {
        vendorName := server.name;
      }
    } else {
      vendorName := found.value;
    }
  }

  /** A server whose name matches some pattern gets the vendor of the first pattern it matches. */
  lemma VendorOfFirstPattern(server: DnsTestResult)
    ensures (exists k :: 0 <= k < |VendorPatterns| && Matches(VendorPatterns[k], server.name)) ==>
      exists k :: 0 <= k < |VendorPatterns| && Matches(VendorPatterns[k], server.name)
        && VendorOf(server) == VendorPatterns[k].vendor
        && forall j :: 0 <= j < k ==> !Matches(VendorPatterns[j], server.name)
  {
  }

  lemma LowerTwice(c: char)
    ensures AsciiLower(AsciiLower(c)) == AsciiLower(c)
  {
  }

  /** Whether a pattern matches does not depend on the ASCII case of the name. */
  lemma MatchesIgnoresCase(p: VendorPattern, name: string)
    ensures Matches(p, name) <==> Matches(p, LowerAll(name))
  {
    var lower := LowerAll(name);
    forall k | 0 <= k < |p.prefixes|
      ensures StartsWithIgnoreCase(name, p.prefixes[k]) <==> StartsWithIgnoreCase(lower, p.prefixes[k])
    {
      forall i | 0 <= i < |name|
        ensures AsciiLower(lower[i]) == AsciiLower(name[i])
      {
        LowerTwice(name[i]);
      }
    }
  }

  /** A server whose name matches a pattern gets the same vendor whatever the ASCII case of its name. */
  lemma {:induction false} VendorIgnoresCase(server: DnsTestResult, from: nat)
    requires from <= |VendorPatterns|
    ensures FirstMatch(VendorPatterns, server.name, from) == FirstMatch(VendorPatterns, LowerAll(server.name), from)
    decreases |VendorPatterns| - from
  {
    if from < |VendorPatterns| {
      MatchesIgnoresCase(VendorPatterns[from], server.name);
      VendorIgnoresCase(server, from + 1);
    }
  }

  // ---------------------------------------------------------------------------
  // groupResultsByVendor

  /** Entries the grouping keeps: present, with a numeric average. */
  predicate Eligible(entry: Option<DnsTestResult>) {
    entry.Some? && entry.value.average.Ms?
  }

  /** One entry of the `forEach`: a result replaces its vendor's group only when strictly faster. */
  function GroupStep(groups: OMap<DnsTestResult>, entry: Option<DnsTestResult>): (r: OMap<DnsTestResult>)
    requires groups.Valid()
    ensures r.Valid()
  {
    if !Eligible(entry) then groups
    else
      var server := entry.value;
      var vendor := VendorOf(server);
      var existing := groups.Get(vendor);
      if existing.None? || server.average.ms < Metrics.AverageOf(existing.value) then groups.Put(vendor, server)
      else groups
  }

  function GroupFold(entries: seq<Option<DnsTestResult>>): (r: OMap<DnsTestResult>)
    ensures r.Valid()
  {
    if entries == [] then Empty()
    else GroupStep(GroupFold(entries[..|entries| - 1]), entries[|entries| - 1])
  }

  /** The vendors of the eligible entries, in order, with repeats. */
  function Vendors(entries: seq<Option<DnsTestResult>>): seq<string> {
    if entries == [] then []
    else
      var last := entries[|entries| - 1];
      Vendors(entries[..|entries| - 1]) + if Eligible(last) then [VendorOf(last.value)] else []
  }

  /** The present entries of one vendor, in order. */
  function OfVendor(entries: seq<Option<DnsTestResult>>, vendor: string): seq<DnsTestResult> {
    if entries == [] then []
    else
      var last := entries[|entries| - 1];
      OfVendor(entries[..|entries| - 1], vendor)
        + if last.Some? && VendorOf(last.value) == vendor then [last.value] else []
  }

  lemma GroupFoldSnoc(entries: seq<Option<DnsTestResult>>, e: Option<DnsTestResult>)
    ensures GroupFold(entries + [e]) == GroupStep(GroupFold(entries), e)
    ensures Vendors(entries + [e]) == Vendors(entries) + if Eligible(e) then [VendorOf(e.value)] else []
    ensures forall v ::
      OfVendor(entries + [e], v) == OfVendor(entries, v) + if e.Some? && VendorOf(e.value) == v then [e.value] else []
  {
    assert (entries + [e])[..|entries|] == entries;
  }

  /** One step for one vendor: its group follows the fastest-result rule. */
  lemma GroupStepGet(entries: seq<Option<DnsTestResult>>, e: Option<DnsTestResult>, v: string)
    requires GroupFold(entries).Get(v) == Metrics.GetFastestResult(OfVendor(entries, v))
    ensures GroupFold(entries + [e]).Get(v) == Metrics.GetFastestResult(OfVendor(entries + [e], v))
  {
    GroupFoldSnoc(entries, e);
    var before := OfVendor(entries, v);
    if e.Some? && VendorOf(e.value) == v {
      Metrics.FastestSnoc(before, e.value);
    } else {
      assert OfVendor(entries + [e], v) == before + [];
      assert before + [] == before;
    }
  }

  /** Each vendor with an eligible entry has one group, in order of the vendor's first eligible entry,
      holding the fastest of its entries (the earliest among equally fast ones). */
  lemma {:induction false} GroupFoldContents(entries: seq<Option<DnsTestResult>>)
    ensures GroupFold(entries).keys == Dedup(Vendors(entries))
    ensures forall v :: GroupFold(entries).Get(v) == Metrics.GetFastestResult(OfVendor(entries, v))
    decreases |entries|
  {
    if entries != [] {
      var init := entries[..|entries| - 1];
      var e := entries[|entries| - 1];
      assert entries == init + [e];
      GroupFoldContents(init);
      GroupFoldSnoc(init, e);
      var m := GroupFold(init);
      assert forall k :: k in m.vals <==> k in m.keys;
      if Eligible(e) {
        DedupSnoc(Vendors(init), VendorOf(e.value));
      } else {
        assert Vendors(entries) == Vendors(init) + [];
        assert Vendors(init) + [] == Vendors(init);
      }
      forall v
        ensures GroupFold(entries).Get(v) == Metrics.GetFastestResult(OfVendor(entries, v))
      {
        GroupStepGet(init, e, v);
      }
    }
  }

  /** `Object.entries(groups).map(([vendorName, server]) => ({ ...server, name: vendorName }))`. */
  function Renamed(groups: OMap<DnsTestResult>): (r: seq<DnsTestResult>)
    requires groups.Valid()
    ensures |r| == |groups.keys|
    ensures forall i :: 0 <= i < |r| ==> r[i] == groups.vals[groups.keys[i]].(name := groups.keys[i])
  {
    seq(|groups.keys|, i requires 0 <= i < |groups.keys| && groups.Valid() =>
      groups.vals[groups.keys[i]].(name := groups.keys[i]))
  }

  /** What `groupResultsByVendor` returns. */
  function Grouped(entries: seq<Option<DnsTestResult>>): seq<DnsTestResult> {
    SortBy(Renamed(GroupFold(entries)), Metrics.AverageOf)
  }

  /** `groupResultsByVendor`: the `forEach` that fills the groups, then the renaming and the sort. */
  method GroupResultsByVendor(entries: seq<Option<DnsTestResult>>) returns (out: seq<DnsTestResult>)
    ensures out == Grouped(entries)
  {
    var groups := Empty<DnsTestResult>();
    for i := 0 to |entries|
      invariant groups == GroupFold(entries[..i])
    {
      GroupFoldSnoc(entries[..i], entries[i]);
      assert entries[..i + 1] == entries[..i] + [entries[i]];
      var entry := entries[i];
      if entry.None? || !entry.value.average.Ms? {
        continue;
      }
      var server := entry.value;
      var vendorName := GetVendorName(server);
      var existing := groups.Get(vendorName);
      if existing.None? || server.average.ms < Metrics.AverageOf(existing.value) {
        groups := groups.Put(vendorName, server);
      }
    }
    assert entries[..|entries|] == entries;
    out := SortBy(Renamed(groups), Metrics.AverageOf);
  }

  /** Every entry of the grouped list is one of the renamed groups, and those have distinct names. */
  lemma GroupedIsRenamed(entries: seq<Option<DnsTestResult>>, i: nat)
    requires i < |Grouped(entries)|
    ensures var groups := GroupFold(entries);
      exists k :: 0 <= k < |groups.keys| && Grouped(entries)[i] == Renamed(groups)[k]
  {
    var out := Grouped(entries);
    assert out[i] in multiset(Renamed(GroupFold(entries)));
  }

  /** The renamed groups are distinct, since each carries its own key as its name. */
  lemma RenamedNoDups(groups: OMap<DnsTestResult>)
    requires groups.Valid()
    ensures NoDups(Renamed(groups))
  {
    var renamed := Renamed(groups);
    forall x, y | 0 <= x < y < |renamed|
      ensures renamed[x] != renamed[y]
    {
      assert renamed[x].name == groups.keys[x];
    }
  }

  /** No two entries of the grouped list carry the same name. */
  lemma GroupedNamesDistinct(entries: seq<Option<DnsTestResult>>)
    ensures var out := Grouped(entries);
      forall i, j :: 0 <= i < j < |out| ==> out[i].name != out[j].name
  {
    var groups := GroupFold(entries);
    var renamed := Renamed(groups);
    var out := Grouped(entries);
    RenamedNoDups(groups);
    PermutationNoDups(renamed, out);
    forall i, j | 0 <= i < j < |out|
      ensures out[i].name != out[j].name
    {
      GroupedIsRenamed(entries, i);
      GroupedIsRenamed(entries, j);
      var a :| 0 <= a < |groups.keys| && out[i] == renamed[a];
      var b :| 0 <= b < |groups.keys| && out[j] == renamed[b];
    }
  }

  /** Every vendor with an eligible entry names an entry of the grouped list. */
  lemma GroupedCoversVendors(entries: seq<Option<DnsTestResult>>)
    ensures var out := Grouped(entries);
      forall v :: v in Vendors(entries) ==> exists i :: 0 <= i < |out| && out[i].name == v
  {
    var groups := GroupFold(entries);
    GroupFoldContents(entries);
    var renamed := Renamed(groups);
    var out := Grouped(entries);
    forall v | v in Vendors(entries)
      ensures exists i :: 0 <= i < |out| && out[i].name == v
    {
      var k :| 0 <= k < |groups.keys| && groups.keys[k] == v;
      assert renamed[k] in multiset(out);
      var i :| 0 <= i < |out| && out[i] == renamed[k];
    }
  }

  /** The grouped list is sorted by average and names each vendor with an eligible result once. */
  lemma GroupedVendors(entries: seq<Option<DnsTestResult>>)
    ensures var out := Grouped(entries);
      && SortedBy(out, Metrics.AverageOf)
      && |out| == |Dedup(Vendors(entries))|
      && (forall i, j :: 0 <= i < j < |out| ==> out[i].name != out[j].name)
      && (forall v :: v in Vendors(entries) ==> exists i :: 0 <= i < |out| && out[i].name == v)
  {
    GroupFoldContents(entries);
    GroupedNamesDistinct(entries);
    GroupedCoversVendors(entries);
  }

  /** Each entry of the grouped list is the fastest result of the vendor it is named after, with only the
      name changed. */
  lemma GroupedEntries(entries: seq<Option<DnsTestResult>>, i: nat)
    requires i < |Grouped(entries)|
    ensures var out := Grouped(entries);
      var best := Metrics.GetFastestResult(OfVendor(entries, out[i].name));
      best.Some? && out[i] == best.value.(name := out[i].name)
  {
    var groups := GroupFold(entries);
    GroupFoldContents(entries);
    GroupedIsRenamed(entries, i);
    var k :| 0 <= k < |groups.keys| && Grouped(entries)[i] == Renamed(groups)[k];
    var v := groups.keys[k];
    assert v in groups.vals;
    assert groups.Get(v) == Some(groups.vals[v]);
  }

  // ---------------------------------------------------------------------------
  // The chart height

  /** 35 px per bar plus 100, clamped to [300, 800]. */
  function ChartHeight(bars: nat): (h: int)
    ensures 300 <= h <= 800
    ensures 6 <= bars <= 20 ==> h == 35 * bars + 100
  {
    var wanted := bars * 35 + 100;
    var capped := if wanted < 800 then wanted else 800;
    if capped > 300 then capped else 300
  }

  /** More bars never make the chart shorter. */
  lemma ChartHeightMonotone(a: nat, b: nat)
    requires a <= b
    ensures ChartHeight(a) <= ChartHeight(b)
  {
  }
}

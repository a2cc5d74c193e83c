/** `parsePublicResolvers`: the dnscrypt `public-resolvers.md` list to DoH server entries. A first pass
    pairs every `sdns://` line with the resolver section it sits in; a second pass decodes the stamps,
    keeps the DoH ones that name a host, and gathers them by URL, the first resolver name for a URL
    naming its entry and every address seen for it collected, once each. */
module ResolverList {
  import opened Wrappers
  import opened Seqs
  import opened Text
  import opened Types
  import OrderedMap
  import Stamp

  const HeaderMark: string := "## "
  const IgnoredSection: string := "public-resolvers"
  const HttpsScheme: string := "https://"

  // ---------------------------------------------------------------------------
  // Lines

  /** A line without the carriage return of a CRLF line ending. */
  function DropCR(s: string): (r: string)
    ensures r == s || r + ['\r'] == s
  {
    if |s| > 0 && s[|s| - 1] == '\r' then s[..|s| - 1] else s
  }

  /** `text.split(/\r?\n/)`: split at every line feed, a carriage return just before one going with it. */
  function Lines(text: string): (r: seq<string>)
    ensures |r| >= 1
    ensures forall i :: 0 <= i < |r| ==> '\n' !in r[i]
  {
    var pieces := SplitOn(text, '\n');
    seq(|pieces|, i requires 0 <= i < |pieces| => if i < |pieces| - 1 then DropCR(pieces[i]) else pieces[i])
  }

  /** Text with Unix line endings splits into lines that join back to it. */
  lemma LinesJoin(text: string)
    requires '\r' !in text
    ensures Join(Lines(text), "\n") == text
  {
    var pieces := SplitOn(text, '\n');
    forall i | 0 <= i < |pieces| - 1
      ensures DropCR(pieces[i]) == pieces[i]
    {
      if |pieces[i]| > 0 {
        assert pieces[i][|pieces[i]| - 1] in pieces[i];
        JoinSplitPieceIn(text, i);
      }
    }
    assert Lines(text) == pieces;
    JoinSplit(text, '\n');
  }

  /** Every character of a piece of a split occurs in the split text. */
  lemma JoinSplitPieceIn(text: string, i: nat)
    requires i < |SplitOn(text, '\n')|
    ensures forall c :: c in SplitOn(text, '\n')[i] ==> c in text
  {
    var pieces := SplitOn(text, '\n');
    JoinSplit(text, '\n');
    JoinContains(pieces, "\n", i);
  }

  lemma {:induction false} JoinContains(parts: seq<string>, sep: string, i: nat)
    requires i < |parts|
    ensures forall c :: c in parts[i] ==> c in Join(parts, sep)
    decreases |parts|
  {
    if |parts| > 1 && i > 0 {
      JoinContains(parts[1..], sep, i - 1);
    }
  }

  // ---------------------------------------------------------------------------
  // First pass: stamps under their section

  datatype StampEntry = StampEntry(name: string, stamp: string)

  predicate IsHeader(line: string) {
    StartsWith(line, HeaderMark)
  }

  /** The resolver a `## ` line opens: its trimmed title; none for an empty title or the list's own. */
  function Section(line: string): (r: Option<string>)
    requires IsHeader(line)
    ensures r.Some? ==> r.value != [] && r.value != IgnoredSection
  {
    var name := Trim(line[|HeaderMark|..]);
    if name != [] && name != IgnoredSection then Some(name) else None
  }

  /** The first pass over `lines`: the stamp entries so far and the current resolver name. */
  function Scan(lines: seq<string>): (r: (seq<StampEntry>, Option<string>))
    ensures |r.0| <= |lines|
    ensures r.1.Some? ==> r.1.value != [] && r.1.value != IgnoredSection
    ensures forall k :: 0 <= k < |r.0| ==>
      && StartsWith(r.0[k].stamp, Stamp.Prefix)
      && r.0[k].name != [] && r.0[k].name != IgnoredSection
  {
    if lines == [] then ([], None)
    else
      var before := Scan(lines[..|lines| - 1]);
      var line := lines[|lines| - 1];
      if IsHeader(line) then (before.0, Section(line))
      else
        var trimmed := Trim(line);
        if StartsWith(trimmed, Stamp.Prefix) && before.1.Some? then
          (before.0 + [StampEntry(before.1.value, trimmed)], before.1)
        else before
  }

  predicate IsLastHeader(lines: seq<string>, j: int) {
    && 0 <= j < |lines|
    && IsHeader(lines[j])
    && forall k :: j < k < |lines| ==> !IsHeader(lines[k])
  }

  /** The current resolver is the one the last `## ` line opened, and there is none before the first. */
  lemma {:induction false} CurrentSectionIsLastHeader(lines: seq<string>)
    ensures forall j :: IsLastHeader(lines, j) ==> Scan(lines).1 == Section(lines[j])
    ensures (forall k :: 0 <= k < |lines| ==> !IsHeader(lines[k])) ==> Scan(lines).1.None?
  {
    if lines != [] {
      var init := lines[..|lines| - 1];
      CurrentSectionIsLastHeader(init);
      forall j | IsLastHeader(lines, j)
        ensures Scan(lines).1 == Section(lines[j])
      {
        if j < |lines| - 1 {
          assert IsLastHeader(init, j);
        }
      }
      if forall k :: 0 <= k < |lines| ==> !IsHeader(lines[k]) {
        assert forall k :: 0 <= k < |init| ==> !IsHeader(init[k]) by {
          forall k | 0 <= k < |init| ensures !IsHeader(init[k]) {
            assert init[k] == lines[k];
          }
        }
      }
    }
  }

  lemma ScanSnoc(lines: seq<string>, line: string)
    ensures Scan(lines + [line]) ==
      if IsHeader(line) then (Scan(lines).0, Section(line))
      else if StartsWith(Trim(line), Stamp.Prefix) && Scan(lines).1.Some? then
        (Scan(lines).0 + [StampEntry(Scan(lines).1.value, Trim(line))], Scan(lines).1)
      else Scan(lines)
  {
    assert (lines + [line])[..|lines|] == lines;
  }

  /** A header followed by a stamp line: the stamp is kept, under the header's resolver, exactly when the
      header names one; otherwise it is dropped and no resolver is current. */
  lemma {:induction false} HeaderThenStamp(lines: seq<string>, header: string, stampLine: string)
    requires IsHeader(header)
    requires !IsHeader(stampLine) && StartsWith(Trim(stampLine), Stamp.Prefix)
    ensures Scan(lines + [header, stampLine])
         == match Section(header)
            case Some(name) => (Scan(lines).0 + [StampEntry(name, Trim(stampLine))], Some(name))
            case None => (Scan(lines).0, None)
  {
    ScanSnoc(lines, header);
    ScanSnoc(lines + [header], stampLine);
    assert lines + [header] + [stampLine] == lines + [header, stampLine];
  }

  /** The list's own title and an empty title open no resolver section; any other title opens one. */
  lemma PlaceholderSections(title: string)
    requires title == [] || (!IsJsWhitespace(title[0]) && !IsJsWhitespace(title[|title| - 1]))
    ensures IsHeader(HeaderMark + title)
    ensures Section(HeaderMark + title) == if title == [] || title == IgnoredSection then None else Some(title)
  {
    var line := HeaderMark + title;
    assert line[..|HeaderMark|] == HeaderMark;
    assert line[|HeaderMark|..] == title;
    TrimOfTrimmed(title);
  }

  /** The first loop of `parsePublicResolvers`. */
  method CollectStamps(lines: seq<string>) returns (entries: seq<StampEntry>)
    ensures entries == Scan(lines).0
  {
    var current: Option<string> := None;
    entries := [];
    for i := 0 to |lines|
      invariant (entries, current) == Scan(lines[..i])
    {
      var line := lines[i];
      assert lines[..i + 1][..i] == lines[..i];
      if StartsWith(line, HeaderMark) {
        var name := Trim(line[|HeaderMark|..]);
        if name != [] && name != IgnoredSection {
          current := Some(name);
        } else {
          current := None;
        }
        continue;
      }
      var trimmed := Trim(line);
      if StartsWith(trimmed, Stamp.Prefix) && current.Some? {
        entries := entries + [StampEntry(current.value, trimmed)];
      }
    }
    assert lines[..|lines|] == lines;
  }

  // ---------------------------------------------------------------------------
  // Second pass: DoH entries by URL

  /** A stamp that yields a DoH endpoint: the resolver name, the URL and the address (empty for none). */
  datatype Candidate = Candidate(name: string, url: string, ip: string)

  /** The URL of a DoH endpoint: `https://`, the host, then the path or `/dns-query` when there is none. */
  function DohUrl(host: string, path: string): (url: string)
    ensures StartsWith(url, HttpsScheme) && |url| > |HttpsScheme|
  {
    var rest := host + (if path == [] then Stamp.DefaultPath else path);
    assert (HttpsScheme + rest)[..|HttpsScheme|] == HttpsScheme;
    HttpsScheme + rest
  }

  function CandidateOf(e: StampEntry): (r: Option<Candidate>)
    ensures r.Some? ==> r.value.name == e.name && StartsWith(r.value.url, HttpsScheme)
  {
    match Stamp.Decoded(e.stamp)
    case Some(DoH(addr, host, path)) =>
      if host == [] then None
      else Some(Candidate(e.name, DohUrl(host, path), addr))
    case _ => None
  }

  function Candidates(entries: seq<StampEntry>): (r: seq<Candidate>)
    ensures |r| <= |entries|
  {
    if entries == [] then []
    else
      var last := entries[|entries| - 1];
      Candidates(entries[..|entries| - 1]) + (match CandidateOf(last) case Some(c) => [c] case None => [])
  }

  function Urls(cs: seq<Candidate>): (r: seq<string>)
    ensures |r| == |cs|
  {
    if cs == [] then [] else Urls(cs[..|cs| - 1]) + [cs[|cs| - 1].url]
  }

  /** The candidates for `url`, in list order. */
  function WithUrl(cs: seq<Candidate>, url: string): (r: seq<Candidate>)
    ensures forall k :: 0 <= k < |r| ==> r[k].url == url
  {
    if cs == [] then []
    else
      var last := cs[|cs| - 1];
      WithUrl(cs[..|cs| - 1], url) + (if last.url == url then [last] else [])
  }

  /** The non-empty addresses of some candidates, in order. */
  function Addresses(cs: seq<Candidate>): (r: seq<string>)
    ensures forall k :: 0 <= k < |r| ==> r[k] != []
  {
    if cs == [] then []
    else
      var last := cs[|cs| - 1];
      Addresses(cs[..|cs| - 1]) + (if last.ip != [] then [last.ip] else [])
  }

  /** The entry a new URL starts with. */
  function NewEntry(name: string, url: string): DnsServer {
    DnsServer(name, url, Some("post"), Some(false), Some([]), None, None, None, None, None, None, Some("external"))
  }

  /** `if (ip && !entry.ips.includes(ip)) entry.ips.push(ip)`. */
  function AddIp(entry: DnsServer, ip: string): DnsServer {
    if ip != [] && ip !in entry.IpList() then entry.(ips := Some(entry.IpList() + [ip])) else entry
  }

  function DohStep(m: OrderedMap.OMap<DnsServer>, c: Candidate): (r: OrderedMap.OMap<DnsServer>)
    requires m.Valid()
    ensures r.Valid()
  {
    var entry := match m.Get(c.url) case Some(e) => e case None => NewEntry(c.name, c.url);
    m.Put(c.url, AddIp(entry, c.ip))
  }

  /** `dohMap` after the candidates, in order. */
  function DohFold(cs: seq<Candidate>): (r: OrderedMap.OMap<DnsServer>)
    ensures r.Valid()
  {
    if cs == [] then OrderedMap.Empty() else DohStep(DohFold(cs[..|cs| - 1]), cs[|cs| - 1])
  }

  /** The entry for `url` once all candidates are in: the first candidate's name, the fixed defaults, and
      every non-empty address of the URL's candidates once each, in the order first seen. */
  function ExpectedEntry(cs: seq<Candidate>, url: string): Option<DnsServer> {
    var mine := WithUrl(cs, url);
    if mine == [] then None
    else Some(NewEntry(mine[0].name, url).(ips := Some(Dedup(Addresses(mine)))))
  }

  lemma DedupOfOne(x: string)
    ensures Dedup([x]) == [x]
  {
    DedupSnoc([], x);
    assert [] + [x] == [x];
  }

  /** What one step does to a lookup: only the candidate's URL changes. */
  lemma DohStepGet(m: OrderedMap.OMap<DnsServer>, c: Candidate, url: string)
    requires m.Valid()
    ensures DohStep(m, c).Get(url)
         == if url == c.url then Some(AddIp(m.Get(url).GetOr(NewEntry(c.name, c.url)), c.ip)) else m.Get(url)
  {
  }

  /** The entry a URL's first candidate creates. */
  lemma ExpectedFirst(init: seq<Candidate>, c: Candidate)
    requires WithUrl(init, c.url) == []
    ensures ExpectedEntry(init + [c], c.url) == Some(AddIp(NewEntry(c.name, c.url), c.ip))
  {
    var cs := init + [c];
    assert cs[..|cs| - 1] == init;
    assert WithUrl(cs, c.url) == [c];
    assert Addresses([c]) == Addresses([]) + (if c.ip != [] then [c.ip] else []);
    if c.ip != [] {
      DedupOfOne(c.ip);
    }
  }

  lemma AddressesSnoc(cs: seq<Candidate>, c: Candidate)
    ensures Addresses(cs + [c]) == Addresses(cs) + (if c.ip != [] then [c.ip] else [])
  {
    assert (cs + [c])[..|cs|] == cs;
  }

  lemma WithUrlSnoc(cs: seq<Candidate>, c: Candidate, url: string)
    ensures WithUrl(cs + [c], url) == WithUrl(cs, url) + (if c.url == url then [c] else [])
  {
    assert (cs + [c])[..|cs|] == cs;
  }

  /** Adding an address to an entry whose addresses are the distinct ones of `addrs`. */
  lemma AddIpDedup(e: DnsServer, addrs: seq<string>, ip: string)
    requires e.ips == Some(Dedup(addrs))
    ensures AddIp(e, ip) == e.(ips := Some(Dedup(addrs + (if ip != [] then [ip] else []))))
  {
    if ip != [] {
      DedupSnoc(addrs, ip);
    } else {
      assert addrs + [] == addrs;
    }
  }

  /** A later candidate for a URL adds its address to the entry. */
  lemma ExpectedLater(init: seq<Candidate>, c: Candidate)
    requires WithUrl(init, c.url) != []
    ensures ExpectedEntry(init + [c], c.url) == Some(AddIp(ExpectedEntry(init, c.url).value, c.ip))
  {
    var mine := WithUrl(init, c.url);
    WithUrlSnoc(init, c, c.url);
    AddressesSnoc(mine, c);
    assert (mine + [c])[0] == mine[0];
    var addrs := Addresses(mine);
    var e := NewEntry(mine[0].name, c.url).(ips := Some(Dedup(addrs)));
    assert ExpectedEntry(init, c.url) == Some(e);
    AddIpDedup(e, addrs, c.ip);
    assert ExpectedEntry(init + [c], c.url)
        == Some(NewEntry(mine[0].name, c.url).(ips := Some(Dedup(addrs + (if c.ip != [] then [c.ip] else [])))));
  }

  /** Another URL's entry is unaffected by a candidate. */
  lemma ExpectedOther(init: seq<Candidate>, c: Candidate, url: string)
    requires url != c.url
    ensures ExpectedEntry(init + [c], url) == ExpectedEntry(init, url)
  {
    WithUrlSnoc(init, c, url);
    assert WithUrl(init, url) + [] == WithUrl(init, url);
  }

  /** One step of the fold keeps the entry of every URL as `ExpectedEntry` says. */
  lemma DohStepEntry(init: seq<Candidate>, c: Candidate, url: string)
    requires forall u :: DohFold(init).Get(u) == ExpectedEntry(init, u)
    ensures DohStep(DohFold(init), c).Get(url) == ExpectedEntry(init + [c], url)
  {
    var m := DohFold(init);
    DohStepGet(m, c, url);
    assert m.Get(url) == ExpectedEntry(init, url);
    if url != c.url {
      ExpectedOther(init, c, url);
    } else if WithUrl(init, url) == [] {
      ExpectedFirst(init, c);
    } else {
      ExpectedLater(init, c);
    }
  }

  /** The map after all candidates: one entry per distinct URL in order of first appearance, each as
      `ExpectedEntry` says. */
  lemma {:induction false} DohFoldContents(cs: seq<Candidate>)
    ensures DohFold(cs).keys == Dedup(Urls(cs))
    ensures forall url :: DohFold(cs).Get(url) == ExpectedEntry(cs, url)
  {
    if cs != [] {
      var init := cs[..|cs| - 1];
      var c := cs[|cs| - 1];
      assert cs == init + [c];
      var m := DohFold(init);
      DohFoldContents(init);
      DedupSnoc(Urls(init), c.url);
      assert c.url in m.vals <==> c.url in m.keys;
      forall url
        ensures DohFold(cs).Get(url) == ExpectedEntry(cs, url)
      {
        DohStepEntry(init, c, url);
      }
    }
  }

  lemma CandidatesSnoc(entries: seq<StampEntry>, i: nat)
    requires i < |entries|
    ensures Candidates(entries[..i + 1])
         == Candidates(entries[..i]) + (match CandidateOf(entries[i]) case Some(c) => [c] case None => [])
  {
    assert entries[..i + 1][..i] == entries[..i];
  }

  /** The second loop of `parsePublicResolvers` and the `Array.from(dohMap.values())` after it. */
  method BuildDoHEntries(entries: seq<StampEntry>) returns (servers: seq<DnsServer>)
    ensures servers == DohFold(Candidates(entries)).Values()
  {
    var m := OrderedMap.Empty<DnsServer>();
    for i := 0 to |entries|
      invariant m == DohFold(Candidates(entries[..i]))
    {
      var e := entries[i];
      CandidatesSnoc(entries, i);
      var decoded := Stamp.DecodeStamp(e.stamp);
      if decoded.None? || decoded.value.Other? {
        assert CandidateOf(e).None?;
        assert Candidates(entries[..i]) + [] == Candidates(entries[..i]);
        continue;
      }
      var host := decoded.value.host;
      var path := decoded.value.path;
      if host == [] {
        assert CandidateOf(e).None?;
        assert Candidates(entries[..i]) + [] == Candidates(entries[..i]);
        continue;
      }
      var url := DohUrl(host, path);
      var ip := decoded.value.addr;
      ghost var c := Candidate(e.name, url, ip);
      assert CandidateOf(e) == Some(c);
      assert Candidates(entries[..i + 1]) == Candidates(entries[..i]) + [c];
      var entry;
      match m.Get(url) {
        case Some(existing) => entry := existing;
        case None => entry := NewEntry(e.name, url);
      }
      if ip != [] && ip !in entry.IpList() {
        entry := entry.(ips := Some(entry.IpList() + [ip]));
      }
      assert m.Put(url, entry) == DohStep(m, c);
      m := m.Put(url, entry);
    }
    assert entries[..|entries|] == entries;
    servers := m.Values();
  }

  /** What `parsePublicResolvers(text)` returns. */
  function Parsed(text: string): seq<DnsServer> {
    DohFold(Candidates(Scan(Lines(text)).0)).Values()
  }

  /** `parsePublicResolvers`. */
  method ParsePublicResolvers(text: string) returns (servers: seq<DnsServer>)
    ensures servers == Parsed(text)
  {
    var lines := Lines(text);
    var entries := CollectStamps(lines);
    servers := BuildDoHEntries(entries);
  }

  /** The parsed list holds one entry per distinct DoH URL, in order of first appearance, and the entry
      for a URL is `ExpectedEntry` of it. */
  lemma ParsedEntries(text: string)
    ensures var cs := Candidates(Scan(Lines(text)).0);
      && |Parsed(text)| == |Dedup(Urls(cs))|
      && forall i :: 0 <= i < |Parsed(text)| ==>
           Some(Parsed(text)[i]) == ExpectedEntry(cs, Dedup(Urls(cs))[i])
  {
    var cs := Candidates(Scan(Lines(text)).0);
    DohFoldContents(cs);
    var m := DohFold(cs);
    forall i | 0 <= i < |Parsed(text)|
      ensures Some(Parsed(text)[i]) == ExpectedEntry(cs, Dedup(Urls(cs))[i])
    {
      assert m.keys[i] in m.vals;
      assert m.Get(m.keys[i]) == Some(m.vals[m.keys[i]]);
    }
  }
}

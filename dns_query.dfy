/** How one DNS-over-HTTPS query is sent: the binary DNS message for a POST (an A-record question for the
    hostname, in the wire format of section 4.1 of RFC 1035), the `?name=...&type=A` URL for a GET, and
    the choice between the two from the server's `type`. */
module DnsQuery {
  import opened Wrappers
  import opened Bytes
  import opened Text

  const Dot: byte := 0x2E
  /** ID 0, flags 0x0100 (recursion desired), one question, no other records. */
  const Header: seq<byte> := [0x00, 0x00, 0x01, 0x00, 0x00, 0x01, 0x00, 0x00, 0x00, 0x00, 0x00, 0x00]
  /** QTYPE A, QCLASS IN. */
  const TypeAndClass: seq<byte> := [0x00, 0x01, 0x00, 0x01]

  // ---------------------------------------------------------------------------
  // The POST body

  /** One segment: its length as a `u8` (the length modulo 256), then its bytes. */
  function EncodeLabel(segment: seq<byte>): seq<byte> {
    [(|segment| % 0x100) as byte] + segment
  }

  function EncodeLabels(labels: seq<seq<byte>>): seq<byte> {
    if labels == [] then [] else EncodeLabel(labels[0]) + EncodeLabels(labels[1..])
  }

  /** The message `build_dns_query` builds for `hostname`. */
  function QueryFor(hostname: seq<byte>): seq<byte> {
    Header + EncodeLabels(SplitOn(hostname, Dot)) + [0x00] + TypeAndClass
  }

  lemma {:induction false} EncodeLabelsSnoc(labels: seq<seq<byte>>, segment: seq<byte>)
    ensures EncodeLabels(labels + [segment]) == EncodeLabels(labels) + EncodeLabel(segment)
    decreases |labels|
  {
    if labels == [] {
      assert [] + [segment] == [segment];
    } else {
      assert (labels + [segment])[1..] == labels[1..] + [segment];
      EncodeLabelsSnoc(labels[1..], segment);
    }
  }

  /** `build_dns_query`. */
  method BuildDnsQuery(hostname: seq<byte>) returns (query: seq<byte>)
    ensures query == QueryFor(hostname)
  {
    var labels := SplitOn(hostname, Dot);
    var question: seq<byte> := [];
    for i := 0 to |labels|
      invariant question == EncodeLabels(labels[..i])
    {
      var segment := labels[i];
      EncodeLabelsSnoc(labels[..i], segment);
      assert labels[..i + 1] == labels[..i] + [segment];
      question := question + [(|segment| % 0x100) as byte];
      question := question + segment;
    }
    assert labels[..|labels|] == labels;
    query := Header + question + [0x00] + TypeAndClass;
  }

  /** The labels of a name joined by dots take one byte fewer than their encoding. */
  lemma {:induction false} EncodedLength(labels: seq<seq<byte>>)
    requires labels != []
    ensures |EncodeLabels(labels)| == |Join(labels, [Dot])| + 1
    decreases |labels|
  {
    if |labels| > 1 {
      EncodedLength(labels[1..]);
    }
  }

  /** The message is the hostname plus 18 bytes: 12 of header, one length byte more than there are dots,
      the root segment and the four bytes of type and class. */
  lemma QueryLength(hostname: seq<byte>)
    ensures |QueryFor(hostname)| == |hostname| + 18
  {
    EncodedLength(SplitOn(hostname, Dot));
    JoinSplit(hostname, Dot);
  }

  /** Reading a name back from a message, as a resolver does: labels until the zero length byte, then the
      rest of the message; `None` when the bytes end first. */
  function ReadName(bytes: seq<byte>): Option<(seq<seq<byte>>, seq<byte>)>
    decreases |bytes|
  {
    if bytes == [] then None
    else if bytes[0] == 0 then Some(([], bytes[1..]))
    else
      var n := bytes[0] as int;
      if 1 + n > |bytes| then None
      else
        match ReadName(bytes[1 + n..])
        case None => None
        case Some(r) => Some(([bytes[1..1 + n]] + r.0, r.1))
  }

  /** A name whose labels have 1 to 255 bytes reads back as those labels. */
  lemma {:induction false} ReadEncodedName(labels: seq<seq<byte>>, rest: seq<byte>)
    requires forall k :: 0 <= k < |labels| ==> 0 < |labels[k]| < 0x100
    ensures ReadName(EncodeLabels(labels) + [0x00] + rest) == Some((labels, rest))
    decreases |labels|
  {
    var bytes := EncodeLabels(labels) + [0x00] + rest;
    if labels == [] {
      assert bytes == [0x00] + rest;
    } else {
      var l := labels[0];
      var tail := EncodeLabels(labels[1..]) + [0x00] + rest;
      assert bytes == [|l| as byte] + l + tail;
      assert bytes[1..1 + |l|] == l;
      assert bytes[1 + |l|..] == tail;
      ReadEncodedName(labels[1..], rest);
      assert [l] + labels[1..] == labels;
    }
  }

  /** The message for a hostname whose dot-separated labels have 1 to 255 bytes carries that hostname: after
      the header, its labels read back and join with dots to the hostname, followed by type A, class IN. */
  lemma QueryCarriesHostname(hostname: seq<byte>)
    requires forall k :: 0 <= k < |SplitOn(hostname, Dot)| ==> 0 < |SplitOn(hostname, Dot)[k]| < 0x100
    ensures QueryFor(hostname)[..|Header|] == Header
    ensures ReadName(QueryFor(hostname)[|Header|..]) == Some((SplitOn(hostname, Dot), TypeAndClass))
    ensures Join(SplitOn(hostname, Dot), [Dot]) == hostname
  {
    var labels := SplitOn(hostname, Dot);
    var q := QueryFor(hostname);
    assert q == Header + (EncodeLabels(labels) + [0x00] + TypeAndClass);
    assert q[|Header|..] == EncodeLabels(labels) + [0x00] + TypeAndClass;
    ReadEncodedName(labels, TypeAndClass);
    JoinSplit(hostname, Dot);
  }

  // ---------------------------------------------------------------------------
  // The GET URL and the choice of method

  const NameKey: string := "name="
  const TypeParameter: string := "type=A"

  /** The query string after the separator: `name=<domain>&type=A`. */
  function Parameters(domain: string): string {
    NameKey + domain + ['&'] + TypeParameter
  }

  /** `format!("{}{}name={}&type=A", server_url, sep, domain)`, `sep` being `&` when the URL already
      has a query string and `?` otherwise. */
  function GetUrl(serverUrl: string, domain: string): (r: string)
    ensures StartsWith(r, serverUrl) && |r| > |serverUrl|
    ensures r[|serverUrl|] == (if '?' in serverUrl then '&' else '?')
    ensures r[|serverUrl| + 1..] == Parameters(domain)
  {
    var sep := if '?' in serverUrl then '&' else '?';
    assert (serverUrl + [sep] + Parameters(domain))[..|serverUrl|] == serverUrl;
    serverUrl + [sep] + Parameters(domain)
  }

  /** Round trip: for a server URL without a query string and a domain without `?` or `&`, the URL splits
      back into the server URL and the parameters, and these into `name=<domain>` and `type=A`. (The `&`
      branch, a server URL that already has `?`, is covered by `GetUrl`'s own contract.) */
  lemma GetUrlParameters(serverUrl: string, domain: string)
    requires '?' !in serverUrl && '?' !in domain && '&' !in domain
    ensures SplitOn(GetUrl(serverUrl, domain), '?') == [serverUrl, Parameters(domain)]
    ensures SplitOn(Parameters(domain), '&') == [NameKey + domain, TypeParameter]
  {
    var first := NameKey + domain;
    assert '?' !in NameKey && '&' !in NameKey && '?' !in TypeParameter && '&' !in TypeParameter;
    assert '?' !in Parameters(domain);
    SplitTwo(serverUrl, Parameters(domain), '?');
    SplitTwo(first, TypeParameter, '&');
  }

  lemma SplitTwo(a: string, b: string, c: char)
    requires c !in a && c !in b
    ensures SplitOn(a + [c] + b, c) == [a, b]
  {
    assert Join([a, b], [c]) == a + [c] + b;
    SplitJoin([a, b], c);
  }

  datatype HttpMethod = Get | Post

  /** The server's `type`, `"post"` when it is empty. */
  function EffectiveType(serverType: string): (r: string)
    ensures r != []
    ensures serverType != [] ==> r == serverType
  {
    if serverType == [] then "post" else serverType
  }

  /** A query goes out as a GET exactly when the type is `"get"`; any other type, and none, means POST. */
  function MethodFor(serverType: string): (r: HttpMethod)
    ensures r == Get <==> serverType == "get"
  {
    if EffectiveType(serverType) == "get" then Get else Post
  }
}

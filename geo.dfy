/** Country helpers of the location service (src/services/geoLocation.js): the flag emoji of a
    two-letter country code, and the DNS services recommended for a country. */
module Geo {
  import opened Wrappers

  /** A UTF-16 code unit: JavaScript measures strings and reads `charCodeAt` in these. */
  newtype CodeUnit = x: int | 0 <= x < 0x1_0000

  /** Added to an upper-case letter's code, gives its regional indicator symbol: 'A' (65) becomes
      U+1F1E6. */
  const RegionalIndicatorOffset: int := 127397

  /** The globe shown for a missing or malformed code. */
  const Globe: string := "\U{1F30D}"

  /** `toUpperCase` on an ASCII letter. */
  function UpperUnit(c: CodeUnit): CodeUnit {
    if 97 <= c <= 122 then c - 32 else c
  }

  function FlagChar(c: CodeUnit): (ch: char)
    ensures ch as int == RegionalIndicatorOffset + UpperUnit(c) as int
  {
    (RegionalIndicatorOffset + UpperUnit(c) as int) as char
  }

  /** `getCountryFlag`; `None` is a missing code. */
  function CountryFlag(code: Option<seq<CodeUnit>>): (flag: string)
    ensures code.None? || |code.value| != 2 ==> flag == Globe
    ensures code.Some? && |code.value| == 2 ==>
      |flag| == 2 && forall i :: 0 <= i < 2 ==> flag[i] as int == RegionalIndicatorOffset + UpperUnit(code.value[i]) as int
  {
    if code.None? || |code.value| != 2 then Globe
    else [FlagChar(code.value[0]), FlagChar(code.value[1])]
  }

  /** The letters a flag stands for: each symbol less the offset. */
  function FlagLetters(flag: string): seq<int> {
    seq(|flag|, i requires 0 <= i < |flag| => flag[i] as int - RegionalIndicatorOffset)
  }

  /** The flag of a two-unit code gives back the code in upper case. */
  lemma FlagRoundTrip(code: seq<CodeUnit>)
    requires |code| == 2
    ensures FlagLetters(CountryFlag(Some(code))) == [UpperUnit(code[0]) as int, UpperUnit(code[1]) as int]
  {
  }

  /** Codes that differ only in the ASCII case of their letters get the same flag, and codes whose upper
      cases differ get different flags. */
  lemma FlagIgnoresCaseOnly(a: seq<CodeUnit>, b: seq<CodeUnit>)
    requires |a| == 2 && |b| == 2
    ensures CountryFlag(Some(a)) == CountryFlag(Some(b)) <==> UpperUnit(a[0]) == UpperUnit(b[0]) && UpperUnit(a[1]) == UpperUnit(b[1])
  {
    if CountryFlag(Some(a)) == CountryFlag(Some(b)) {
      FlagRoundTrip(a);
      FlagRoundTrip(b);
    }
  }

  /** Two ASCII capitals give two regional indicator symbols, U+1F1E6 to U+1F1FF. */
  lemma FlagOfCapitals(code: seq<CodeUnit>)
    requires |code| == 2 && forall i :: 0 <= i < 2 ==> 65 <= code[i] <= 90 || 97 <= code[i] <= 122
    ensures var flag := CountryFlag(Some(code));
      forall i :: 0 <= i < 2 ==> 0x1F1E6 <= flag[i] as int <= 0x1F1FF
  {
  }

  // ---------------------------------------------------------------------------
  // getRecommendedDNSByCountry

  /** The services recommended when the country has no entry. */
  const DefaultRecommendation: seq<string> := ["Google", "Cloudflare", "Quad9"]

  /** The `recommendations` table, in its order. */
  const Recommendations: seq<(string, seq<string>)> := [
    ("CN", ["AliDNS", "DNSPod", "360"]),
    ("TW", ["Quad 101 (TWNIC)", "Google", "Cloudflare"]),
    ("JP", ["IIJ", "Google", "Cloudflare"]),
    ("RU", ["Yandex DNS", "Google", "Cloudflare"]),
    ("US", ["Google", "Cloudflare", "Quad9"]),
    ("GB", ["Cloudflare", "Google", "Quad9"]),
    ("DE", ["Digitale Gesellschaft", "Cloudflare", "Google"]),
    ("FR", ["Cloudflare", "Google", "Quad9"]),
    ("CA", ["Canadian Shield", "Cloudflare", "Google"]),
    ("AU", ["Cloudflare", "Google", "Quad9"]),
    ("SG", ["Google", "Cloudflare", "Quad9"]),
    ("IN", ["Google", "Cloudflare", "Quad9"])
  ]

  /** The table's entry for `code`, looked up among its own keys. */
  function TableEntry(table: seq<(string, seq<string>)>, code: string): (r: Option<seq<string>>)
    ensures r.None? <==> forall i :: 0 <= i < |table| ==> table[i].0 != code
    ensures r.Some? ==> exists i :: 0 <= i < |table| && table[i] == (code, r.value)
  {
    if table == [] then None
    else if table[0].0 == code then Some(table[0].1)
    else
      var r := TableEntry(table[1..], code);
      assert r.Some? ==> exists i :: 0 <= i < |table| && table[i] == (code, r.value) by {
        if r.Some? {
          var i :| 0 <= i < |table[1..]| && table[1..][i] == (code, r.value);
          assert table[i + 1] == (code, r.value);
        }
      }
      r
  }

  /** What the lookup is evidently meant to do: the country's list when it has one, the default list
      otherwise. */
  function RecommendedDns(code: string): (r: seq<string>)
    ensures |r| == 3
    ensures TableEntry(Recommendations, code).Some? ==> r == TableEntry(Recommendations, code).value
    ensures TableEntry(Recommendations, code).None? ==> r == DefaultRecommendation
  {
    match TableEntry(Recommendations, code)
    case Some(list) => list
    case None => DefaultRecommendation
  }

  /** Two upper-case ASCII letters. */
  predicate CapitalPair(key: string) {
    |key| == 2 && 'A' <= key[0] <= 'Z' && 'A' <= key[1] <= 'Z'
  }

  lemma KeysAreCapitalPairs()
    ensures forall k :: 0 <= k < |Recommendations| ==> CapitalPair(Recommendations[k].0)
  {
  }

  /** Every table key is two upper-case ASCII letters, so a code with a lower-case letter gets the default
      list. */
  lemma LowerCaseGetsDefault(code: string)
    requires exists i :: 0 <= i < |code| && 'a' <= code[i] <= 'z'
    ensures RecommendedDns(code) == DefaultRecommendation
  {
    KeysAreCapitalPairs();
    var i :| 0 <= i < |code| && 'a' <= code[i] <= 'z';
    forall k | 0 <= k < |Recommendations|
      ensures Recommendations[k].0 != code
    {
      var key := Recommendations[k].0;
      assert i >= |key| || key[i] != code[i];
    }
  }

  // ---------------------------------------------------------------------------
  // The lookup as written

  /** The names an object literal inherits from `Object.prototype`; indexing it with one of them yields the
      inherited member. */
  const PrototypeMembers: set<string> := {
    "constructor", "__proto__", "hasOwnProperty", "isPrototypeOf", "propertyIsEnumerable",
    "toLocaleString", "toString", "valueOf",
    "__defineGetter__", "__defineSetter__", "__lookupGetter__", "__lookupSetter__"
  }

  /** What `recommendations[countryCode] || [...]` can yield: a list, or an inherited member. */
  datatype Lookup = List(names: seq<string>) | Inherited(member: string)

  /** The lookup as written: an own key gives its list, an inherited member name gives that (truthy)
      member, anything else the default list. */
  function RecommendedDnsAsWritten(code: string): (r: Lookup)
    ensures r.List? ==> r.names == RecommendedDns(code)
    ensures r.Inherited? <==> TableEntry(Recommendations, code).None? && code in PrototypeMembers
  {
    match TableEntry(Recommendations, code)
    case Some(list) => List(list)
    case None => if code in PrototypeMembers then Inherited(code) else List(DefaultRecommendation)
  }

  /** A key that names an inherited `Object.prototype` member. */
  const PrototypeKey: string := "toString"

  /** The as-written lookup does not always return a list: for `toString` it returns the inherited
      method. */
  lemma PrototypeKeyIsNotAList()
    ensures !RecommendedDnsAsWritten(PrototypeKey).List?
  {
    assert PrototypeKey in PrototypeMembers;
    assert TableEntry(Recommendations, PrototypeKey).None? by {
      forall k | 0 <= k < |Recommendations|
        ensures Recommendations[k].0 != PrototypeKey
      {
        assert |Recommendations[k].0| == 2;
      }
    }
  }
}

/** `mergeServers`: the configured catalogue followed by the servers parsed from the resolver list, one
    entry per URL. A base server keeps its place and its fields (the last base server listed under a URL
    wins); an extra server for a URL already present only widens that entry's address list; an extra
    server with a new URL is appended. Servers without a URL are skipped. */
module Merge {
  import opened Wrappers
  import opened Seqs
  import opened Types
  import OrderedMap

  // ---------------------------------------------------------------------------
  // The specification: what the merged list holds for each URL

  /** The servers of `ss` listed under `url`, in order; a server without a URL is listed under none. */
  function WithUrl(ss: seq<DnsServer>, url: string): (r: seq<DnsServer>)
    ensures forall k :: 0 <= k < |r| ==> r[k].url == url
    ensures url == [] ==> r == []
  {
    if ss == [] then []
    else
      var last := ss[|ss| - 1];
      WithUrl(ss[..|ss| - 1], url) + (if last.url != [] && last.url == url then [last] else [])
  }

  /** The non-empty URLs of `ss`, in order. */
  function Urls(ss: seq<DnsServer>): (r: seq<string>)
    ensures forall k :: 0 <= k < |r| ==> r[k] != []
  {
    if ss == [] then []
    else
      var last := ss[|ss| - 1];
      Urls(ss[..|ss| - 1]) + (if last.url != [] then [last.url] else [])
  }

  /** The addresses of `ss`, in order, `ips || []` for each. */
  function Pooled(ss: seq<DnsServer>): seq<string> {
    if ss == [] then [] else Pooled(ss[..|ss| - 1]) + ss[|ss| - 1].IpList()
  }

  /** The entry for a URL whose first server is `first` and whose later extras are `later`: `first`, with
      its address list replaced by the distinct addresses of all of them when there is a later server and
      any address at all. */
  function Merged(first: DnsServer, later: seq<DnsServer>): (r: DnsServer)
    ensures r.(ips := first.ips) == first
  {
    var all := first.IpList() + Pooled(later);
    if later != [] && all != [] then first.(ips := Some(Dedup(all))) else first
  }

  /** The merged entry for `url`: the last base server under it widened by every extra under it, or, for a
      URL only the extras list, the first of them widened by the rest; `None` for a URL nobody lists. */
  function Expected(base: seq<DnsServer>, extras: seq<DnsServer>, url: string): (r: Option<DnsServer>)
    ensures r.Some? ==> r.value.url == url
    ensures r.Some? <==> WithUrl(base, url) != [] || WithUrl(extras, url) != []
  {
    var fromBase := WithUrl(base, url);
    var fromExtras := WithUrl(extras, url);
    if fromBase != [] then Some(Merged(fromBase[|fromBase| - 1], fromExtras))
    else if fromExtras != [] then Some(Merged(fromExtras[0], fromExtras[1..]))
    else None
  }

  // ---------------------------------------------------------------------------
  // The two loops, as folds over the `byUrl` map

  function BaseStep(m: OrderedMap.OMap<DnsServer>, s: DnsServer): (r: OrderedMap.OMap<DnsServer>)
    requires m.Valid()
    ensures r.Valid()
  {
    if s.url == [] then m else m.Put(s.url, s)
  }

  function BaseFold(base: seq<DnsServer>): (r: OrderedMap.OMap<DnsServer>)
    ensures r.Valid()
  {
    if base == [] then OrderedMap.Empty() else BaseStep(BaseFold(base[..|base| - 1]), base[|base| - 1])
  }

  /** `existing.ips = Array.from(new Set([...(existing.ips || []), ...(server.ips || [])]))`, done only when
      that set is non-empty. */
  function Widen(existing: DnsServer, s: DnsServer): DnsServer {
    var union := Dedup(existing.IpList() + s.IpList());
    if union != [] then existing.(ips := Some(union)) else existing
  }

  function ExtraStep(m: OrderedMap.OMap<DnsServer>, s: DnsServer): (r: OrderedMap.OMap<DnsServer>)
    requires m.Valid()
    ensures r.Valid()
  {
    if s.url == [] then m
    else
      match m.Get(s.url)
      case Some(existing) => m.Put(s.url, Widen(existing, s))
      case None => m.Put(s.url, s)
  }

  function ExtraFold(m: OrderedMap.OMap<DnsServer>, extras: seq<DnsServer>): (r: OrderedMap.OMap<DnsServer>)
    requires m.Valid()
    ensures r.Valid()
  {
    if extras == [] then m else ExtraStep(ExtraFold(m, extras[..|extras| - 1]), extras[|extras| - 1])
  }

  /** What `mergeServers(base, extras)` returns. */
  function MergedServers(base: seq<DnsServer>, extras: seq<DnsServer>): seq<DnsServer> {
    ExtraFold(BaseFold(base), extras).Values()
  }

  /** `mergeServers`. */
  method MergeServers(base: seq<DnsServer>, extras: seq<DnsServer>) returns (merged: seq<DnsServer>)
    ensures merged == MergedServers(base, extras)
  {
    var byUrl := OrderedMap.Empty<DnsServer>();
    for i := 0 to |base|
      invariant byUrl == BaseFold(base[..i])
    {
      assert base[..i + 1][..i] == base[..i];
      var server := base[i];
      if server.url == [] {
        continue;
      }
      byUrl := byUrl.Put(server.url, server);
    }
    assert base[..|base|] == base;
    for j := 0 to |extras|
      invariant byUrl == ExtraFold(BaseFold(base), extras[..j])
    {
      assert extras[..j + 1][..j] == extras[..j];
      var server := extras[j];
      if server.url == [] {
        continue;
      }
      var existing := byUrl.Get(server.url);
      if existing.Some? {
        var ips := Dedup(existing.value.IpList() + server.IpList());
        var entry := existing.value;
        if |ips| != 0 {
          entry := entry.(ips := Some(ips));
        }
        byUrl := byUrl.Put(server.url, entry);
      } else {
        byUrl := byUrl.Put(server.url, server);
      }
    }
    assert extras[..|extras|] == extras;
    merged := byUrl.Values();
  }

  // ---------------------------------------------------------------------------
  // The folds meet the specification

  lemma WithUrlSnoc(ss: seq<DnsServer>, s: DnsServer, url: string)
    ensures WithUrl(ss + [s], url) == WithUrl(ss, url) + (if s.url != [] && s.url == url then [s] else [])
  {
    assert (ss + [s])[..|ss|] == ss;
  }

  lemma UrlsSnoc(ss: seq<DnsServer>, s: DnsServer)
    ensures Urls(ss + [s]) == Urls(ss) + (if s.url != [] then [s.url] else [])
  {
    assert (ss + [s])[..|ss|] == ss;
  }

  lemma PooledSnoc(ss: seq<DnsServer>, s: DnsServer)
    ensures Pooled(ss + [s]) == Pooled(ss) + s.IpList()
  {
    assert (ss + [s])[..|ss|] == ss;
  }

  /** Widening the entry by one more extra is the same as merging it in with the others. */
  lemma WidenMerged(first: DnsServer, later: seq<DnsServer>, s: DnsServer)
    ensures Widen(Merged(first, later), s) == Merged(first, later + [s])
  {
    PooledSnoc(later, s);
    var all := first.IpList() + Pooled(later);
    assert first.IpList() + Pooled(later + [s]) == all + s.IpList();
    if later != [] && all != [] {
      DedupOfDedupAppend(all, s.IpList());
      assert (all + s.IpList())[0] in Dedup(all + s.IpList());
    } else if later == [] {
      assert Pooled(later) == [];
      assert all == first.IpList();
    } else {
      assert first.IpList() == [] && Pooled(later) == [];
      assert all + s.IpList() == first.IpList() + s.IpList();
    }
  }

  lemma BaseStepGet(m: OrderedMap.OMap<DnsServer>, s: DnsServer, url: string)
    requires m.Valid()
    ensures BaseStep(m, s).Get(url) == if s.url != [] && s.url == url then Some(s) else m.Get(url)
  {
  }

  lemma BaseStepEntry(init: seq<DnsServer>, s: DnsServer, m: OrderedMap.OMap<DnsServer>, url: string)
    requires m.Valid()
    requires m.Get(url) == Expected(init, [], url)
    ensures BaseStep(m, s).Get(url) == Expected(init + [s], [], url)
  {
    BaseStepGet(m, s, url);
    WithUrlSnoc(init, s, url);
    var fromBase := WithUrl(init + [s], url);
    if s.url != [] && s.url == url {
      assert fromBase[|fromBase| - 1] == s;
      assert Merged(s, []) == s;
    } else {
      assert fromBase == WithUrl(init, url) + [];
    }
  }

  /** The base loop leaves, for each URL, the last base server listed under it, in order of first listing. */
  lemma {:induction false} BaseFoldContents(base: seq<DnsServer>)
    ensures BaseFold(base).keys == Dedup(Urls(base))
    ensures forall url :: BaseFold(base).Get(url) == Expected(base, [], url)
  {
    if base != [] {
      var init := base[..|base| - 1];
      var s := base[|base| - 1];
      assert base == init + [s];
      BaseFoldContents(init);
      UrlsSnoc(init, s);
      var m := BaseFold(init);
      if s.url != [] {
        DedupSnoc(Urls(init), s.url);
        assert s.url in m.vals <==> s.url in m.keys;
      } else {
        assert Urls(init) + [] == Urls(init);
      }
      forall url
        ensures BaseFold(base).Get(url) == Expected(base, [], url)
      {
        BaseStepEntry(init, s, m, url);
      }
    }
  }

  lemma ExtraStepGet(m: OrderedMap.OMap<DnsServer>, s: DnsServer, url: string)
    requires m.Valid()
    ensures ExtraStep(m, s).Get(url)
         == if s.url != [] && s.url == url then
              (match m.Get(url) case Some(existing) => Some(Widen(existing, s)) case None => Some(s))
            else m.Get(url)
  {
  }

  /** The first and the rest of a non-empty list with one more element at its end. */
  lemma SnocFirstRest(e: seq<DnsServer>, s: DnsServer)
    requires e != []
    ensures (e + [s])[0] == e[0] && (e + [s])[1..] == e[1..] + [s]
  {
  }

  /** An extra server for a URL the base lists widens the last base server's entry. */
  lemma ExtraIntoBase(base: seq<DnsServer>, init: seq<DnsServer>, s: DnsServer)
    requires s.url != [] && WithUrl(base, s.url) != []
    ensures Expected(base, init + [s], s.url) == Some(Widen(Expected(base, init, s.url).value, s))
  {
    var fromBase := WithUrl(base, s.url);
    WithUrlSnoc(init, s, s.url);
    WidenMerged(fromBase[|fromBase| - 1], WithUrl(init, s.url), s);
  }

  /** An extra server for a URL only earlier extras list widens the first of them. */
  lemma ExtraIntoExtras(base: seq<DnsServer>, init: seq<DnsServer>, s: DnsServer)
    requires s.url != [] && WithUrl(base, s.url) == [] && WithUrl(init, s.url) != []
    ensures Expected(base, init + [s], s.url) == Some(Widen(Expected(base, init, s.url).value, s))
  {
    var fromExtras := WithUrl(init, s.url);
    WithUrlSnoc(init, s, s.url);
    SnocFirstRest(fromExtras, s);
    WidenMerged(fromExtras[0], fromExtras[1..], s);
  }

  /** An extra server for a URL already in the map widens its entry. */
  lemma ExtraIntoExisting(base: seq<DnsServer>, init: seq<DnsServer>, s: DnsServer)
    requires Expected(base, init, s.url).Some?
    requires s.url != []
    ensures Expected(base, init + [s], s.url) == Some(Widen(Expected(base, init, s.url).value, s))
  {
    if WithUrl(base, s.url) != [] {
      ExtraIntoBase(base, init, s);
    } else {
      ExtraIntoExtras(base, init, s);
    }
  }

  /** An extra server with a new URL is its own entry. */
  lemma ExtraNew(base: seq<DnsServer>, init: seq<DnsServer>, s: DnsServer)
    requires Expected(base, init, s.url).None?
    requires s.url != []
    ensures Expected(base, init + [s], s.url) == Some(s)
  {
    WithUrlSnoc(init, s, s.url);
    assert WithUrl(init + [s], s.url) == [] + [s];
    assert Pooled([]) == [];
  }

  /** An extra server leaves the other URLs' entries alone. */
  lemma ExtraOther(base: seq<DnsServer>, init: seq<DnsServer>, s: DnsServer, url: string)
    requires !(s.url != [] && s.url == url)
    ensures Expected(base, init + [s], url) == Expected(base, init, url)
  {
    WithUrlSnoc(init, s, url);
    assert WithUrl(init + [s], url) == WithUrl(init, url) + [];
    assert WithUrl(init, url) + [] == WithUrl(init, url);
  }

  /** One extra server keeps every URL's entry as `Expected` says. */
  lemma ExtraStepEntry(base: seq<DnsServer>, init: seq<DnsServer>, s: DnsServer, m: OrderedMap.OMap<DnsServer>, url: string)
    requires m.Valid()
    requires m.Get(url) == Expected(base, init, url)
    ensures ExtraStep(m, s).Get(url) == Expected(base, init + [s], url)
  {
    ExtraStepGet(m, s, url);
    if s.url != [] && s.url == url {
      if m.Get(url).Some? {
        ExtraIntoExisting(base, init, s);
      } else {
        ExtraNew(base, init, s);
      }
    } else {
      ExtraOther(base, init, s, url);
    }
  }

  /** One extra server appends its URL to the keys when it is new. */
  lemma ExtraStepKeys(base: seq<DnsServer>, init: seq<DnsServer>, s: DnsServer, m: OrderedMap.OMap<DnsServer>)
    requires m.Valid()
    requires m.keys == Dedup(Urls(base) + Urls(init))
    ensures ExtraStep(m, s).keys == Dedup(Urls(base) + Urls(init + [s]))
  {
    UrlsSnoc(init, s);
    if s.url != [] {
      AppendAssoc(Urls(base), Urls(init), [s.url]);
      DedupSnoc(Urls(base) + Urls(init), s.url);
      assert s.url in m.vals <==> s.url in m.keys;
    } else {
      assert Urls(init) + [] == Urls(init);
    }
  }

  /** After both loops, the map holds one entry per URL, base URLs first in base order, then the URLs
      only the extras list in the order first seen; the entry for each is `Expected`. */
  lemma {:induction false} ExtraFoldContents(base: seq<DnsServer>, extras: seq<DnsServer>)
    ensures ExtraFold(BaseFold(base), extras).keys == Dedup(Urls(base) + Urls(extras))
    ensures forall url :: ExtraFold(BaseFold(base), extras).Get(url) == Expected(base, extras, url)
  {
    if extras == [] {
      BaseFoldContents(base);
      assert Urls(base) + Urls(extras) == Urls(base);
    } else {
      var init := extras[..|extras| - 1];
      var s := extras[|extras| - 1];
      assert extras == init + [s];
      ExtraFoldContents(base, init);
      var m := ExtraFold(BaseFold(base), init);
      ExtraStepKeys(base, init, s, m);
      forall url
        ensures ExtraFold(BaseFold(base), extras).Get(url) == Expected(base, extras, url)
      {
        ExtraStepEntry(base, init, s, m, url);
      }
    }
  }

  /** The merged list: one server per distinct URL, each `Expected` for its URL; the base catalogue's
      URLs come first, in the order the base lists them. */
  lemma MergedServersContents(base: seq<DnsServer>, extras: seq<DnsServer>)
    ensures var urls := Dedup(Urls(base) + Urls(extras));
      && |MergedServers(base, extras)| == |urls|
      && (forall i :: 0 <= i < |urls| ==> Some(MergedServers(base, extras)[i]) == Expected(base, extras, urls[i]))
      && |Dedup(Urls(base))| <= |urls|
      && (forall i :: 0 <= i < |Dedup(Urls(base))| ==> MergedServers(base, extras)[i].url == Dedup(Urls(base))[i])
  {
    var urls := Dedup(Urls(base) + Urls(extras));
    ExtraFoldContents(base, extras);
    DedupAppendExtends(Urls(base), Urls(extras));
    var m := ExtraFold(BaseFold(base), extras);
    forall i | 0 <= i < |urls|
      ensures Some(MergedServers(base, extras)[i]) == Expected(base, extras, urls[i])
    {
      assert m.keys[i] in m.vals;
      assert m.Get(m.keys[i]) == Some(m.vals[m.keys[i]]);
    }
    forall i | 0 <= i < |Dedup(Urls(base))|
      ensures MergedServers(base, extras)[i].url == Dedup(Urls(base))[i]
    {
      assert urls[..|Dedup(Urls(base))|][i] == urls[i];
      assert Expected(base, extras, urls[i]).Some?;
    }
  }
}

/** The geocoding half of `run_osaka_miner` in `src/scraper.py`: the
    unique addresses of a scrape, the address cache that is consulted
    before the geocoder, its periodic and final saves, and the merge of
    coordinates back onto the listings. */
module Geocode {
  import opened Wrappers
  import opened Text
  import opened Markup
  import opened Sequences
  import opened Scraper

  /** The "Osaka" marker exactly as the literal reads in
      src/scraper.py:165 (the UTF-8 bytes of 大阪 read as Mac Roman; its
      last character is U+2122 TRADE MARK SIGN). */
  const OsakaMarker := "Â§ßÈò™"

  const QueryPrefix := "Osaka, "

  /** The geocoder query for an address: the address itself when it
      holds the Osaka marker, otherwise the address after "Osaka, ". */
  function Query(addr: string): (q: string)
    ensures q == addr || q == QueryPrefix + addr
    ensures q == addr <==> Contains(addr, OsakaMarker)
  {
    if Contains(addr, OsakaMarker) then addr else QueryPrefix + addr
  }

  /** A normalised address never holds the marker (NFKC spells its last
      character "TM"), so its query always carries the prefix. */
  lemma NormalizedQueryPrefixed(addr: string)
    requires AllStable(addr)
    ensures Query(addr) == QueryPrefix + addr
  {
    StableExcludes(addr, OsakaMarker, 5);
  }

  /** Every address a scrape yields is queried with the prefix. */
  lemma ScrapedQueriesPrefixed(pages: seq<Page>, l: Listing)
    requires l in ScrapeAll(pages)
    ensures Query(l.address) == QueryPrefix + l.address
  {
    ScrapeAllSound(pages, l);
    NormalizedQueryPrefixed(l.address);
  }

  /** `Series.unique()`: each address once, in order of first appearance. */
  function Unique(xs: seq<string>): (r: seq<string>)
    ensures Distinct(r)
    ensures forall i :: 0 <= i < |r| ==> r[i] in xs
    ensures forall i :: 0 <= i < |xs| ==> xs[i] in r
  {
    if xs == [] then []
    else
      var u := Unique(xs[..|xs| - 1]);
      var x := xs[|xs| - 1];
      assert xs == xs[..|xs| - 1] + [x];
      if x in u then u else u + [x]
  }

  /** `r` lists its elements in order of first appearance in `xs`: an
      element listed before another already occurs in `xs` before any
      occurrence of the later one. */
  ghost predicate FirstAppearanceOrder(r: seq<string>, xs: seq<string>) {
    forall i, j, k :: 0 <= i < j < |r| && 0 <= k < |xs| && xs[k] == r[j] ==> r[i] in xs[..k]
  }

  /** The addresses come in order of first appearance. With `Distinct`
      and the same elements, this fixes the result. */
  lemma {:induction false} UniqueFirstAppearance(xs: seq<string>)
    ensures FirstAppearanceOrder(Unique(xs), xs)
  {
    if xs != [] {
      var n := |xs| - 1;
      var ys := xs[..n];
      var u, x := Unique(ys), xs[n];
      UniqueFirstAppearance(ys);
      var r := Unique(xs);
      forall i, j, k | 0 <= i < j < |r| && 0 <= k < |xs| && xs[k] == r[j]
        ensures r[i] in xs[..k]
      {
        if x !in u {
          assert r == u + [x];
        }
        assert r[i] == u[i] && u[i] in ys;
        if k == n {
          assert xs[..k] == ys;
        } else {
          assert ys[k] == r[j] && r[j] in u;
          assert j < |u| && r[j] == u[j];
          assert u[i] in ys[..k];
          assert ys[..k] == xs[..k];
        }
      }
    }
  }

  /** The result is a subsequence of the input. */
  lemma {:induction false} UniqueIsSubsequence(xs: seq<string>)
    ensures SubsequenceOf(Unique(xs), xs)
  {
    if xs != [] {
      var n := |xs| - 1;
      UniqueIsSubsequence(xs[..n]);
      var r := Unique(xs);
      if xs[n] !in Unique(xs[..n]) {
        assert r[..|r| - 1] == Unique(xs[..n]);
      } else {
        SubsequenceExtend(r, xs[..n], xs[n]);
        assert xs[..n] + [xs[n]] == xs;
      }
    }
  }

  /** The address column of a table. */
  function Addresses(rows: seq<Listing>): (r: seq<string>)
    ensures |r| == |rows|
    ensures forall i :: 0 <= i < |rows| ==> r[i] == rows[i].address
  {
    seq(|rows|, i requires 0 <= i < |rows| => rows[i].address)
  }

  /** What the geocoding loop has done so far: the cache, the count of
      entries it added, the addresses it sent to the geocoder and the
      cache contents written at each save, in order. */
  datatype CacheState = CacheState(
    entries: map<string, Coord>,
    newEntries: nat,
    lookups: seq<string>,
    saves: seq<map<string, Coord>>)

  /** One address: a cached address is skipped; otherwise its query goes
      to the geocoder, a found location is cached and counted, and every
      tenth new entry saves the cache. A failed or raising geocoder
      call (`None`) leaves the cache as it was. */
  function Step(s: CacheState, addr: string, geocode: string -> Option<Coord>): CacheState {
    if addr in s.entries then s
    else
      var looked := s.(lookups := s.lookups + [addr]);
      match geocode(Query(addr))
      case None => looked
      case Some(c) =>
        var e := s.entries[addr := c];
        var n := s.newEntries + 1;
        looked.(entries := e, newEntries := n, saves := if n % 10 == 0 then s.saves + [e] else s.saves)
  }

  /** The loop over a sequence of addresses, in order. */
  function Run(s: CacheState, addrs: seq<string>, geocode: string -> Option<Coord>): CacheState
    decreases |addrs|
  {
    if addrs == [] then s
    else Step(Run(s, addrs[..|addrs| - 1], geocode), addrs[|addrs| - 1], geocode)
  }

  /** The final save, made only when the run added an entry. */
  function Finish(s: CacheState): (r: CacheState)
    ensures r.entries == s.entries && r.newEntries == s.newEntries && r.lookups == s.lookups
    ensures s.newEntries > 0 ==> r.saves == s.saves + [s.entries]
    ensures s.newEntries == 0 ==> r.saves == s.saves
  {
    if s.newEntries > 0 then s.(saves := s.saves + [s.entries]) else s
  }

  lemma RunStep(s: CacheState, addrs: seq<string>, geocode: string -> Option<Coord>, i: nat)
    requires i < |addrs|
    ensures Run(s, addrs[..i + 1], geocode) == Step(Run(s, addrs[..i], geocode), addrs[i], geocode)
  {
    assert addrs[..i + 1][..i] == addrs[..i];
  }

  /** Entries are never changed or removed: what was cached before the
      run (or earlier in it) is still cached, with the same coordinates. */
  lemma {:induction false} RunKeepsEntries(s: CacheState, addrs: seq<string>, geocode: string -> Option<Coord>, a: string)
    requires a in s.entries
    ensures a in Run(s, addrs, geocode).entries
    ensures Run(s, addrs, geocode).entries[a] == s.entries[a]
    decreases |addrs|
  {
    if addrs != [] {
      RunKeepsEntries(s, addrs[..|addrs| - 1], geocode, a);
    }
  }

  /** The keys after a run are exactly the keys before it and the
      addresses whose query the geocoder resolved; a new key holds the
      geocoder's answer. */
  lemma {:induction false} RunKeys(s: CacheState, addrs: seq<string>, geocode: string -> Option<Coord>, a: string)
    ensures a in Run(s, addrs, geocode).entries <==>
              a in s.entries || (a in addrs && geocode(Query(a)).Some?)
    ensures a !in s.entries && a in Run(s, addrs, geocode).entries ==>
              Run(s, addrs, geocode).entries[a] == geocode(Query(a)).value
    decreases |addrs|
  {
    if addrs != [] {
      var n := |addrs| - 1;
      RunKeys(s, addrs[..n], geocode, a);
      assert addrs == addrs[..n] + [addrs[n]];
      var t := Run(s, addrs[..n], geocode);
      if a in t.entries {
        RunKeepsEntries(t, [addrs[n]], geocode, a);
        assert Run(t, [addrs[n]], geocode) == Step(t, addrs[n], geocode) by {
          assert [addrs[n]][..0] == [];
        }
      }
    }
  }

  /** Each new entry is counted: the counter grows by the number of keys
      the run added. */
  lemma {:induction false} RunCountsNewKeys(s: CacheState, addrs: seq<string>, geocode: string -> Option<Coord>)
    ensures Run(s, addrs, geocode).newEntries + |s.entries| == s.newEntries + |Run(s, addrs, geocode).entries|
    decreases |addrs|
  {
    if addrs != [] {
      RunCountsNewKeys(s, addrs[..|addrs| - 1], geocode);
    }
  }

  /** The periodic saves: one each time the counter reaches a multiple
      of 10. */
  lemma {:induction false} RunSaveCount(s: CacheState, addrs: seq<string>, geocode: string -> Option<Coord>)
    ensures var t := Run(s, addrs, geocode);
      s.newEntries <= t.newEntries && |t.saves| == |s.saves| + t.newEntries / 10 - s.newEntries / 10
    decreases |addrs|
  {
    if addrs != [] {
      RunSaveCount(s, addrs[..|addrs| - 1], geocode);
    }
  }

  /** The run only appends to the logs. */
  lemma {:induction false} RunExtendsLogs(s: CacheState, addrs: seq<string>, geocode: string -> Option<Coord>)
    ensures var t := Run(s, addrs, geocode);
      |s.lookups| <= |t.lookups| && t.lookups[..|s.lookups|] == s.lookups
      && |s.saves| <= |t.saves| && t.saves[..|s.saves|] == s.saves
    decreases |addrs|
  {
    if addrs != [] {
      RunExtendsLogs(s, addrs[..|addrs| - 1], geocode);
    }
  }

  /** The addresses not in a cache. */
  function Uncached(m: map<string, Coord>): string -> bool {
    a => a !in m
  }

  /** Over distinct addresses the geocoder is asked exactly about the
      addresses that were not cached before the run, each once, in
      order: never about a cached address, never twice. */
  lemma {:induction false} RunLookups(s: CacheState, addrs: seq<string>, geocode: string -> Option<Coord>)
    requires Distinct(addrs)
    ensures Run(s, addrs, geocode).lookups == s.lookups + Filter(Uncached(s.entries), addrs)
    decreases |addrs|
  {
    if addrs != [] {
      var n := |addrs| - 1;
      var a := addrs[n];
      var p := Uncached(s.entries);
      assert Distinct(addrs[..n]);
      RunLookups(s, addrs[..n], geocode);
      var t := Run(s, addrs[..n], geocode);
      RunKeys(s, addrs[..n], geocode, a);
      assert a !in addrs[..n];
      assert a in t.entries <==> a in s.entries;
      assert Filter(p, addrs) == Filter(p, addrs[..n]) + (if p(a) then [a] else []);
      if a in s.entries {
        assert Run(s, addrs, geocode).lookups == t.lookups;
      } else {
        assert Run(s, addrs, geocode).lookups == t.lookups + [a];
      }
    }
  }

  /** No cached address is looked up, and none is looked up twice. */
  lemma LookupsUncachedAndDistinct(s: CacheState, addrs: seq<string>, geocode: string -> Option<Coord>)
    requires Distinct(addrs)
    ensures var t := Run(s, addrs, geocode);
      && |s.lookups| <= |t.lookups|
      && (forall i :: |s.lookups| <= i < |t.lookups| ==> t.lookups[i] !in s.entries && t.lookups[i] in addrs)
      && Distinct(t.lookups[|s.lookups|..])
  {
    RunLookups(s, addrs, geocode);
    var t := Run(s, addrs, geocode);
    var f := Filter(Uncached(s.entries), addrs);
    assert t.lookups[|s.lookups|..] == f;
    forall i | |s.lookups| <= i < |t.lookups|
      ensures t.lookups[i] !in s.entries && t.lookups[i] in addrs
    {
      assert t.lookups[i] == f[i - |s.lookups|];
    }
    FilterDistinct(Uncached(s.entries), addrs);
  }

  /** Once every address is cached, a run changes nothing and asks the
      geocoder nothing. */
  lemma {:induction false} RunAllCached(s: CacheState, addrs: seq<string>, geocode: string -> Option<Coord>)
    requires forall i :: 0 <= i < |addrs| ==> addrs[i] in s.entries
    ensures Run(s, addrs, geocode) == s
    decreases |addrs|
  {
    if addrs != [] {
      RunAllCached(s, addrs[..|addrs| - 1], geocode);
    }
  }

  /** A second run over the same addresses asks the geocoder only about
      the addresses the first run could not resolve. */
  lemma SecondRunRetriesOnlyFailures(s: CacheState, addrs: seq<string>, geocode: string -> Option<Coord>)
    requires Distinct(addrs)
    ensures var t := Run(s, addrs, geocode);
      var u := Run(t, addrs, geocode);
      && |t.lookups| <= |u.lookups|
      && forall i :: |t.lookups| <= i < |u.lookups| ==> geocode(Query(u.lookups[i])).None?
  {
    var t := Run(s, addrs, geocode);
    var u := Run(t, addrs, geocode);
    LookupsUncachedAndDistinct(t, addrs, geocode);
    forall i | |t.lookups| <= i < |u.lookups|
      ensures geocode(Query(u.lookups[i])).None?
    {
      RunKeys(s, addrs, geocode, u.lookups[i]);
    }
  }

  /** What the cache file holds after a run: the last save, or what it
      held before when nothing was saved. */
  function Persisted(stored: map<string, Coord>, s: CacheState): map<string, Coord> {
    if s.saves == [] then stored else s.saves[|s.saves| - 1]
  }

  /** After the final save the cache file holds exactly the final cache:
      either the run added entries and saved them last, or it added none
      and the cache is what was loaded from the file. */
  lemma PersistedIsFinal(stored: map<string, Coord>, addrs: seq<string>, geocode: string -> Option<Coord>)
    ensures var t := Finish(Run(CacheState(stored, 0, [], []), addrs, geocode));
      Persisted(stored, t) == t.entries
  {
    var s := CacheState(stored, 0, [], []);
    var t := Run(s, addrs, geocode);
    RunCountsNewKeys(s, addrs, geocode);
    RunSaveCount(s, addrs, geocode);
    if t.newEntries == 0 {
      forall a | a in stored
        ensures a in t.entries && t.entries[a] == stored[a]
      {
        RunKeepsEntries(s, addrs, geocode, a);
      }
      SubsetOfSameSize(stored.Keys, t.entries.Keys);
    }
  }

  /** A subset as large as its superset is the whole superset. */
  lemma {:induction false} SubsetOfSameSize<T>(a: set<T>, b: set<T>)
    requires a <= b && |a| == |b|
    ensures a == b
  {
    if b - a != {} {
      var x :| x in b - a;
      SubsetSize(a, b - {x});
    }
  }

  lemma {:induction false} SubsetSize<T>(a: set<T>, b: set<T>)
    requires a <= b
    ensures |a| <= |b|
    decreases a
  {
    if a != {} {
      var x :| x in a;
      SubsetSize(a - {x}, b - {x});
    }
  }

  /** The progress reported before address `i` of `n` (0-based): the
      geocoding phase fills the bar from 40% towards 100%. */
  function GeocodeFraction(i: nat, n: nat): real
    requires i < n
  {
    0.4 + (i as real / n as real) * 0.6
  }

  /** The progress reports of the geocoding loop, in order. */
  function GeocodeProgress(n: nat): (r: seq<real>)
    ensures |r| == n
  {
    seq(n, i requires 0 <= i < n => GeocodeFraction(i, n))
  }

  /** Geocoding progress starts at 40%, never decreases and stays
      below 100%. */
  lemma GeocodeProgressShape(n: nat)
    ensures forall i :: 0 <= i < n ==> 0.4 <= GeocodeProgress(n)[i] < 1.0
    ensures forall i :: 0 < i < n ==> GeocodeProgress(n)[i - 1] <= GeocodeProgress(n)[i]
    ensures n > 0 ==> GeocodeProgress(n)[0] == 0.4
  {
    forall i | 0 <= i < n
      ensures 0.4 <= GeocodeProgress(n)[i] < 1.0
    {
      Ratio(i, i, n);
      RatioBelowOne(i, n);
    }
    forall i | 0 < i < n
      ensures GeocodeProgress(n)[i - 1] <= GeocodeProgress(n)[i]
    {
      Ratio(i - 1, i, n);
    }
  }

  lemma GeocodeProgressStep(n: nat, i: nat)
    requires i < n
    ensures GeocodeProgress(n)[..i + 1] == GeocodeProgress(n)[..i] + [GeocodeFraction(i, n)]
  {
  }

  /** The address cache of one mining run, loaded from the cache file;
      `lookups` and `saves` log the geocoder calls and the cache
      contents written by each save. */
  class GeocodeCache {
    var entries: map<string, Coord>
    var newEntries: nat
    var lookups: seq<string>
    var saves: seq<map<string, Coord>>

    function State(): CacheState
      reads this
    {
      CacheState(entries, newEntries, lookups, saves)
    }

    /** `load_cache()`: the stored entries (empty when there is no cache
        file); nothing added, looked up or saved yet. */
    constructor Load(stored: map<string, Coord>)
      ensures State() == CacheState(stored, 0, [], [])
    {
      entries := stored;
      newEntries := 0;
      lookups := [];
      saves := [];
    }

    /** The loop body for one address. */
    method Resolve(addr: string, geocode: string -> Option<Coord>)
      modifies this
      ensures State() == Step(old(State()), addr, geocode)
    {
      if addr in entries {
        return;
      }
      lookups := lookups + [addr];
      var loc := geocode(Query(addr));
      if loc.Some? {
        entries := entries[addr := loc.value];
        newEntries := newEntries + 1;
        if newEntries % 10 == 0 {
          saves := saves + [entries];
        }
      }
    }

    /** The loop over the unique addresses, reporting progress before
        each address whether or not it is cached. */
    method ResolveAll(addrs: seq<string>, geocode: string -> Option<Coord>) returns (progress: seq<real>)
      modifies this
      ensures State() == Run(old(State()), addrs, geocode)
      ensures progress == GeocodeProgress(|addrs|)
    {
      progress := [];
      var i := 0;
      while i < |addrs|
        invariant 0 <= i <= |addrs|
        invariant State() == Run(old(State()), addrs[..i], geocode)
        invariant progress == GeocodeProgress(|addrs|)[..i]
      {
        GeocodeProgressStep(|addrs|, i);
        progress := progress + [GeocodeFraction(i, |addrs|)];
        RunStep(old(State()), addrs, geocode, i);
        Resolve(addrs[i], geocode);
        i := i + 1;
      }
      assert addrs[..i] == addrs;
    }

    /** The final save, made when the run added any entry. */
    method SaveFinal()
      modifies this
      ensures State() == Finish(old(State()))
    {
      if newEntries > 0 {
        saves := saves + [entries];
      }
    }
  }

  /** The coordinates of an address: the cached ones, absent when the
      address is not in the cache. */
  function LocationOf(cache: map<string, Coord>, addr: string): (r: Option<Coord>)
    ensures r.Some? <==> addr in cache
    ensures r.Some? ==> r.value == cache[addr]
  {
    if addr in cache then Some(cache[addr]) else None
  }

  /** The coordinate merge: every row gets its address's cached
      coordinates, or none; nothing else about a row changes. */
  function Located(rows: seq<Listing>, cache: map<string, Coord>): (r: seq<Listing>)
    ensures |r| == |rows|
    ensures forall i :: 0 <= i < |rows| ==>
              r[i].location == LocationOf(cache, rows[i].address)
              && r[i].(location := None) == rows[i].(location := None)
  {
    seq(|rows|, i requires 0 <= i < |rows| => rows[i].(location := LocationOf(cache, rows[i].address)))
  }

  /** Rows that share an address share their coordinates. */
  lemma SharedAddressSharedLocation(rows: seq<Listing>, cache: map<string, Coord>, i: nat, j: nat)
    requires i < |rows| && j < |rows| && rows[i].address == rows[j].address
    ensures Located(rows, cache)[i].location == Located(rows, cache)[j].location
  {
  }

  /** After a run over a table's unique addresses, a row is located
      exactly when its address was cached or resolved, and then with
      those coordinates. */
  lemma LocatedAfterRun(rows: seq<Listing>, stored: map<string, Coord>, geocode: string -> Option<Coord>, i: nat)
    requires i < |rows|
    ensures var t := Run(CacheState(stored, 0, [], []), Unique(Addresses(rows)), geocode);
      var a := rows[i].address;
      && (Located(rows, t.entries)[i].location.Some? <==> a in stored || geocode(Query(a)).Some?)
      && (a in stored ==> Located(rows, t.entries)[i].location == Some(stored[a]))
      && (a !in stored && geocode(Query(a)).Some? ==> Located(rows, t.entries)[i].location == geocode(Query(a)))
  {
    var s := CacheState(stored, 0, [], []);
    var u := Unique(Addresses(rows));
    var a := rows[i].address;
    assert Addresses(rows)[i] == a;
    RunKeys(s, u, geocode, a);
    if a in stored {
      RunKeepsEntries(s, u, geocode, a);
    }
  }
}

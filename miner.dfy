/** `run_osaka_miner` in `src/scraper.py`: the scraping phase, the early
    return on an empty scrape, the raw write, the geocoding phase over
    the unique addresses, the final cache save, the coordinate merge,
    the final write and the progress bar. */
module Miner {
  import opened Wrappers
  import opened Markup
  import opened Sequences
  import opened Scraper
  import opened Geocode

  /** What a run returns and leaves behind: the returned table, the
      contents written to the listings file in order, the contents
      written to the cache file in order, the addresses sent to the
      geocoder in order, and the progress bar values in order. */
  datatype MinerResult = MinerResult(
    table: seq<Listing>,
    outputWrites: seq<seq<Listing>>,
    cacheSaves: seq<map<string, Coord>>,
    lookups: seq<string>,
    progress: seq<real>)

  /** The geocoding phase over a non-empty scrape, from the stored cache. */
  function Geocoded(raw: seq<Listing>, stored: map<string, Coord>, geocode: string -> Option<Coord>): CacheState {
    Finish(Run(CacheState(stored, 0, [], []), Unique(Addresses(raw)), geocode))
  }

  /** What a run does, given the outcome of every page fetch, the cache
      file's entries (empty when there is no file) and the geocoder. */
  function MinerSpec(pages: seq<Page>, stored: map<string, Coord>, geocode: string -> Option<Coord>): MinerResult {
    var raw := ScrapeAll(pages);
    if raw == [] then MinerResult([], [], [], [], ScrapeProgress(|pages|))
    else
      var t := Geocoded(raw, stored, geocode);
      var table := Located(raw, t.entries);
      MinerResult(
        table, [raw, table], t.saves, t.lookups,
        ScrapeProgress(|pages|) + GeocodeProgress(|Unique(Addresses(raw))|) + [1.0])
  }

  /** One mining run. */
  method RunOsakaMiner(pages: seq<Page>, stored: map<string, Coord>, geocode: string -> Option<Coord>)
    returns (result: MinerResult)
    ensures result == MinerSpec(pages, stored, geocode)
  {
    var data, progress := Scrape(pages);
    if data == [] {
      return MinerResult([], [], [], [], progress);
    }
    var writes := [data];
    var addrs := Unique(Addresses(data));
    var cache := new GeocodeCache.Load(stored);
    var geocodeProgress := cache.ResolveAll(addrs, geocode);
    cache.SaveFinal();
    var table := Located(data, cache.entries);
    writes := writes + [table];
    result := MinerResult(table, writes, cache.saves, cache.lookups, progress + geocodeProgress + [1.0]);
  }

  /** An empty scrape returns an empty table before the cache is loaded:
      no geocoder call, no file written, and the bar never reaches 100%
      (it stops at 40%). */
  lemma EmptyScrapeHasNoEffects(pages: seq<Page>, stored: map<string, Coord>, geocode: string -> Option<Coord>)
    requires ScrapeAll(pages) == []
    ensures var r := MinerSpec(pages, stored, geocode);
      r.table == [] && r.outputWrites == [] && r.cacheSaves == [] && r.lookups == []
      && forall i :: 0 <= i < |r.progress| ==> r.progress[i] <= 0.4
  {
    ScrapeProgressShape(|pages|);
  }

  /** Progress values within [0, 1] that never go back. */
  predicate Rising(p: seq<real>) {
    && (forall i :: 0 <= i < |p| ==> 0.0 <= p[i] <= 1.0)
    && (forall i :: 0 < i < |p| ==> p[i - 1] <= p[i])
  }

  /** The progress bar only moves forward, stays within [0, 1], and
      ends at 100% exactly when something was scraped. */
  lemma ProgressMonotone(pages: seq<Page>, stored: map<string, Coord>, geocode: string -> Option<Coord>)
    ensures var p := MinerSpec(pages, stored, geocode).progress;
      Rising(p) && (|p| > 0 && p[|p| - 1] == 1.0 <==> ScrapeAll(pages) != [])
  {
    var raw := ScrapeAll(pages);
    var n := |pages|;
    var a := ScrapeProgress(n);
    ScrapeProgressShape(n);
    if raw != [] {
      var m := |Unique(Addresses(raw))|;
      GeocodeProgressShape(m);
      assert Addresses(raw)[0] in Unique(Addresses(raw));
      ThreePhases(a, GeocodeProgress(m));
    } else if n > 0 {
      assert a[n - 1] == 0.4;
    }
  }

  /** Joining the scraping bar, the geocoding bar and the final 100%. */
  lemma ThreePhases(a: seq<real>, b: seq<real>)
    requires a != [] && b != []
    requires forall i :: 0 <= i < |a| ==> 0.0 <= a[i] <= 0.4
    requires forall i :: 0 < i < |a| ==> a[i - 1] <= a[i]
    requires forall i :: 0 <= i < |b| ==> 0.4 <= b[i] <= 1.0
    requires forall i :: 0 < i < |b| ==> b[i - 1] <= b[i]
    ensures Rising(a + b + [1.0])
  {
    var p := a + b + [1.0];
    var n, m := |a|, |b|;
    forall i | 0 < i < |p|
      ensures p[i - 1] <= p[i]
    {
      if i < n {
        assert p[i - 1] == a[i - 1] && p[i] == a[i];
      } else if i == n {
        assert p[i - 1] == a[n - 1] && p[i] == b[0];
      } else if i < n + m {
        assert p[i - 1] == b[i - 1 - n] && p[i] == b[i - n];
      } else {
        assert p[i - 1] == b[m - 1];
      }
    }
    forall i | 0 <= i < |p|
      ensures 0.0 <= p[i] <= 1.0
    {
      if i < n {
        assert p[i] == a[i];
      } else if i < n + m {
        assert p[i] == b[i - n];
      }
    }
  }

  /** After a run the cache file holds exactly the cache the table's
      coordinates were taken from. */
  lemma CacheFileMatchesTable(pages: seq<Page>, stored: map<string, Coord>, geocode: string -> Option<Coord>)
    requires ScrapeAll(pages) != []
    ensures var t := Geocoded(ScrapeAll(pages), stored, geocode);
      var r := MinerSpec(pages, stored, geocode);
      && r.cacheSaves == t.saves
      && Persisted(stored, t) == t.entries
      && r.table == Located(ScrapeAll(pages), t.entries)
  {
    PersistedIsFinal(stored, Unique(Addresses(ScrapeAll(pages))), geocode);
  }

  /** Within one run the geocoder is asked about each address at most
      once and never about an address the cache file already held. */
  lemma LookupsOncePerAddress(pages: seq<Page>, stored: map<string, Coord>, geocode: string -> Option<Coord>)
    ensures var l := MinerSpec(pages, stored, geocode).lookups;
      Distinct(l) && forall i :: 0 <= i < |l| ==> l[i] !in stored
  {
    var raw := ScrapeAll(pages);
    if raw != [] {
      var s := CacheState(stored, 0, [], []);
      var u := Unique(Addresses(raw));
      LookupsUncachedAndDistinct(s, u, geocode);
      assert Run(s, u, geocode).lookups[0..] == Run(s, u, geocode).lookups;
    }
  }

  /** The returned table has one row per scraped listing, in order, each
      with its address's coordinates: rows sharing an address share
      coordinates, and every coordinate comes from the stored cache or
      from the geocoder's answer for that address's query. */
  lemma TableRows(pages: seq<Page>, stored: map<string, Coord>, geocode: string -> Option<Coord>, i: nat)
    requires i < |ScrapeAll(pages)|
    ensures var raw := ScrapeAll(pages);
      var table := MinerSpec(pages, stored, geocode).table;
      var a := raw[i].address;
      && |table| == |raw|
      && table[i].(location := None) == raw[i]
      && (table[i].location.Some? <==> a in stored || geocode(QueryPrefix + a).Some?)
      && (a in stored ==> table[i].location == Some(stored[a]))
      && (a !in stored && geocode(QueryPrefix + a).Some? ==> table[i].location == geocode(QueryPrefix + a))
  {
    var raw := ScrapeAll(pages);
    assert raw[i] in raw;
    ScrapeAllSound(pages, raw[i]);
    NormalizedQueryPrefixed(raw[i].address);
    LocatedAfterRun(raw, stored, geocode, i);
  }
}

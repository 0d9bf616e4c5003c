# OsakaRent miner and dashboard rules, in Dafny

This project models the core of OsakaRent, a tool that mines rental
listings for Osaka from a listings site, geocodes their addresses through
a persistent cache, and shows them on a dashboard that prices each
listing against a regression model's prediction.

The model covers the following.

- **Text and money normalisation** (`text.dfy`, `numbers.dfy`, the start
  of `scraper.dfy`, and `debug_scraper.dfy`).
  - `normalize_japanese` is NFKC width/space folding followed by `strip()`.
  - `clean_money` parses the first `\d+\.?\d*` token with exact decimals.
  - The debug script has a twin of `clean_money`, built on `findall` and
    with the real 万 marker.
- **Listing extraction** (`markup.dfy`, `scraper.dfy`).
  - The parsed page is a datatype. Buildings and unit rows are extracted
    with the source's fault isolation.
  - The page, building and row loops are methods. They append to the
    result and are proved equal to a flattening specification.
- **The geocoding phase** (`geocode.dfy`).
  - The cache is a class whose methods run the address loop: skip cached
    addresses, query, insert on success, count, save every tenth new
    entry, and make the final save.
  - A functional specification of the same loop carries the lemmas.
  - The coordinate merge maps the cache back onto the rows.
- **The whole run** (`miner.dfy`). `RunOsakaMiner` performs the scraping
  phase, the early return on an empty scrape, the raw write, the
  geocoding phase, the final write and the progress reports. It is
  proved equal to `MinerSpec`, and lemmas state what a run leaves behind.
- **The dashboard rules** (`dashboard.dfy`).
  - The filter mask and the zero-key filter.
  - The "more than five complete rows" valuation gate, the residual and
    `get_status`.
  - The three sort orders, and pagination with its session page counter
    (a class).
  - The "Large" and status tags, and the map colour.

The geocoder, the page fetches and the regressor's predictions are
inputs. The cache file's contents before the run are an input map, and
every save is recorded in a log.

## Model

| member | source | states |
|---|---|---|
| Text.Nfkc | src/scraper.py:30 | NFKC (width and compatibility-space folding, ™ to "TM") leaves only characters it would not change again |
| Text.Strip | src/scraper.py:30 | `strip()` leaves no whitespace at either end |
| Text.StripSpec | src/scraper.py:30 | what `strip()` keeps is an infix of its input, and everything it removed is whitespace |
| Text.NormalizeJapanese | src/scraper.py:28-30 | absent or empty text gives ""; otherwise the result has no surrounding whitespace and only NFKC-stable characters (`src/debug_scraper.py:15-22` defines the same function) |
| Text.NormalizeSpec | src/scraper.py:28-30 | non-empty text normalises to its NFKC form with the surrounding whitespace, and only that, removed |
| Text.NormalizeIdempotent | src/scraper.py:28-30 | normalising a normalised text changes nothing |
| Text.NormalizeFullWidthDigits | src/scraper.py:28-30 | full-width digits normalise to the same digits in ASCII |
| Text.NormalizedHasNoTradeMark | src/scraper.py:30 | no normalised text contains ™ |
| Text.StableExcludes | src/scraper.py:165 | a normalised text never contains a marker holding a character NFKC folds |
| Numbers.SearchFrom | src/scraper.py:37 | `re.search(r'(\d+\.?\d*)')` finds nothing exactly when there is no digit; otherwise its match starts at the first digit and is greedy |
| Numbers.SearchIsLeftmostMatch | src/scraper.py:37 | any match satisfying the leftmost-greedy description is the one search returns |
| Numbers.FindAllFrom | src/debug_scraper.py:29 | every `findall` token is a match of the pattern at or after the start |
| Numbers.FindAllStartsWithSearch | src/debug_scraper.py:29-32 | `findall` is empty exactly when `search` finds nothing, and its first token is the `search` match |
| Numbers.FirstInteger | src/scraper.py:90-91 | `re.search(r'(\d+)')` as an int is the integer digits of the decimal search |
| Numbers.Value | src/scraper.py:117 | `float(token)` as an exact, non-negative decimal |
| Numbers.WholeValueIsFloor | src/scraper.py:41 | `int(float(token))` is the floor of the exact value |
| Numbers.ScaledFloorIsFloor | src/scraper.py:40 | `int(float(token) * 10000)` is the floor of the exact value times 10000 |
| Scraper.CleanMoneyWith | src/scraper.py:32-43 | never negative; 0 when the normalised text is "-", empty or has no number |
| Scraper.CleanMoneyIsFloorOfFirstToken | src/scraper.py:36-41 | the result is the floor of the first token's value, times 10000 when the marker occurs |
| Scraper.ParseAge | src/scraper.py:87-91 | age is 0 with the new-build marker or without digits, otherwise the first digit run |
| Scraper.ParseFloor | src/scraper.py:107-108 | floor is the first digit run, 1 without one |
| Scraper.ExtractBuilding | src/scraper.py:84-92 | a building is kept exactly when its title, address and age elements exist, with normalised fields |
| Scraper.ExtractRow | src/scraper.py:98-127 | a row gives a listing exactly when it has 9 cells and all required parts; the listing's rent is rent plus admin, its key money and deposit are `clean_money` of their spans, its layout is the normalised layout span, and its link, floor, size and image follow the source |
| Scraper.RowIsolated | src/scraper.py:102-127 | a row's success or failure does not affect what the rows around it produce |
| Scraper.ShortRowShrinksOutput | src/scraper.py:99-100 | a table with a row of fewer than 9 cells yields fewer listings than rows |
| Scraper.ExtractedSound | src/scraper.py:104-125 | an extracted listing has non-negative money and size, a link on the site's origin, and no coordinates |
| Scraper.RowsOrigin | src/scraper.py:98-127 | every listing of a table comes from one of its rows |
| Scraper.BuildingOrigin | src/scraper.py:82-127 | every listing of a building is the extraction of a numbered row of that building's unit table, under that building's normalised fields |
| Scraper.ScrapeOrigin | src/scraper.py:62-127 | every scraped listing comes from a numbered building of a numbered fetched page in the input |
| Scraper.ScrapeAllSound | src/scraper.py:62-127 | every scraped listing is sound and is the extraction of some row |
| Scraper.AppendRows | src/scraper.py:98-127 | the row loop appends exactly the listings of the usable rows, in order |
| Scraper.AppendBuildings | src/scraper.py:82-127 | the building loop appends the rows of each complete building with a table, in order |
| Scraper.ScrapeProgressShape | src/scraper.py:62-67 | scraping progress is positive, never decreases, stays within 40% and reaches 40% at the last page |
| Scraper.Scrape | src/scraper.py:59-130 | the page loop produces the whole scrape in page, building and row order, skipping blocked or failed pages, and reports `0.4 * page / pages` before each page |
| Geocode.Query | src/scraper.py:165 | the query is the address when it holds the Osaka marker, otherwise "Osaka, " before it |
| Geocode.NormalizedQueryPrefixed | src/scraper.py:165 | a normalised address never holds the marker literal, so its query is always prefixed |
| Geocode.ScrapedQueriesPrefixed | src/scraper.py:165 | every scraped address is queried with the prefix |
| Geocode.Unique | src/scraper.py:139 | `unique()` has no duplicates and the same elements |
| Geocode.UniqueFirstAppearance | src/scraper.py:139 | `unique()` lists addresses in first-appearance order: an earlier address occurs in the input before every occurrence of a later one |
| Geocode.UniqueIsSubsequence | src/scraper.py:139 | `unique()` is a subsequence of its input |
| Geocode.Finish | src/scraper.py:177-178 | the final save happens exactly when an entry was added |
| Geocode.RunKeepsEntries | src/scraper.py:160-168 | entries in the cache are never changed or removed |
| Geocode.RunKeys | src/scraper.py:160-168 | an address is cached after the loop exactly when it was before or was looked up successfully, with the geocoder's coordinates |
| Geocode.RunCountsNewKeys | src/scraper.py:167-169 | the new-entry counter counts exactly the keys added |
| Geocode.RunSaveCount | src/scraper.py:169-172 | the loop saves once per tenth new entry |
| Geocode.RunExtendsLogs | src/scraper.py:164-172 | lookups and saves are only ever appended |
| Geocode.RunLookups | src/scraper.py:153-166 | over distinct addresses, the geocoder is asked exactly about the uncached ones, in order |
| Geocode.LookupsUncachedAndDistinct | src/scraper.py:153-166 | no cached address is looked up, and none twice |
| Geocode.RunAllCached | src/scraper.py:160-161 | with every address cached, the loop changes nothing |
| Geocode.SecondRunRetriesOnlyFailures | src/scraper.py:160-174 | a second pass asks only about addresses whose lookup failed |
| Geocode.PersistedIsFinal | src/scraper.py:171-178 | after the final save the cache file holds the final cache |
| Geocode.GeocodeProgressShape | src/scraper.py:153-157 | geocoding progress starts at 40%, never decreases and stays below 100% |
| Geocode.GeocodeCache.Load | src/scraper.py:140 | the cache starts from the stored entries, with nothing added, looked up or saved |
| Geocode.GeocodeCache.Resolve | src/scraper.py:159-174 | one address is one step of the loop specification |
| Geocode.GeocodeCache.ResolveAll | src/scraper.py:153-174 | the address loop is the loop specification, with the progress reports |
| Geocode.GeocodeCache.SaveFinal | src/scraper.py:177-178 | the final save as specified |
| Geocode.LocationOf | src/scraper.py:181-182 | an address has coordinates exactly when it is cached, and they are the cached ones |
| Geocode.Located | src/scraper.py:181-182 | the merge sets each row's coordinates from its address and changes nothing else |
| Geocode.SharedAddressSharedLocation | src/scraper.py:181-182 | rows that share an address share coordinates |
| Geocode.LocatedAfterRun | src/scraper.py:160-182 | after the loop, a row is located exactly when its address was cached or resolved |
| Miner.RunOsakaMiner | src/scraper.py:55-187 | a run is its specification: the table, the file writes, the cache saves, the lookups and the progress reports |
| Miner.EmptyScrapeHasNoEffects | src/scraper.py:133-134 | an empty scrape writes nothing, asks the geocoder nothing, and stops the progress at 40% |
| Miner.ProgressMonotone | src/scraper.py:62-186 | progress stays within [0, 1], never goes back, and ends at 100% exactly when something was scraped |
| Miner.CacheFileMatchesTable | src/scraper.py:171-182 | the cache file ends up holding the cache the table's coordinates came from |
| Miner.LookupsOncePerAddress | src/scraper.py:139-166 | within a run each address is looked up at most once, and never one the cache file held |
| Miner.TableRows | src/scraper.py:133-182 | the table is the scrape row by row, with coordinates from the stored cache or from the prefixed query |
| DebugScraper.CleanMoneyWith | src/debug_scraper.py:24-35 | never negative |
| DebugScraper.AgreesWithScraper | src/debug_scraper.py:24-35 | with the same marker, the debug `clean_money` equals the miner's on every input |
| DebugScraper.SixPointFiveManReadings | src/debug_scraper.py:33-34 | on "6.5万円" the debug script reads 65000 and the miner reads 6 |
| DebugScraper.DebugReadsSixPointFiveMan | src/debug_scraper.py:29-34 | the debug script scales "6.5万円" to 65000 |
| DebugScraper.MinerReadsSixPointFiveMan | src/scraper.py:36-41 | the miner does not see its marker in "6.5万円" and truncates to 6 |
| Dashboard.FilterRecordsSpec | src/app.py:148-158 | the listed rows are exactly the file's rows that pass every filter, in file order |
| Dashboard.GateCountsListedRows | src/app.py:148-170 | listed rows are complete, so the valuation runs exactly when more than five rows are listed |
| Dashboard.GetStatus | src/app.py:176-179 | undervalued exactly below -5000, overpriced exactly above 5000, fair otherwise |
| Dashboard.Residual | src/app.py:174 | the residual plus the prediction is the rent; missing with the rent |
| Dashboard.Valuate | src/app.py:168-181 | the rows are the listed records in order; every row or none gets valuation columns (none when the gate is shut, so the listings pass through unchanged), and each status matches its residual |
| Dashboard.ValuedRow | src/app.py:173-181 | a valued row holds its prediction and residual, and its status compares the rent with the prediction |
| Dashboard.Insert | src/app.py:194-199 | inserting into a sorted table keeps it sorted and adds exactly that row |
| Dashboard.SortBy | src/app.py:194-199 | the sort is ordered by the key, missing keys last, and is a permutation |
| Dashboard.SortView | src/app.py:193-199 | "Best Deal" fails without a residual column; otherwise the view is sorted by the chosen column and direction and is a permutation |
| Dashboard.SortKeepsShape | src/app.py:194-199 | sorting keeps valuation columns consistent |
| Dashboard.PageCount | src/app.py:202 | the page count covers every row; there is an extra, empty page when the rows fill the last page exactly |
| Dashboard.ClampPage | src/app.py:202-204 | the clamped page is in range, and unchanged when it already was |
| Dashboard.PageContents | src/app.py:206-207 | a page shows at most 12 rows, those from position page * 12 on |
| Dashboard.PagesCoverView | src/app.py:202-207 | paging through all pages shows the whole view, in order |
| Dashboard.Pager.constructor | src/app.py:190 | a session starts on page 0 |
| Dashboard.Pager.Show | src/app.py:202-207 | clamps the stored page and returns its slice |
| Dashboard.Pager.Prev | src/app.py:252-254 | "Prev" decrements the stored page |
| Dashboard.Pager.Next | src/app.py:255-257 | "Next" increments the stored page |
| Dashboard.Navigation | src/app.py:252-257 | after clamping, "Prev" stops at the first page and "Next" at the last |
| Dashboard.Truncate | src/app.py:231 | Python's `int()` truncates toward zero |
| Dashboard.Tags | src/app.py:228-235 | "Large" exactly above 50 m²; "Overpriced" exactly for overpriced rows; a saving exactly for undervalued rows, of at least 5000 yen (`int()` truncates the negated residual) |
| Dashboard.MapColour | src/app.py:276-277 | green exactly for undervalued, red exactly for overpriced, gray otherwise and when there is no status column |

### Where the model follows the code rather than the documented behaviour

- **Marker literals.** The marker literals in `src/scraper.py` are
  mojibake: the UTF-8 bytes of the intended characters, read as Mac Roman.
  - Line 39 has `‰∏á` for 万.
  - Line 89 has `Êñ∞ÁØâ` for 新築.
  - Line 165 has `Â§ßÈò™` for 大阪.

  The model copies them as written, with these effects.
  - `clean_money("6.5万")` is 6, not 65000
    (`DebugScraper.SixPointFiveManReadings`). The debug script, whose
    marker is the real 万, reads 65000.
  - The new-build marker never matches.
  - Since NFKC folds ™, a normalised address never contains the Osaka
    marker, so every query gets the "Osaka, " prefix
    (`Geocode.NormalizedQueryPrefixed`).
- **Image reference.** It can be absent: an `img` with neither a
  non-empty `rel` nor a `src` gives `None`.
- **Floor and size.** The floor can be 0 and the size can be 0.0; the
  code does not check either.
- **Progress.** Scraping progress reaches 40% on the last page, not just
  below it.
- **Empty scrape.** A run whose scrape is empty returns before the final
  100% report.
- **Address order.** Addresses are geocoded in first-appearance order
  (`Geocode.UniqueFirstAppearance`).

## Left out

- HTTP fetching, user-agent choice, headers, encoding detection and
  timeouts: each page is an input, either fetched markup, blocked
  (non-200) or failed.
- `time.sleep`, the 10 s cooldown and the geocoder's rate limiter: these
  are timing only.
- BeautifulSoup: the parsed page is the `Markup` datatype.
  - `find` returning `None` is an absent field.
  - `rel` on an `img` tag is one string under BeautifulSoup's default
    settings (only `a`, `link` and `area` split it into a list), and is
    modelled as one string.
- NFKC: only full-width ASCII forms, compatibility spaces and ™ are
  folded; other characters are left as they are. Python's Unicode `\d`
  is ASCII digits here.
- Scraper.CleanMoneyWith: computes in exact decimals. CPython's float
  rounding (`int(0.29 * 10000)` is 2899) is not modelled.
- CSV reading and writing (`load_cache`, `save_cache`, `to_csv`,
  `read_csv`): the stored cache is an input map, and each write is an
  entry in a log of written contents.
- Nominatim and geopy: the geocoder is a function from query to optional
  coordinates. A raising call is `None`.
- XGBoost fitting and prediction, and the layout category codes: the
  predictions are an input, one per listed row.
- Streamlit widgets, CSS, folium, the KPI metrics, the "Showing a-b of n"
  caption, the download button and all string formatting: these are
  presentation.
- The map's `dropna(subset=['lat', 'lon'])` (`src/app.py:261`): this is
  row selection for drawing, and only the colour rule is modelled.
- Dashboard.SortBy: pandas' default sort is not stable. The model fixes
  one order of rows with equal keys and promises only sortedness and
  permutation.
- Dashboard.Valuate: the source adds the valuation columns to
  `df_filtered` in place; the model builds the new table as a value.
- `src/debug_scraper.py:37-93` and `src/inspect_html.py` are not part of
  this model: they fetch and print a page.

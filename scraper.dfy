/** The scraping half of `src/scraper.py`: money and number parsing,
    per-building and per-row extraction with fault isolation, and the
    page/building/row loop that collects listings. */
module Scraper {
  import opened Wrappers
  import opened Text
  import opened Numbers
  import opened Markup
  import opened Sequences

  /** The "ten-thousand" marker exactly as the literal reads in
      src/scraper.py:39 (the UTF-8 bytes of 万 read as Mac Roman). */
  const TenThousandMarker := "‰∏á"

  /** The "newly built" marker exactly as the literal reads in
      src/scraper.py:89 (the UTF-8 bytes of 新築 read as Mac Roman). */
  const NewBuildMarker := "Êñ∞ÁØâ"

  /** The site origin prefixed to every listing link. */
  const SiteOrigin := "https://suumo.jp"

  /** Rows with fewer cells than this are skipped. */
  const MinCells := 9

  const RentClass := "cassetteitem_price--rent"
  const AdminClass := "cassetteitem_price--administration"
  const GratuityClass := "cassetteitem_price--gratuity"
  const DepositClass := "cassetteitem_price--deposit"
  const SizeClass := "cassetteitem_menseki"
  const LayoutClass := "cassetteitem_madori"

  /** `clean_money` with the marker as a parameter: normalise; "-" and ""
      are 0; otherwise the first `\d+\.?\d*` token, times 10000 when the
      marker occurs in the normalised text, truncated; 0 without a token. */
  function CleanMoneyWith(marker: string, text: string): (r: int)
    ensures r >= 0
    ensures var t := NormalizeJapanese(Some(text));
      t == "-" || t == "" || Search(t).None? ==> r == 0
  {
    var t := NormalizeJapanese(Some(text));
    if t == "-" || t == "" then 0
    else
      match Search(t)
      case None => 0
      case Some(m) => if Contains(t, marker) then ScaledFloor(m, 10000) else WholeValue(m)
  }

  /** `clean_money` as src/scraper.py has it. */
  function CleanMoney(text: string): int {
    CleanMoneyWith(TenThousandMarker, text)
  }

  /** What `clean_money` computes when the normalised text has a number:
      the floor of the first token's exact value, scaled by 10000 when
      the marker occurs in the text. */
  lemma CleanMoneyIsFloorOfFirstToken(marker: string, text: string)
    requires Search(NormalizeJapanese(Some(text))).Some?
    ensures var t := NormalizeJapanese(Some(text));
      var v := Value(Search(t).value);
      var r := CleanMoneyWith(marker, text) as real;
      if Contains(t, marker) then r <= v * 10000.0 < r + 1.0 else r <= v < r + 1.0
  {
    var t := NormalizeJapanese(Some(text));
    var m := Search(t).value;
    assert t != "-" && t != "" by {
      assert IsDigit(t[m.start]);
    }
    if Contains(t, marker) {
      ScaledFloorIsFloor(m, 10000);
    } else {
      WholeValueIsFloor(m);
    }
  }

  /** Building age from its normalised age text: 0 when the new-build
      marker occurs, otherwise the first run of digits, 0 without one. */
  function ParseAge(ageText: string): (age: nat)
    ensures Contains(ageText, NewBuildMarker) || Search(ageText).None? ==> age == 0
    ensures !Contains(ageText, NewBuildMarker) && Search(ageText).Some? ==>
              age == DigitsValue(Search(ageText).value.whole)
  {
    if Contains(ageText, NewBuildMarker) then 0
    else
      match FirstInteger(ageText)
      case Some(n) => n
      case None => 0
  }

  /** Floor number from its normalised cell text: the first run of
      digits, 1 without one. */
  function ParseFloor(floorText: string): (floor: nat)
    ensures Search(floorText).None? ==> floor == 1
    ensures Search(floorText).Some? ==> floor == DigitsValue(Search(floorText).value.whole)
  {
    match FirstInteger(floorText)
    case Some(n) => n
    case None => 1
  }

  /** The building-level fields shared by the building's listings. */
  datatype BuildingInfo = BuildingInfo(name: string, address: string, age: nat)

  /** A geocoded position. */
  datatype Coord = Coord(lat: real, lon: real)

  /** One rentable unit, as the miner emits it; `location` is filled in
      by the geocoding phase. */
  datatype Listing = Listing(
    name: string,
    address: string,
    age: nat,
    floor: nat,
    layout: string,
    sizeM2: real,
    totalRent: int,
    keyMoney: int,
    deposit: int,
    imageUrl: Option<string>,
    link: string,
    location: Option<Coord>)

  /** Building-level extraction: a building missing its title, address or
      age element is skipped (the source's `continue`). */
  function ExtractBuilding(b: Building): (r: Option<BuildingInfo>)
    ensures r.Some? <==> b.title.Some? && b.address.Some? && b.ageText.Some?
    ensures r.Some? ==>
      && r.value.name == NormalizeJapanese(b.title)
      && r.value.address == NormalizeJapanese(b.address)
      && r.value.age == ParseAge(NormalizeJapanese(b.ageText))
  {
    if b.title.None? || b.address.None? || b.ageText.None? then None
    else
      Some(BuildingInfo(
        NormalizeJapanese(b.title),
        NormalizeJapanese(b.address),
        ParseAge(NormalizeJapanese(b.ageText))))
  }

  /** The image reference of a row: the `rel` attribute when present and
      non-empty, else the `src` attribute (absent when the image has
      none), and "" when the cell has no image. */
  function ImageUrl(img: Option<Img>): Option<string> {
    if img.Some? && img.value.rel.Some? && img.value.rel.value != "" then img.value.rel
    else if img.Some? then img.value.src
    else Some("")
  }

  /** The sub-extractions of a row that can fail: a row is emitted
      exactly when it has at least 9 cells, its six price/size/layout
      spans exist, the size text holds a number and the link cell has an
      anchor with an `href`. */
  ghost predicate RowUsable(row: Row) {
    && |row| >= MinCells
    && SpanText(row[3], RentClass).Some?
    && SpanText(row[3], AdminClass).Some?
    && SpanText(row[4], GratuityClass).Some?
    && SpanText(row[4], DepositClass).Some?
    && SpanText(row[5], SizeClass).Some?
    && Search(NormalizeJapanese(SpanText(row[5], SizeClass))).Some?
    && SpanText(row[5], LayoutClass).Some?
    && row[8].anchor.Some? && row[8].anchor.value.href.Some?
  }

  /** Per-row extraction. Any failing sub-extraction drops the row (the
      source's broad `except: continue`). */
  function ExtractRow(info: BuildingInfo, row: Row): (r: Option<Listing>)
    ensures r.Some? <==> RowUsable(row)
    ensures r.Some? ==>
      var l := r.value;
      && |row| >= MinCells
      && l.name == info.name && l.address == info.address && l.age == info.age
      && l.totalRent == CleanMoney(SpanText(row[3], RentClass).value)
                        + CleanMoney(SpanText(row[3], AdminClass).value)
      && l.keyMoney == CleanMoney(SpanText(row[4], GratuityClass).value)
      && l.deposit == CleanMoney(SpanText(row[4], DepositClass).value)
      && l.totalRent >= 0 && l.keyMoney >= 0 && l.deposit >= 0
      && l.layout == NormalizeJapanese(SpanText(row[5], LayoutClass))
      && l.link == SiteOrigin + row[8].anchor.value.href.value
      && l.floor == ParseFloor(NormalizeJapanese(Some(row[2].text)))
      && l.sizeM2 == Value(Search(NormalizeJapanese(SpanText(row[5], SizeClass))).value)
      && l.imageUrl == ImageUrl(row[1].img)
      && l.location.None?
  {
    if |row| < MinCells then None
    else
      var rent := SpanText(row[3], RentClass);
      var admin := SpanText(row[3], AdminClass);
      var gratuity := SpanText(row[4], GratuityClass);
      var deposit := SpanText(row[4], DepositClass);
      var sizeRaw := SpanText(row[5], SizeClass);
      var layout := SpanText(row[5], LayoutClass);
      var anchor := row[8].anchor;
      if rent.None? || admin.None? || gratuity.None? || deposit.None? || sizeRaw.None? then None
      else
        match Search(NormalizeJapanese(sizeRaw))
        case None => None
        case Some(size) =>
          if layout.None? || anchor.None? || anchor.value.href.None? then None
          else
            Some(Listing(
              info.name, info.address, info.age,
              ParseFloor(NormalizeJapanese(Some(row[2].text))),
              NormalizeJapanese(layout),
              Value(size),
              CleanMoney(rent.value) + CleanMoney(admin.value),
              CleanMoney(gratuity.value), CleanMoney(deposit.value),
              ImageUrl(row[1].img),
              SiteOrigin + anchor.value.href.value,
              None))
  }

  /** The listing of a row, as a sequence of zero or one elements. */
  function RowOutput(info: BuildingInfo, row: Row): (r: seq<Listing>)
    ensures |r| <= 1
  {
    match ExtractRow(info, row)
    case None => []
    case Some(l) => [l]
  }

  /** Row extraction for the rows of one building. */
  function RowExtractor(info: BuildingInfo): Row -> seq<Listing> {
    row => RowOutput(info, row)
  }

  /** The listings of a building's rows, in row order. */
  function ScrapeRows(info: BuildingInfo, rows: seq<Row>): seq<Listing> {
    FlatMap(RowExtractor(info), rows)
  }

  /** The listings of one building: none when its title, address or age
      element is missing or it has no unit table. */
  function ScrapeBuilding(b: Building): seq<Listing> {
    match ExtractBuilding(b)
    case None => []
    case Some(info) => if b.table.None? then [] else ScrapeRows(info, b.table.value)
  }

  /** The listings of a page; a blocked or failed page contributes nothing. */
  function ScrapePage(p: Page): seq<Listing> {
    match p
    case Fetched(bs) => FlatMap(ScrapeBuilding, bs)
    case _ => []
  }

  /** The listings of a whole scrape, in page, building and row order. */
  function ScrapeAll(pages: seq<Page>): seq<Listing> {
    FlatMap(ScrapePage, pages)
  }

  /** Fault isolation: whether row `i` is dropped or emitted, the rows
      before and after it produce what they produce on their own. */
  lemma RowIsolated(info: BuildingInfo, rows: seq<Row>, i: nat)
    requires i < |rows|
    ensures ScrapeRows(info, rows) ==
              ScrapeRows(info, rows[..i]) + RowOutput(info, rows[i]) + ScrapeRows(info, rows[i + 1..])
  {
    FlatMapIsolated(RowExtractor(info), rows, i);
  }

  /** A row with fewer than 9 cells is never emitted, so a table with
      such a row yields fewer listings than it has rows. */
  lemma ShortRowShrinksOutput(info: BuildingInfo, rows: seq<Row>, i: nat)
    requires i < |rows| && |rows[i]| < MinCells
    ensures |ScrapeRows(info, rows)| < |rows|
  {
    RowIsolated(info, rows, i);
    ShortRowSkipped(info, rows[i]);
    RowsAtMostOne(info, rows[..i]);
    RowsAtMostOne(info, rows[i + 1..]);
  }

  lemma ShortRowSkipped(info: BuildingInfo, row: Row)
    requires |row| < MinCells
    ensures RowOutput(info, row) == []
  {
  }

  /** A table yields at most one listing per row. */
  lemma RowsAtMostOne(info: BuildingInfo, rows: seq<Row>)
    ensures |ScrapeRows(info, rows)| <= |rows|
  {
    FlatMapLength(RowExtractor(info), rows);
  }

  /** What every emitted listing satisfies. */
  ghost predicate Sound(l: Listing) {
    && l.totalRent >= 0 && l.keyMoney >= 0 && l.deposit >= 0 && l.sizeM2 >= 0.0
    && |l.link| >= |SiteOrigin| && l.link[..|SiteOrigin|] == SiteOrigin
    && AllStable(l.address)
    && l.location.None?
  }

  /** An extracted listing is sound when its building's address is
      normalised. */
  lemma ExtractedSound(info: BuildingInfo, row: Row, l: Listing)
    requires ExtractRow(info, row) == Some(l)
    requires AllStable(info.address)
    ensures Sound(l)
  {
  }

  /** Every listing of a table comes from one of its rows. */
  lemma RowsOrigin(info: BuildingInfo, rows: seq<Row>, l: Listing) returns (k: nat)
    requires l in ScrapeRows(info, rows)
    ensures k < |rows| && ExtractRow(info, rows[k]) == Some(l)
  {
    FlatMapOrigin(RowExtractor(info), rows, l);
    k :| 0 <= k < |rows| && l in RowOutput(info, rows[k]);
  }

  /** Every listing of a building comes from row `k` of its unit table,
      under the building's normalised fields. */
  lemma BuildingOrigin(b: Building, l: Listing) returns (k: nat)
    requires l in ScrapeBuilding(b)
    ensures ExtractBuilding(b).Some? && b.table.Some? && k < |b.table.value|
    ensures AllStable(ExtractBuilding(b).value.address)
    ensures ExtractRow(ExtractBuilding(b).value, b.table.value[k]) == Some(l)
  {
    k := RowsOrigin(ExtractBuilding(b).value, b.table.value, l);
  }

  /** Every listing of a scrape comes from building `j` of page `i`, a
      page that was fetched. */
  lemma ScrapeOrigin(pages: seq<Page>, l: Listing) returns (i: nat, j: nat)
    requires l in ScrapeAll(pages)
    ensures i < |pages| && pages[i].Fetched? && j < |pages[i].buildings|
    ensures l in ScrapeBuilding(pages[i].buildings[j])
  {
    FlatMapOrigin(ScrapePage, pages, l);
    i :| 0 <= i < |pages| && l in ScrapePage(pages[i]);
    FlatMapOrigin(ScrapeBuilding, pages[i].buildings, l);
    j :| 0 <= j < |pages[i].buildings| && l in ScrapeBuilding(pages[i].buildings[j]);
  }

  /** Every listing of a scrape is what row extraction made of some row
      (so that row had at least 9 cells and every required part), and
      it has non-negative money and size, a link on the site's origin, a
      normalised address and no coordinates yet. */
  lemma ScrapeAllSound(pages: seq<Page>, l: Listing)
    requires l in ScrapeAll(pages)
    ensures Sound(l)
    ensures exists info: BuildingInfo, row: Row :: ExtractRow(info, row) == Some(l)
  {
    var i, j := ScrapeOrigin(pages, l);
    var b := pages[i].buildings[j];
    var k := BuildingOrigin(b, l);
    ExtractedSound(ExtractBuilding(b).value, b.table.value[k], l);
  }

  /** The row loop of one building: each usable row is appended to
      `data`, in row order; a row whose extraction fails is skipped. */
  method AppendRows(data: seq<Listing>, info: BuildingInfo, rows: seq<Row>) returns (out: seq<Listing>)
    ensures out == data + ScrapeRows(info, rows)
  {
    out := AppendEach(data, RowExtractor(info), rows);
  }

  /** The building loop of one page: for each building with its title,
      address and age and a unit table, its rows are appended. */
  method AppendBuildings(data: seq<Listing>, buildings: seq<Building>) returns (out: seq<Listing>)
    ensures out == data + FlatMap(ScrapeBuilding, buildings)
  {
    out := data;
    var b := 0;
    while b < |buildings|
      invariant 0 <= b <= |buildings|
      invariant out == data + FlatMap(ScrapeBuilding, buildings[..b])
    {
      CollectStep(data, ScrapeBuilding, buildings, b);
      var building := buildings[b];
      var info := ExtractBuilding(building);
      if info.Some? && building.table.Some? {
        out := AppendRows(out, info.value, building.table.value);
      }
      b := b + 1;
    }
    assert buildings[..b] == buildings;
  }

  /** The progress reported when page `p` of `n` starts (1-based): 40%
      of the bar is the scraping phase. */
  function ScrapeFraction(p: nat, n: nat): real
    requires 0 < p <= n
  {
    (p as real / n as real) * 0.4
  }

  /** The progress reports of a scrape of `n` pages, in order. */
  function ScrapeProgress(n: nat): (r: seq<real>)
    ensures |r| == n
  {
    seq(n, i requires 0 <= i < n => ScrapeFraction(i + 1, n))
  }

  /** Scraping progress is positive, never decreases, stays within 40%
      and reaches 40% at the last page. */
  lemma ScrapeProgressShape(n: nat)
    ensures forall i :: 0 <= i < n ==> 0.0 < ScrapeProgress(n)[i] <= 0.4
    ensures forall i :: 0 < i < n ==> ScrapeProgress(n)[i - 1] <= ScrapeProgress(n)[i]
    ensures n > 0 ==> ScrapeProgress(n)[n - 1] == 0.4
  {
    forall i | 0 <= i < n
      ensures 0.0 < ScrapeProgress(n)[i] <= 0.4
    {
      Ratio(i + 1, i + 1, n);
      assert (i + 1) as real / n as real > 0.0;
    }
    forall i | 0 < i < n
      ensures ScrapeProgress(n)[i - 1] <= ScrapeProgress(n)[i]
    {
      Ratio(i, i + 1, n);
    }
  }

  lemma ScrapeProgressStep(n: nat, p: nat)
    requires p < n
    ensures ScrapeProgress(n)[..p + 1] == ScrapeProgress(n)[..p] + [ScrapeFraction(p + 1, n)]
  {
  }

  /** The scraping phase: pages in order, buildings in order, rows in
      order, each usable row appended; blocked and failed pages skipped.
      Reports 40% times pages-visited/pages before each page. */
  method Scrape(pages: seq<Page>) returns (data: seq<Listing>, progress: seq<real>)
    ensures data == ScrapeAll(pages)
    ensures progress == ScrapeProgress(|pages|)
  {
    data, progress := [], [];
    var p := 0;
    while p < |pages|
      invariant 0 <= p <= |pages|
      invariant data == ScrapeAll(pages[..p])
      invariant progress == ScrapeProgress(|pages|)[..p]
    {
      ScrapeProgressStep(|pages|, p);
      progress := progress + [ScrapeFraction(p + 1, |pages|)];
      FlatMapStep(ScrapePage, pages, p);
      if pages[p].Fetched? {
        data := AppendBuildings(data, pages[p].buildings);
      }
      p := p + 1;
    }
    assert pages[..p] == pages;
  }
}

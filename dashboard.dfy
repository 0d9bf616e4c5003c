/** The decision rules of the dashboard, `src/app.py`: the filter the
    controls select, the valuation gate and the three-way status, the
    sort order of the list view, its pagination, and the tags and map
    colours a listing is shown with. The regressor's predictions are an
    input. A missing value in the listings file (pandas NaN) is `None`;
    every comparison with it is false. */
module Dashboard {
  import opened Wrappers
  import opened Sequences

  /** One row of the listings file as the dashboard reads it. */
  datatype Record = Record(
    name: string,
    address: string,
    totalRent: Option<real>,
    keyMoney: Option<real>,
    deposit: Option<real>,
    sizeM2: Option<real>,
    age: Option<real>,
    floor: Option<real>,
    layout: Option<string>,
    imageUrl: Option<string>,
    link: string,
    lat: Option<real>,
    lon: Option<real>)

  /** The controls: the rent and size sliders (inclusive ranges), the
      maximum age, the minimum floor, the chosen layouts (a missing
      layout can be chosen as well) and the "No Key Money / Deposit"
      box. */
  datatype Criteria = Criteria(
    rentMin: int, rentMax: int,
    sizeMin: int, sizeMax: int,
    maxAge: int, minFloor: int,
    layouts: set<Option<string>>,
    zeroKey: bool)

  /** `Series.between(lo, hi)` for one value. */
  predicate Between(x: Option<real>, lo: int, hi: int) {
    x.Some? && lo as real <= x.value <= hi as real
  }

  /** The filter mask for one row. */
  predicate Matches(c: Criteria, r: Record) {
    && Between(r.totalRent, c.rentMin, c.rentMax)
    && Between(r.sizeM2, c.sizeMin, c.sizeMax)
    && r.age.Some? && r.age.value <= c.maxAge as real
    && r.floor.Some? && r.floor.value >= c.minFloor as real
    && r.layout in c.layouts
  }

  /** Neither key money nor a deposit. */
  predicate NoKeyMoney(r: Record) {
    r.keyMoney == Some(0.0) && r.deposit == Some(0.0)
  }

  /** Everything a row must satisfy to be listed. */
  predicate Selected(c: Criteria, r: Record) {
    Matches(c, r) && (c.zeroKey ==> NoKeyMoney(r))
  }

  /** The mask, then the zero-key filter when the box is ticked. */
  function FilterRecords(rows: seq<Record>, c: Criteria): seq<Record> {
    var masked := Filter((r: Record) => Matches(c, r), rows);
    if c.zeroKey then Filter((r: Record) => NoKeyMoney(r), masked) else masked
  }

  /** The two filtering steps are one filter by all the conditions: the
      listed rows are exactly the selected rows of the file, in the
      file's order. */
  lemma FilterRecordsSpec(rows: seq<Record>, c: Criteria)
    ensures FilterRecords(rows, c) == Filter((r: Record) => Selected(c, r), rows)
    ensures SubsequenceOf(FilterRecords(rows, c), rows)
    ensures forall r :: r in FilterRecords(rows, c) <==> r in rows && Selected(c, r)
  {
    var sel := (r: Record) => Selected(c, r);
    if c.zeroKey {
      FilterFuse((r: Record) => Matches(c, r), (r: Record) => NoKeyMoney(r), sel, rows);
    } else {
      assert forall r :: sel(r) == Matches(c, r);
      FilterSame((r: Record) => Matches(c, r), sel, rows);
    }
    FilterIsSubsequence(sel, rows);
  }

  /** Filters by equivalent conditions agree. */
  lemma {:induction false} FilterSame(p: Record -> bool, q: Record -> bool, xs: seq<Record>)
    requires forall x :: p(x) == q(x)
    ensures Filter(p, xs) == Filter(q, xs)
  {
    if xs != [] {
      FilterSame(p, q, xs[..|xs| - 1]);
    }
  }

  /** No regressor feature and not the target is missing (the layout
      code is never missing: pandas codes a missing layout as -1). */
  predicate Complete(r: Record) {
    r.totalRent.Some? && r.sizeM2.Some? && r.age.Some? && r.floor.Some?
  }

  /** The regressor runs only on more than five complete rows. */
  predicate ValuationGate(rows: seq<Record>) {
    |Filter(Complete, rows)| > 5
  }

  /** Every listed row is complete, since a missing value fails every
      comparison of the mask: the gate opens exactly when more than five
      rows are listed. */
  lemma GateCountsListedRows(rows: seq<Record>, c: Criteria)
    ensures forall r :: r in FilterRecords(rows, c) ==> Complete(r)
    ensures ValuationGate(FilterRecords(rows, c)) <==> |FilterRecords(rows, c)| > 5
  {
    var listed := FilterRecords(rows, c);
    FilterRecordsSpec(rows, c);
    FilterAll(Complete, listed);
  }

  datatype Status = Undervalued | Overpriced | FairValue

  /** `get_status`: more than 5000 yen under the predicted rent is
      undervalued, more than 5000 over is overpriced, anything else
      (a missing residual included) is fair. */
  function GetStatus(residual: Option<real>): (s: Status)
    ensures s == Undervalued <==> residual.Some? && residual.value < -5000.0
    ensures s == Overpriced <==> residual.Some? && residual.value > 5000.0
    ensures s == FairValue <==> residual.None? || -5000.0 <= residual.value <= 5000.0
  {
    if residual.Some? && residual.value < -5000.0 then Undervalued
    else if residual.Some? && residual.value > 5000.0 then Overpriced
    else FairValue
  }

  /** The columns the valuation adds to a row. */
  datatype Valuation = Valuation(predicted: real, residual: Option<real>, status: Status)

  /** A listed row and, once the regressor has run, its valuation. */
  datatype Row = Row(rec: Record, val: Option<Valuation>)

  /** The listed rows, and whether the table has the valuation columns. */
  datatype Frame = Frame(rows: seq<Row>, valued: bool)

  /** The table has the valuation columns in every row or in none, and
      every status is the one its residual gives. */
  predicate WellShaped(f: Frame) {
    forall i :: 0 <= i < |f.rows| ==>
      f.rows[i].val.Some? == f.valued
      && (f.rows[i].val.Some? ==> f.rows[i].val.value.status == GetStatus(f.rows[i].val.value.residual))
  }

  /** `total_rent - predicted_rent`; missing when the rent is. */
  function Residual(rent: Option<real>, predicted: real): (r: Option<real>)
    ensures r.Some? <==> rent.Some?
    ensures r.Some? ==> r.value + predicted == rent.value
  {
    if rent.Some? then Some(rent.value - predicted) else None
  }

  /** The valuation step over the listed rows, given the regressor's
      prediction for each of them. */
  function Valuate(listed: seq<Record>, predictions: seq<real>): (f: Frame)
    requires |predictions| == |listed|
    ensures WellShaped(f)
    ensures |f.rows| == |listed| && f.valued == ValuationGate(listed)
    ensures forall i :: 0 <= i < |listed| ==> f.rows[i].rec == listed[i]
  {
    var valued := ValuationGate(listed);
    Frame(
      seq(|listed|, i requires 0 <= i < |listed| =>
        Row(listed[i],
          if valued then
            var res := Residual(listed[i].totalRent, predictions[i]);
            Some(Valuation(predictions[i], res, GetStatus(res)))
          else None)),
      valued)
  }

  /** Row by row, the valuation keeps the row, records its prediction,
      and prices it: the residual is the rent minus the prediction, and
      the status says how far apart they are. */
  lemma ValuedRow(listed: seq<Record>, predictions: seq<real>, i: nat)
    requires |predictions| == |listed| && i < |listed| && ValuationGate(listed)
    ensures var row := Valuate(listed, predictions).rows[i];
      && row.rec == listed[i] && row.val.Some?
      && row.val.value.predicted == predictions[i]
      && (listed[i].totalRent.Some? ==> row.val.value.residual == Some(listed[i].totalRent.value - predictions[i]))
      && (row.val.value.status == Undervalued <==> listed[i].totalRent.Some? && listed[i].totalRent.value < predictions[i] - 5000.0)
      && (row.val.value.status == Overpriced <==> listed[i].totalRent.Some? && listed[i].totalRent.value > predictions[i] + 5000.0)
  {
  }

  /** The sort orders the list view offers. */
  datatype SortChoice = BestDeal | CheapestRent | LargestSize

  /** The column a choice sorts by; "Best Deal" on a table without the
      valuation columns has no key. */
  function SortKey(choice: SortChoice, row: Row): Option<real> {
    match choice
    case BestDeal => if row.val.Some? then row.val.value.residual else None
    case CheapestRent => row.rec.totalRent
    case LargestSize => row.rec.sizeM2
  }

  /** Only "Largest Size" sorts descending. */
  predicate Descending(choice: SortChoice) {
    choice == LargestSize
  }

  /** Key `a` may precede key `b`: missing keys go last, the others in
      the chosen direction. */
  predicate InOrder(a: Option<real>, b: Option<real>, desc: bool) {
    b.None? || (a.Some? && (if desc then a.value >= b.value else a.value <= b.value))
  }

  predicate SortedBy(rows: seq<Row>, choice: SortChoice) {
    forall i, j :: 0 <= i < j < |rows| ==>
      InOrder(SortKey(choice, rows[i]), SortKey(choice, rows[j]), Descending(choice))
  }

  /** Any two keys can be ordered one way round. */
  lemma InOrderTotal(a: Option<real>, b: Option<real>, desc: bool)
    ensures InOrder(a, b, desc) || InOrder(b, a, desc)
  {
  }

  /** Inserts a row into a sorted table. */
  function Insert(x: Row, s: seq<Row>, choice: SortChoice): (r: seq<Row>)
    requires SortedBy(s, choice)
    ensures SortedBy(r, choice)
    ensures multiset(r) == multiset(s) + multiset{x}
  {
    if s == [] then [x]
    else if InOrder(SortKey(choice, x), SortKey(choice, s[0]), Descending(choice)) then
      InsertFront(x, s, choice);
      [x] + s
    else
      var rest := Insert(x, s[1..], choice);
      InOrderTotal(SortKey(choice, x), SortKey(choice, s[0]), Descending(choice));
      SortedHead(s, choice);
      assert s == [s[0]] + s[1..];
      ConsSorted(s[0], rest, choice);
      [s[0]] + rest
  }

  /** The head of a sorted table precedes every other row. */
  lemma SortedHead(s: seq<Row>, choice: SortChoice)
    requires s != [] && SortedBy(s, choice)
    ensures forall y :: y in s[1..] ==> InOrder(SortKey(choice, s[0]), SortKey(choice, y), Descending(choice))
  {
    forall y | y in s[1..]
      ensures InOrder(SortKey(choice, s[0]), SortKey(choice, y), Descending(choice))
    {
      var k :| 0 <= k < |s[1..]| && s[1..][k] == y;
      assert s[k + 1] == y;
    }
  }

  /** A row that precedes the head of a sorted table precedes all of it. */
  lemma InsertFront(x: Row, s: seq<Row>, choice: SortChoice)
    requires s != [] && SortedBy(s, choice)
    requires InOrder(SortKey(choice, x), SortKey(choice, s[0]), Descending(choice))
    ensures SortedBy([x] + s, choice)
  {
    var r := [x] + s;
    forall i, j | 0 <= i < j < |r|
      ensures InOrder(SortKey(choice, r[i]), SortKey(choice, r[j]), Descending(choice))
    {
      if i == 0 && j > 1 {
        assert r[j] == s[j - 1];
        assert InOrder(SortKey(choice, s[0]), SortKey(choice, s[j - 1]), Descending(choice));
      }
    }
  }

  /** A row that precedes every row of a sorted table can head it. */
  lemma ConsSorted(h: Row, rest: seq<Row>, choice: SortChoice)
    requires SortedBy(rest, choice)
    requires forall y :: y in multiset(rest) ==> InOrder(SortKey(choice, h), SortKey(choice, y), Descending(choice))
    ensures SortedBy([h] + rest, choice)
  {
    var r := [h] + rest;
    forall i, j | 0 <= i < j < |r|
      ensures InOrder(SortKey(choice, r[i]), SortKey(choice, r[j]), Descending(choice))
    {
      if i == 0 {
        assert r[j] == rest[j - 1] && r[j] in multiset(rest);
      } else {
        assert r[i] == rest[i - 1] && r[j] == rest[j - 1];
      }
    }
  }

  /** `sort_values` on the chosen column: sorted, missing keys last, and
      a rearrangement of the rows. Rows with equal keys may come in any
      order (the sort is not stable); this model fixes one. */
  function SortBy(rows: seq<Row>, choice: SortChoice): (r: seq<Row>)
    ensures SortedBy(r, choice)
    ensures multiset(r) == multiset(rows)
  {
    if rows == [] then []
    else
      assert rows == [rows[0]] + rows[1..];
      Insert(rows[0], SortBy(rows[1..], choice), choice)
  }

  /** The list view's order: "Best Deal" needs the valuation columns
      (without them pandas raises a key error), the others always sort. */
  function SortView(f: Frame, choice: SortChoice): (r: Result<Frame, string>)
    ensures r.Failure? <==> choice == BestDeal && !f.valued
    ensures r.Success? ==>
      && r.value.valued == f.valued
      && SortedBy(r.value.rows, choice)
      && multiset(r.value.rows) == multiset(f.rows)
  {
    if choice == BestDeal && !f.valued then Failure("residual")
    else Success(Frame(SortBy(f.rows, choice), f.valued))
  }

  /** Sorting keeps a table well shaped: it only moves rows. */
  lemma SortKeepsShape(f: Frame, choice: SortChoice)
    requires WellShaped(f) && SortView(f, choice).Success?
    ensures WellShaped(SortView(f, choice).value)
  {
    var g := SortView(f, choice).value;
    forall i | 0 <= i < |g.rows|
      ensures g.rows[i].val.Some? == g.valued
      ensures g.rows[i].val.Some? ==> g.rows[i].val.value.status == GetStatus(g.rows[i].val.value.residual)
    {
      assert g.rows[i] in multiset(g.rows);
      var k :| 0 <= k < |f.rows| && f.rows[k] == g.rows[i];
    }
  }

  /** Rows per page. */
  const ItemsPerPage := 12

  function Max(a: int, b: int): int {
    if a >= b then a else b
  }

  /** `max(1, n // 12 + 1)`. */
  function MaxPages(n: nat): int {
    Max(1, n / ItemsPerPage + 1)
  }

  /** There are enough pages for every row, and one more only when the
      rows fill the last page exactly: that page is empty. */
  lemma PageCount(n: nat)
    ensures MaxPages(n) >= 1
    ensures (MaxPages(n) - 1) * ItemsPerPage <= n < MaxPages(n) * ItemsPerPage
    ensures n % ItemsPerPage == 0 <==> (MaxPages(n) - 1) * ItemsPerPage == n
  {
  }

  /** The page number after the two clamps of the list view. */
  function ClampPage(page: int, n: nat): (p: nat)
    ensures p < MaxPages(n)
    ensures 0 <= page < MaxPages(n) ==> p == page
    ensures page >= MaxPages(n) ==> p == MaxPages(n) - 1
    ensures page < 0 ==> p == 0
  {
    var p := if page >= MaxPages(n) then MaxPages(n) - 1 else page;
    if p < 0 then 0 else p
  }

  function Min(a: int, b: int): int {
    if a <= b then a else b
  }

  /** `iloc[start : start + 12]` for the page. */
  function PageSlice<T>(view: seq<T>, page: nat): (r: seq<T>)
    requires page < MaxPages(|view|)
  {
    var start := page * ItemsPerPage;
    view[start..Min(start + ItemsPerPage, |view|)]
  }

  /** A page shows at most twelve rows, those from position
      `page * 12` on, and is empty exactly when it is the extra page
      after rows that filled the previous ones. */
  lemma PageContents<T>(view: seq<T>, page: nat)
    requires page < MaxPages(|view|)
    ensures |PageSlice(view, page)| <= ItemsPerPage
    ensures forall k :: 0 <= k < |PageSlice(view, page)| ==> PageSlice(view, page)[k] == view[page * ItemsPerPage + k]
    ensures PageSlice(view, page) == [] <==> page * ItemsPerPage == |view|
  {
    PageCount(|view|);
  }

  /** The first `k` pages, one after the other. */
  function Pages<T>(view: seq<T>, k: nat): seq<T>
    requires k <= MaxPages(|view|)
  {
    if k == 0 then [] else Pages(view, k - 1) + PageSlice(view, k - 1)
  }

  /** Paging through every page shows the whole view, in order, each
      row once. */
  lemma PagesCoverView<T>(view: seq<T>)
    ensures Pages(view, MaxPages(|view|)) == view
  {
    PagesPrefix(view, MaxPages(|view|));
    PageCount(|view|);
  }

  lemma {:induction false} PagesPrefix<T>(view: seq<T>, k: nat)
    requires k <= MaxPages(|view|)
    ensures Pages(view, k) == view[..Min(k * ItemsPerPage, |view|)]
  {
    if k > 0 {
      PagesPrefix(view, k - 1);
      PageCount(|view|);
      var a := Min((k - 1) * ItemsPerPage, |view|);
      var b := Min(k * ItemsPerPage, |view|);
      assert a == (k - 1) * ItemsPerPage;
      assert view[..a] + view[a..b] == view[..b];
    }
  }

  /** The list view's page number, kept across reruns of the script. */
  class Pager {
    var page: int

    /** A new session starts on the first page. */
    constructor ()
      ensures page == 0
    {
      page := 0;
    }

    /** Clamps the page number to the view and returns that page. */
    method Show<T>(view: seq<T>) returns (shown: seq<T>)
      modifies this
      ensures page == ClampPage(old(page), |view|)
      ensures shown == PageSlice(view, page)
    {
      var maxP := MaxPages(|view|);
      if page >= maxP {
        page := maxP - 1;
      }
      if page < 0 {
        page := 0;
      }
      var start := page * ItemsPerPage;
      shown := view[start..Min(start + ItemsPerPage, |view|)];
    }

    /** The "Prev" button; the next `Show` clamps the result. */
    method Prev()
      modifies this
      ensures page == old(page) - 1
    {
      page := page - 1;
    }

    /** The "Next" button; the next `Show` clamps the result. */
    method Next()
      modifies this
      ensures page == old(page) + 1
    {
      page := page + 1;
    }
  }

  /** From a shown page, "Prev" then showing goes back one page and stops
      at the first; "Next" then showing goes forward one page and stops
      at the last. */
  lemma Navigation(page: int, n: nat)
    ensures var p := ClampPage(page, n);
      && ClampPage(p - 1, n) == (if p == 0 then 0 else p - 1)
      && ClampPage(p + 1, n) == (if p + 1 == MaxPages(n) then p else p + 1)
  {
  }

  /** Python's `int()` on a number: truncation toward zero. */
  function Truncate(x: real): (r: int)
    ensures x >= 0.0 ==> r as real <= x < r as real + 1.0
    ensures x < 0.0 ==> r as real - 1.0 < x <= r as real
  {
    if x >= 0.0 then x.Floor else -((-x).Floor)
  }

  /** The tags shown beside a listing. */
  datatype Tag = Save(amount: int) | OverpricedTag | LargeTag

  /** The status tag (a saving in yen, or "Overpriced") and the "Large"
      tag for more than 50 square metres. */
  function Tags(row: Row): (t: seq<Tag>)
    requires row.val.Some? ==> row.val.value.status == GetStatus(row.val.value.residual)
    ensures LargeTag in t <==> row.rec.sizeM2.Some? && row.rec.sizeM2.value > 50.0
    ensures OverpricedTag in t <==> row.val.Some? && row.val.value.status == Overpriced
    ensures (exists k :: 0 <= k < |t| && t[k].Save?) <==> row.val.Some? && row.val.value.status == Undervalued
    ensures forall k :: 0 <= k < |t| && t[k].Save? ==>
      && row.val.Some? && row.val.value.residual.Some?
      && t[k].amount >= 5000
      && t[k].amount as real <= -row.val.value.residual.value < t[k].amount as real + 1.0
  {
    var status :=
      if row.val.Some? && row.val.value.status == Undervalued then
        [Save(Truncate(row.val.value.residual.value * -1.0))]
      else if row.val.Some? && row.val.value.status == Overpriced then [OverpricedTag]
      else [];
    var large := if row.rec.sizeM2.Some? && row.rec.sizeM2.value > 50.0 then [LargeTag] else [];
    assert status != [] ==> (status + large)[0] == status[0];
    status + large
  }

  datatype Colour = Green | Red | Gray

  /** The map marker's colour: green for undervalued, red for overpriced,
      gray for fair value and for a table without the status column. */
  function MapColour(row: Row): (c: Colour)
    ensures c == Green <==> row.val.Some? && row.val.value.status == Undervalued
    ensures c == Red <==> row.val.Some? && row.val.value.status == Overpriced
    ensures c == Gray <==> row.val.None? || row.val.value.status == FairValue
  {
    if row.val.None? then Gray
    else match row.val.value.status
      case Undervalued => Green
      case Overpriced => Red
      case FairValue => Gray
  }
}

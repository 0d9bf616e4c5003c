/** The parsed listing markup, as far as the miner looks into it. A parsed
    element is represented by what the miner reads from it: its text, the
    nested elements it searches for, and the attributes it reads. An
    element the miner searches for and may not find is an `Option`. */
module Markup {
  import opened Wrappers

  /** A `<span>` with its class list and its text. */
  datatype Span = Span(classes: seq<string>, text: string)

  /** An `<img>` with its optional `rel` (lazy-load source) and `src`. */
  datatype Img = Img(rel: Option<string>, src: Option<string>)

  /** An `<a>` with its optional `href`. */
  datatype Anchor = Anchor(href: Option<string>)

  /** A `<td>`: its text, its spans in document order, and the first
      `<img>` and `<a>` inside it, if any. */
  datatype Cell = Cell(text: string, spans: seq<Span>, img: Option<Img>, anchor: Option<Anchor>)

  /** A `<tr>` of the unit table: its `<td>` cells in order. */
  type Row = seq<Cell>

  /** A `div.cassetteitem`: the texts of its title, address and age
      elements when they exist, and the rows of its unit table when the
      table exists. */
  datatype Building = Building(
    title: Option<string>,
    address: Option<string>,
    ageText: Option<string>,
    table: Option<seq<Row>>)

  /** The outcome of fetching one result page: a non-200 status, an
      exception while fetching, or the buildings of a page that loaded. */
  datatype Page = Blocked | FetchFailed | Fetched(buildings: seq<Building>)

  /** `cell.find('span', class_=cls)`: the first span carrying the class. */
  function FindSpan(spans: seq<Span>, cls: string): (r: Option<Span>)
    ensures r.None? <==> forall i :: 0 <= i < |spans| ==> cls !in spans[i].classes
    ensures r.Some? ==> r.value in spans && cls in r.value.classes
  {
    if spans == [] then None
    else if cls in spans[0].classes then Some(spans[0])
    else FindSpan(spans[1..], cls)
  }

  /** The text of `cell.find('span', class_=cls)`, absent when there is
      no such span (where the source's `.text` raises). */
  function SpanText(cell: Cell, cls: string): Option<string> {
    match FindSpan(cell.spans, cls)
    case None => None
    case Some(s) => Some(s.text)
  }
}

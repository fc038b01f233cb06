/** Fetching every item of a monday.com board, page by page, and projecting the
    items into the four-column location table (map_view_app/src/monday_locations.py).
    The HTTP round trip is replaced by `Respond`, the answer the board API gives to
    a request carrying a cursor. */
module MondayLocations {
  import opened Wrappers

  /** The opaque pagination token of the board API. */
  type Cursor = string

  datatype Location = Location(lat: real, lng: real)

  /** One board item as the query returns it: its name, the values of its `status`
      column (their `text`) and the values of its `location` column. */
  datatype RawItem = RawItem(name: string, statusColumn: seq<string>, locationColumn: seq<Location>)

  /** One `items_page` of a response: the items and the cursor of the next page
      (`None` is JSON null: no further page). */
  datatype Page = Page(items: seq<RawItem>, cursor: Option<Cursor>)

  /** The `boards` list of a response: empty when the board does not exist or is
      not permissioned, otherwise the one requested board. */
  datatype Response = NoBoards | Boards(page: Page)

  /** The remote board: missing, or existing with its pages in the order the API
      serves them. */
  datatype Board = Missing | Existing(pages: seq<Page>)

  /** What the API promises about an existing board: a finite chain of pages
      where every page but the last hands out a cursor, the last hands out null,
      and no cursor is handed out twice. */
  ghost predicate ValidBoard(board: Board)
  {
    board.Existing? ==>
      && |board.pages| >= 1
      && board.pages[|board.pages| - 1].cursor.None?
      && (forall k :: 0 <= k < |board.pages| - 1 ==> board.pages[k].cursor.Some?)
      && (forall j, k :: 0 <= j < k < |board.pages| ==> board.pages[j].cursor != board.pages[k].cursor)
  }

  /** The API's answer to a query whose `cursor` variable is `cursor`: null asks
      for the first page, a cursor for the page after the one that handed it out. */
  function Respond(board: Board, cursor: Option<Cursor>): Response
  {
    match board
    case Missing => NoBoards
    case Existing(pages) =>
      if cursor.None? then (if |pages| == 0 then NoBoards else Boards(pages[0]))
      else PageAfter(pages, cursor.value, 0)
  }

  function PageAfter(pages: seq<Page>, c: Cursor, k: nat): Response
    decreases |pages| - k
  {
    if k + 1 >= |pages| then NoBoards
    else if pages[k].cursor == Some(c) then Boards(pages[k + 1])
    else PageAfter(pages, c, k + 1)
  }

  lemma {:induction false} PageAfterFinds(pages: seq<Page>, c: Cursor, j: nat, k: nat)
    requires j <= k && k + 1 < |pages| && pages[k].cursor == Some(c)
    requires forall i :: j <= i < k ==> pages[i].cursor != Some(c)
    ensures PageAfter(pages, c, j) == Boards(pages[k + 1])
    decreases k - j
  {
    if j < k {
      PageAfterFinds(pages, c, j + 1, k);
    }
  }

  /** Sending the cursor of page k yields page k + 1. */
  lemma NextRequestGetsNextPage(pages: seq<Page>, k: nat)
    requires ValidBoard(Existing(pages)) && k + 1 < |pages|
    ensures pages[k].cursor.Some?
    ensures Respond(Existing(pages), pages[k].cursor) == Boards(pages[k + 1])
  {
    PageAfterFinds(pages, pages[k].cursor.value, 0, k);
  }

  /** The items of the pages, page after page, in the order served. */
  function Flatten(pages: seq<Page>): seq<RawItem>
  {
    if pages == [] then [] else Flatten(pages[..|pages| - 1]) + pages[|pages| - 1].items
  }

  lemma {:induction false} FlattenAppend(a: seq<Page>, b: seq<Page>)
    ensures Flatten(a + b) == Flatten(a) + Flatten(b)
    decreases |b|
  {
    if b == [] {
      assert a + b == a;
    } else {
      var b' := b[..|b| - 1];
      assert (a + b)[..|a + b| - 1] == a + b';
      FlattenAppend(a, b');
    }
  }

  /** Item i of page k sits at position |Flatten(pages[..k])| + i of the result:
      each page's items stay together, in order, after those of earlier pages. */
  lemma FlattenAt(pages: seq<Page>, k: nat, i: nat)
    requires k < |pages| && i < |pages[k].items|
    ensures |Flatten(pages[..k])| + i < |Flatten(pages)|
    ensures Flatten(pages)[|Flatten(pages[..k])| + i] == pages[k].items[i]
  {
    assert pages == pages[..k + 1] + pages[k + 1..];
    FlattenAppend(pages[..k + 1], pages[k + 1..]);
    assert pages[..k + 1][..k] == pages[..k];
  }

  /** The number of pages that handed out a cursor. */
  function NonNullCursors(pages: seq<Page>): nat
  {
    if pages == [] then 0
    else NonNullCursors(pages[..|pages| - 1]) + (if pages[|pages| - 1].cursor.Some? then 1 else 0)
  }

  lemma {:induction false} NonNullCursorsOfValid(pages: seq<Page>, n: nat)
    requires n <= |pages|
    requires forall k :: 0 <= k < n ==> pages[k].cursor.Some?
    ensures NonNullCursors(pages[..n]) == n
  {
    if n > 0 {
      assert pages[..n][..n - 1] == pages[..n - 1];
      NonNullCursorsOfValid(pages, n - 1);
    }
  }

  /** A board's requests: one per page, so one more than the cursors handed out. */
  lemma RequestsOfValidBoard(pages: seq<Page>)
    requires ValidBoard(Existing(pages))
    ensures |pages| == 1 + NonNullCursors(pages)
  {
    var n := |pages|;
    NonNullCursorsOfValid(pages, n - 1);
    assert pages[..n][..n - 1] == pages[..n - 1];
    assert pages[..n] == pages;
  }

  /** The reasons the source raises while projecting the items. */
  datatype FetchError =
    | MissingStatus(index: nat)    // IndexError: item `index` has no status value
    | MissingLocation(index: nat)  // IndexError: item `index` has no location value
    | NothingToUnpack              // ValueError: `zip(*[])` cannot be unpacked into four names

  /** One row of the comprehension: name, stage, latitude and longitude. */
  datatype Row = Row(name: string, stage: string, lat: real, lng: real)

  /** The DataFrame returned: the column-less frame of a missing board, or the
      columns `name`, `stage`, `lat` and `lng`. */
  datatype Table =
    | EmptyFrame
    | Columns(name: seq<string>, stage: seq<string>, lat: seq<real>, lng: seq<real>)

  predicate Decodable(item: RawItem)
  {
    |item.statusColumn| > 0 && |item.locationColumn| > 0
  }

  /** The tuple the comprehension builds for one item, reading the status before
      the location. */
  function ExtractRow(item: RawItem, index: nat): Result<Row, FetchError>
  {
    if |item.statusColumn| == 0 then Failure(MissingStatus(index))
    else if |item.locationColumn| == 0 then Failure(MissingLocation(index))
    else Success(Row(item.name, item.statusColumn[0], item.locationColumn[0].lat, item.locationColumn[0].lng))
  }

  /** The comprehension over the items, the first of which is item number `offset`;
      it stops at the first item it cannot read. */
  function ExtractRows(items: seq<RawItem>, offset: nat): (r: Result<seq<Row>, FetchError>)
    ensures r.Success? <==> forall i :: 0 <= i < |items| ==> Decodable(items[i])
    ensures r.Success? ==> |r.value| == |items|
    ensures r.Success? ==> forall i :: 0 <= i < |items| ==>
      r.value[i] == Row(items[i].name, items[i].statusColumn[0], items[i].locationColumn[0].lat, items[i].locationColumn[0].lng)
    ensures r.Failure? ==>
      && !r.error.NothingToUnpack?
      && offset <= r.error.index < offset + |items|
      && !Decodable(items[r.error.index - offset])
      && (r.error.MissingStatus? <==> |items[r.error.index - offset].statusColumn| == 0)
      && (forall j :: 0 <= j < r.error.index - offset ==> Decodable(items[j]))
    decreases |items|
  {
    if items == [] then Success([])
    else
      match ExtractRow(items[0], offset)
      case Failure(e) => Failure(e)
      case Success(row) =>
        match ExtractRows(items[1..], offset + 1)
        case Failure(e) => Failure(e)
        case Success(rows) => Success([row] + rows)
  }

  /** The display label of each item: its stage, a colon, its name. */
  function Labels(stages: seq<string>, names: seq<string>): (r: seq<string>)
    requires |stages| == |names|
    ensures |r| == |stages|
    ensures forall i :: 0 <= i < |r| ==> r[i] == stages[i] + ":" + names[i]
  {
    if stages == [] then [] else [stages[0] + ":" + names[0]] + Labels(stages[1..], names[1..])
  }

  /** The comprehension, the four-way unpacking of `zip(*rows)`, the relabelling
      of the names and the DataFrame built from the four columns. */
  function Project(items: seq<RawItem>): (r: Result<Table, FetchError>)
    ensures items == [] ==> r == Failure(NothingToUnpack)
    ensures r.Success? <==> items != [] && forall i :: 0 <= i < |items| ==> Decodable(items[i])
    ensures r.Success? ==>
      && r.value.Columns?
      && |r.value.name| == |items| && |r.value.stage| == |items|
      && |r.value.lat| == |items| && |r.value.lng| == |items|
    ensures r.Success? ==> forall i :: 0 <= i < |items| ==>
      && r.value.stage[i] == items[i].statusColumn[0]
      && r.value.name[i] == r.value.stage[i] + ":" + items[i].name
      && r.value.lat[i] == items[i].locationColumn[0].lat
      && r.value.lng[i] == items[i].locationColumn[0].lng
    ensures r.Failure? && items != [] ==>
      && !r.error.NothingToUnpack?
      && r.error.index < |items|
      && !Decodable(items[r.error.index])
      && (forall j :: 0 <= j < r.error.index ==> Decodable(items[j]))
  {
    match ExtractRows(items, 0)
    case Failure(e) => Failure(e)
    case Success(rows) =>
      if rows == [] then Failure(NothingToUnpack)
      else
        var names := seq(|rows|, i requires 0 <= i < |rows| => rows[i].name);
        var stages := seq(|rows|, i requires 0 <= i < |rows| => rows[i].stage);
        var lats := seq(|rows|, i requires 0 <= i < |rows| => rows[i].lat);
        var lngs := seq(|rows|, i requires 0 <= i < |rows| => rows[i].lng);
        Success(Columns(Labels(stages, names), stages, lats, lngs))
  }

  /** `get_monday_locations`: the first request carries a null cursor; while the
      last page handed out a cursor, the next request carries exactly that cursor
      and its items are appended. `sent` is the cursor variable of each request
      made, in order. A missing board is reported by the empty frame. */
  method GetMondayLocations(board: Board) returns (table: Result<Table, FetchError>, sent: seq<Option<Cursor>>)
    requires ValidBoard(board)
    ensures |sent| >= 1 && sent[0] == None
    ensures board.Missing? ==> table == Success(EmptyFrame) && sent == [None]
    ensures board.Existing? ==> table == Project(Flatten(board.pages))
    ensures board.Existing? ==> |sent| == |board.pages| == 1 + NonNullCursors(board.pages)
    ensures board.Existing? ==> forall k :: 1 <= k < |sent| ==>
      sent[k].Some? && sent[k] == board.pages[k - 1].cursor
  {
    var cursor: Option<Cursor> := None;
    sent := [cursor];
    var response := Respond(board, cursor);
    if response.NoBoards? {
      table := Success(EmptyFrame);
      return;
    }
    ghost var pages := board.pages;
    ghost var k := 0;
    assert pages[..1] == [pages[0]];
    cursor := response.page.cursor;
    var items := response.page.items;
    while cursor.Some?
      invariant 0 <= k < |pages|
      invariant cursor == pages[k].cursor
      invariant items == Flatten(pages[..k + 1])
      invariant |sent| == k + 1 && sent[0] == None
      invariant forall j :: 1 <= j < |sent| ==> sent[j] == pages[j - 1].cursor
      decreases |pages| - k
    {
      NextRequestGetsNextPage(pages, k);
      sent := sent + [cursor];
      response := Respond(board, cursor);
      items := items + response.page.items;
      cursor := response.page.cursor;
      k := k + 1;
      assert pages[..k + 1][..k] == pages[..k];
    }
    assert pages[..k + 1] == pages;
    RequestsOfValidBoard(pages);
    table := Project(items);
  }
}

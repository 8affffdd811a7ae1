/**
 Reading a source manifest page by page (`_all_source_items` of `obsidian_import.py` over
 `list_source_import_items` of `core/store.py`): keyset paging with a bound on the pages and
 de-duplication of rows that a moving reader shows twice.

 Paths and ids are the ranks of their texts; 0 is the empty text.
 */
module ImportPager {
  import opened Prelude

  datatype Row = Row(path: nat, id: nat, version: nat)

  datatype Cursor = Cursor(path: nat, id: nat)

  const BEGINNING := Cursor(0, 0)
  const PAGE_SIZE: nat := 10_000
  const PAGES: nat := 20

  /** What a listing call returns: the number of the call, the cursor, the limit. */
  type Reader = (nat, Cursor, nat) -> seq<Row>

  // ---------- collecting the observations ----------

  function CursorOf(row: Row): Cursor {
    Cursor(row.path, row.id)
  }

  /** A row replaces the earlier observation of the same identity, in its place. */
  function Merge(items: seq<Row>, row: Row): (r: seq<Row>)
  {
    var i := Position(items, row.id);
    if row.id == 0 || i < 0 then items + [row] else items[i := row]
  }

  function Position(items: seq<Row>, id: nat): (i: int)
    ensures -1 <= i < |items| && (i >= 0 ==> items[i].id == id)
    ensures i < 0 ==> forall j :: 0 <= j < |items| ==> items[j].id != id
  {
    if items == [] then -1
    else if items[|items| - 1].id == id then |items| - 1
    else Position(items[..|items| - 1], id)
  }

  function MergeAll(items: seq<Row>, rows: seq<Row>): seq<Row>
    decreases |rows|
  {
    if rows == [] then items else Merge(MergeAll(items, rows[..|rows| - 1]), rows[|rows| - 1])
  }

  datatype Reading = Reading(rows: seq<Row>, complete: bool)

  /** Everything observed from page `k` on, and whether the end was seen. */
  function Observed(read: Reader, size: nat, pages: nat, k: nat, cursor: Cursor): Reading
    requires size > 0 && k <= pages
    decreases pages - k
  {
    if k == pages then Reading([], read(k, cursor, 1) == [])
    else
      var page := read(k, cursor, size);
      if |page| < size then Reading(page, true)
      else
        var rest := Observed(read, size, pages, k + 1, CursorOf(page[|page| - 1]));
        Reading(page + rest.rows, rest.complete)
  }

  ghost predicate Tracks(positions: map<nat, nat>, items: seq<Row>) {
    && (forall id <- positions :: id != 0 && positions[id] < |items| && items[positions[id]].id == id)
    && (forall i :: 0 <= i < |items| && items[i].id != 0 ==> items[i].id in positions && positions[items[i].id] == i)
  }

  /** The inner loop: one page into the list and the positions. */
  method AddPage(items0: seq<Row>, positions0: map<nat, nat>, page: seq<Row>)
    returns (items: seq<Row>, positions: map<nat, nat>)
    requires Tracks(positions0, items0)
    ensures items == MergeAll(items0, page) && Tracks(positions, items)
  {
    items, positions := items0, positions0;
    for i := 0 to |page|
      invariant items == MergeAll(items0, page[..i]) && Tracks(positions, items)
    {
      assert page[..i + 1][..i] == page[..i];
      var row := page[i];
      if row.id == 0 {
        items := items + [row];
      } else if row.id in positions {
        assert Position(items, row.id) == positions[row.id];
        items := items[positions[row.id] := row];
      } else {
        positions := positions[row.id := |items|];
        items := items + [row];
      }
    }
    assert page[..|page|] == page;
  }

  /** What is listed when `seen` was observed before page `k`. */
  ghost predicate Lists(read: Reader, size: nat, pages: nat, seen: seq<Row>, k: nat, cursor: Cursor, total: Reading)
    requires size > 0
  {
    && k <= pages
    && var rest := Observed(read, size, pages, k, cursor);
       total.rows == seen + rest.rows && total.complete == rest.complete
  }

  lemma OneMorePage(read: Reader, size: nat, pages: nat, seen: seq<Row>, k: nat, cursor: Cursor, total: Reading)
    requires size > 0 && Lists(read, size, pages, seen, k, cursor, total) && k < pages
    ensures
      var page := read(k, cursor, size);
      if |page| < size then total == Reading(seen + page, true)
      else Lists(read, size, pages, seen + page, k + 1, CursorOf(page[|page| - 1]), total)
  {
    var page := read(k, cursor, size);
    if |page| >= size {
      var rest := Observed(read, size, pages, k + 1, CursorOf(page[|page| - 1]));
      assert seen + (page + rest.rows) == seen + page + rest.rows;
    }
  }

  lemma NoMorePages(read: Reader, size: nat, pages: nat, seen: seq<Row>, cursor: Cursor, total: Reading)
    requires size > 0 && Lists(read, size, pages, seen, pages, cursor, total)
    ensures total == Reading(seen, read(pages, cursor, 1) == [])
  {
    assert seen + [] == seen;
  }

  lemma NothingReadYet(read: Reader, size: nat, pages: nat)
    requires size > 0
    ensures Lists(read, size, pages, [], 0, BEGINNING, Observed(read, size, pages, 0, BEGINNING))
  {
    var total := Observed(read, size, pages, 0, BEGINNING);
    assert [] + total.rows == total.rows;
  }

  /** `_all_source_items` with these bounds. */
  method ReadAll(read: Reader, size: nat, pages: nat) returns (items: seq<Row>, complete: bool)
    requires size > 0
    ensures items == MergeAll([], Observed(read, size, pages, 0, BEGINNING).rows)
    ensures complete == Observed(read, size, pages, 0, BEGINNING).complete
  {
    items := [];
    var positions: map<nat, nat> := map[];
    var cursor, k := BEGINNING, 0;
    ghost var seen, total := [], Observed(read, size, pages, 0, BEGINNING);
    NothingReadYet(read, size, pages);
    while k < pages
      invariant Tracks(positions, items) && items == MergeAll([], seen)
      invariant Lists(read, size, pages, seen, k, cursor, total)
    {
      var page := read(k, cursor, size);
      OneMorePage(read, size, pages, seen, k, cursor, total);
      items, positions := AddPage(items, positions, page);
      MergeAllBoth([], seen, page);
      if |page| < size {
        return items, true;
      }
      seen := seen + page;
      cursor := CursorOf(page[|page| - 1]);
      k := k + 1;
    }
    NoMorePages(read, size, pages, seen, cursor, total);
    complete := read(k, cursor, 1) == [];
  }

  lemma {:induction false} MergeAllBoth(items: seq<Row>, a: seq<Row>, b: seq<Row>)
    ensures MergeAll(items, a + b) == MergeAll(MergeAll(items, a), b)
    decreases |b|
  {
    if b == [] {
      assert a + b == a;
    } else {
      MergeAllBoth(items, a, b[..|b| - 1]);
      assert (a + b)[..|a + b| - 1] == a + b[..|b| - 1];
    }
  }

  /** `_all_source_items`. */
  method AllSourceItems(read: Reader) returns (items: seq<Row>, complete: bool)
    ensures items == MergeAll([], Observed(read, PAGE_SIZE, PAGES, 0, BEGINNING).rows)
    ensures complete == Observed(read, PAGE_SIZE, PAGES, 0, BEGINNING).complete
  {
    items, complete := ReadAll(read, PAGE_SIZE, PAGES);
  }

  // ---------- what the list holds, whatever the reader shows ----------

  /** No identity twice. */
  predicate DistinctIds(items: seq<Row>) {
    forall i, j :: 0 <= i < j < |items| && items[i].id != 0 ==> items[i].id != items[j].id
  }

  /** The last observation of an identity. */
  function Last(rows: seq<Row>, id: nat): Option<Row>
    decreases |rows|
  {
    if rows == [] then None
    else if rows[|rows| - 1].id == id then Some(rows[|rows| - 1])
    else Last(rows[..|rows| - 1], id)
  }

  /** Every identity is listed once, with its newest observation. */
  lemma {:induction false} NewestObservationWins(rows: seq<Row>, id: nat)
    requires id != 0
    ensures DistinctIds(MergeAll([], rows))
    ensures
      var items := MergeAll([], rows);
      var i := Position(items, id);
      Last(rows, id) == if i < 0 then None else Some(items[i])
    decreases |rows|
  {
    if rows != [] {
      var but, row := rows[..|rows| - 1], rows[|rows| - 1];
      NewestObservationWins(but, id);
      MergingOne(MergeAll([], but), row, id);
    }
  }

  lemma PositionIs(items: seq<Row>, i: nat)
    requires DistinctIds(items) && i < |items| && items[i].id != 0
    ensures Position(items, items[i].id) == i
  {
  }

  lemma MergingOne(items: seq<Row>, row: Row, id: nat)
    requires DistinctIds(items) && id != 0
    ensures DistinctIds(Merge(items, row))
    ensures
      var merged := Merge(items, row);
      var i, k := Position(items, id), Position(merged, id);
      if row.id == id then k >= 0 && merged[k] == row
      else k == i && (i >= 0 ==> merged[k] == items[i])
  {
    var merged := Merge(items, row);
    var i := Position(items, id);
    if row.id == id {
      var at := if i < 0 then |items| else i;
      assert merged[at] == row;
      PositionIs(merged, at);
    } else if i >= 0 {
      assert merged[i] == items[i];
      PositionIs(merged, i);
    }
  }

  // ---------- a stable snapshot ----------

  predicate Before(a: Cursor, b: Cursor) {
    a.path < b.path || (a.path == b.path && a.id < b.id)
  }

  /** The manifest in listing order; every row has an id of its own. */
  predicate IsManifest(rows: seq<Row>) {
    && (forall i, j :: 0 <= i < j < |rows| ==> Before(CursorOf(rows[i]), CursorOf(rows[j])) && rows[i].id != rows[j].id)
    && (forall i :: 0 <= i < |rows| ==> rows[i].id != 0)
  }

  predicate Follows(row: Row, after: Cursor) {
    after == BEGINNING || Before(after, CursorOf(row))
  }

  function RowsAfter(rows: seq<Row>, after: Cursor): seq<Row>
    decreases |rows|
  {
    if rows == [] then []
    else RowsAfter(rows[..|rows| - 1], after) + if Follows(rows[|rows| - 1], after) then [rows[|rows| - 1]] else []
  }

  /** `list_source_import_items` over one snapshot. */
  function Listing(rows: seq<Row>, after: Cursor, limit: nat): seq<Row> {
    var found := RowsAfter(rows, after);
    if |found| > limit then found[..limit] else found
  }

  /** The reader holds one snapshot for all its calls. */
  ghost predicate IsStable(read: Reader, rows: seq<Row>) {
    forall k: nat, after: Cursor, limit: nat :: read(k, after, limit) == Listing(rows, after, limit)
  }

  predicate IsCursorAt(rows: seq<Row>, n: nat, after: Cursor)
    requires n <= |rows|
  {
    if n == 0 then after == BEGINNING else after == CursorOf(rows[n - 1])
  }

  lemma {:induction false} RowsAfterCursor(rows: seq<Row>, n: nat, after: Cursor)
    requires IsManifest(rows) && n <= |rows| && IsCursorAt(rows, n, after)
    ensures RowsAfter(rows, after) == rows[n..]
    decreases |rows|
  {
    if rows != [] {
      var but, last := rows[..|rows| - 1], rows[|rows| - 1];
      if n < |rows| {
        RowsAfterCursor(but, n, after);
        assert rows[n..] == but[n..] + [last];
        assert n > 0 ==> rows[n - 1].id != 0;
      } else {
        NothingAfter(rows, after);
        assert rows[n..] == [];
      }
    }
  }

  lemma {:induction false} NothingAfter(rows: seq<Row>, after: Cursor)
    requires forall i :: 0 <= i < |rows| ==> !Follows(rows[i], after)
    ensures RowsAfter(rows, after) == []
    decreases |rows|
  {
    if rows != [] {
      NothingAfter(rows[..|rows| - 1], after);
    }
  }

  function Least(a: nat, b: nat): nat {
    if a < b then a else b
  }

  /** The rows that this many full pages hold. */
  function Room(size: nat, pages: nat): (r: nat)
    ensures r == pages * size
  {
    if pages == 0 then 0 else size + Room(size, pages - 1)
  }

  /** One call from a cursor behind `n` rows. */
  lemma PageIs(read: Reader, rows: seq<Row>, k: nat, n: nat, after: Cursor, limit: nat)
    requires IsStable(read, rows) && IsManifest(rows) && n <= |rows| && IsCursorAt(rows, n, after)
    ensures read(k, after, limit) == rows[n..Least(|rows|, n + limit)]
  {
    RowsAfterCursor(rows, n, after);
    assert read(k, after, limit) == Listing(rows, after, limit);
  }

  /** What the pages from a cursor behind `n` rows show when there is room for this many. */
  function Shown(rows: seq<Row>, n: nat, room: nat): Reading
    requires n <= |rows|
  {
    Reading(rows[n..Least(|rows|, n + room)], |rows| <= n + room)
  }

  lemma FullPage(rows: seq<Row>, n: nat, size: nat, room: nat, page: seq<Row>, rest: Reading)
    requires n + size <= |rows| && size <= room && page == rows[n..n + size]
    requires rest == Shown(rows, n + size, room - size)
    ensures Reading(page + rest.rows, rest.complete) == Shown(rows, n, room)
  {
    Adjacent(rows, n, n + size, Least(|rows|, n + room));
  }

  /** From a cursor behind `n` rows the remaining pages read on without a gap or a repetition. */
  lemma {:induction false} PagesReadOn(read: Reader, rows: seq<Row>, size: nat, pages: nat, k: nat, n: nat,
                                       after: Cursor, room: nat)
    requires IsStable(read, rows) && IsManifest(rows) && size > 0 && k <= pages
    requires n <= |rows| && IsCursorAt(rows, n, after) && room == Room(size, pages - k)
    ensures Observed(read, size, pages, k, after) == Shown(rows, n, room)
    decreases pages - k
  {
    if k == pages {
      PageIs(read, rows, k, n, after, 1);
    } else {
      PageIs(read, rows, k, n, after, size);
      if n + size <= |rows| {
        var page := read(k, after, size);
        assert page == rows[n..n + size] && page[size - 1] == rows[n + size - 1];
        var next := CursorOf(page[size - 1]);
        PagesReadOn(read, rows, size, pages, k + 1, n + size, next, room - size);
        FullPage(rows, n, size, room, page, Observed(read, size, pages, k + 1, next));
      }
    }
  }

  lemma Adjacent(rows: seq<Row>, a: nat, b: nat, c: nat)
    requires a <= b <= c <= |rows|
    ensures rows[a..b] + rows[b..c] == rows[a..c]
  {
  }

  lemma {:induction false} MergingDistinctRows(rows: seq<Row>)
    requires forall i, j :: 0 <= i < j < |rows| ==> rows[i].id != rows[j].id
    ensures MergeAll([], rows) == rows
    decreases |rows|
  {
    if rows != [] {
      MergingDistinctRows(rows[..|rows| - 1]);
    }
  }

  /** Under one snapshot, paging returns exactly the first rows in order, none skipped or repeated, up
      to the bound, and says "complete" exactly when the manifest does not exceed the bound. */
  lemma StableReadingIsExact(read: Reader, rows: seq<Row>, size: nat, pages: nat)
    requires IsStable(read, rows) && IsManifest(rows) && size > 0
    ensures
      var r := Observed(read, size, pages, 0, BEGINNING);
      && MergeAll([], r.rows) == rows[..Least(|rows|, Room(size, pages))]
      && (r.complete <==> |rows| <= Room(size, pages))
  {
    PagesReadOn(read, rows, size, pages, 0, 0, BEGINNING, Room(size, pages));
    MergingDistinctRows(rows[..Least(|rows|, Room(size, pages))]);
  }
}

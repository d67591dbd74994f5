/** The filtered, paged reader over one table, and following its pages (src/lumi/experiment/db.py, lines 437-522;
    src/lumi/experiment/handlers.py, lines 840-856). */
module Paging {
  import opened Common
  import opened Timestamps
  import opened TimeText

  /** A row: its key, its creation time as stored text if it has one, and whether it is retired. */
  datatype Row = Row(id: nat, time: Option<string>, retired: bool)

  /** The equality filters and the search are one test; the window is in epoch seconds. */
  datatype Query = Query(matches: Row -> bool, since: Option<nat>, until: Option<nat>, includeRetired: bool, descending: bool)

  /** A row without a time meets no bound. */
  predicate Selected(q: Query, r: Row) {
    && q.matches(r)
    && (q.includeRetired || !r.retired)
    && (q.since.None? || (r.time.Some? && NotAfter(FromEpoch(q.since.value), r.time.value)))
    && (q.until.None? || (r.time.Some? && NotAfter(r.time.value, FromEpoch(q.until.value))))
  }

  function Filtered(q: Query, table: seq<Row>): seq<Row> {
    if table == [] then [] else (if Selected(q, table[0]) then [table[0]] else []) + Filtered(q, table[1..])
  }

  /** The order by time and then key; no time comes first. */
  predicate RowBefore(a: Row, b: Row) {
    match (a.time, b.time)
    case (None, None) => a.id < b.id
    case (None, Some(_)) => true
    case (Some(_), None) => false
    case (Some(s), Some(t)) => Before(s, t) || (s == t && a.id < b.id)
  }

  function InsertRow(r: Row, rows: seq<Row>): (s: seq<Row>)
    ensures |s| == |rows| + 1
  {
    if rows == [] || RowBefore(r, rows[0]) then [r] + rows else [rows[0]] + InsertRow(r, rows[1..])
  }

  function Sorted(rows: seq<Row>): (s: seq<Row>)
    ensures |s| == |rows|
  {
    if rows == [] then [] else InsertRow(rows[0], Sorted(rows[1..]))
  }

  /** Every selected row, in the order asked for. */
  function Listing(q: Query, table: seq<Row>): seq<Row> {
    if q.descending then Reversed(Sorted(Filtered(q, table))) else Sorted(Filtered(q, table))
  }

  function CountRows(q: Query, table: seq<Row>): nat {
    |Filtered(q, table)|
  }

  const MOST := 1000

  function Clamp(n: int, lo: int, hi: int): int {
    if n < lo then lo else if n > hi then hi else n
  }

  /** The limit is held between 1 and 1000, the offset at 0 or more. */
  function Page(rows: seq<Row>, limit: int, offset: int): seq<Row> {
    var from := Clamp(offset, 0, |rows|);
    var count := Clamp(limit, 1, MOST);
    rows[from..if from + count < |rows| then from + count else |rows|]
  }

  function ListRows(q: Query, table: seq<Row>, limit: int, offset: int): seq<Row> {
    Page(Listing(q, table), limit, offset)
  }

  /** The page's `has_more` is computed from the limit as it was asked for. */
  predicate HasMore(total: nat, limit: int, offset: int) {
    offset + limit < total
  }

  // ----- the listing --------------------------------------------------------------------------

  ghost predicate KeysAreUnique(table: seq<Row>) {
    forall i, j :: 0 <= i < j < |table| ==> table[i].id != table[j].id
  }

  /** The rows are in strict order, so none is there twice. */
  ghost predicate IsOrdered(rows: seq<Row>) {
    forall i, j :: 0 <= i < j < |rows| ==> RowBefore(rows[i], rows[j])
  }

  lemma {:induction false} BeforeIsTransitive(a: string, b: string, c: string)
    requires Before(a, b) && Before(b, c)
    ensures Before(a, c)
  {
    if a != "" && a[0] == b[0] == c[0] {
      BeforeIsTransitive(a[1..], b[1..], c[1..]);
    }
  }

  lemma RowsAreComparable(a: Row, b: Row)
    requires a.id != b.id
    ensures RowBefore(a, b) || RowBefore(b, a)
  {
    if a.time.Some? && b.time.Some? { BeforeIsTotal(a.time.value, b.time.value); }
  }

  lemma RowsAreTransitive(a: Row, b: Row, c: Row)
    requires RowBefore(a, b) && RowBefore(b, c)
    ensures RowBefore(a, c)
  {
    if a.time.Some? && b.time.Some? && c.time.Some? && Before(a.time.value, b.time.value) && Before(b.time.value, c.time.value) {
      BeforeIsTransitive(a.time.value, b.time.value, c.time.value);
    }
  }

  lemma {:induction false} InsertRowHas(r: Row, rows: seq<Row>, x: Row)
    ensures x in InsertRow(r, rows) <==> x == r || x in rows
  {
    if rows != [] && !RowBefore(r, rows[0]) {
      InsertRowHas(r, rows[1..], x);
      assert rows == [rows[0]] + rows[1..];
    }
  }

  lemma HeadFirst(head: Row, rows: seq<Row>)
    requires IsOrdered(rows) && forall x :: x in rows ==> RowBefore(head, x)
    ensures IsOrdered([head] + rows)
  {
    var all := [head] + rows;
    forall i, j | 0 <= i < j < |all| ensures RowBefore(all[i], all[j]) {
      assert all[j] == rows[j - 1];
      if i > 0 { assert all[i] == rows[i - 1]; }
    }
  }

  lemma TailOrdered(rows: seq<Row>)
    requires IsOrdered(rows) && rows != []
    ensures IsOrdered(rows[1..]) && forall x :: x in rows[1..] ==> RowBefore(rows[0], x)
  {
    forall x | x in rows[1..] ensures RowBefore(rows[0], x) {
      var i :| 0 <= i < |rows[1..]| && rows[1..][i] == x;
      assert x == rows[i + 1];
    }
  }

  lemma {:induction false} InsertRowOrdered(r: Row, rows: seq<Row>)
    requires IsOrdered(rows) && forall x :: x in rows ==> x.id != r.id
    ensures IsOrdered(InsertRow(r, rows))
  {
    if rows == [] {
    } else if RowBefore(r, rows[0]) {
      TailOrdered(rows);
      forall x | x in rows ensures RowBefore(r, x) {
        assert rows == [rows[0]] + rows[1..];
        if x != rows[0] { RowsAreTransitive(r, rows[0], x); }
      }
      HeadFirst(r, rows);
    } else {
      TailOrdered(rows);
      InsertRowOrdered(r, rows[1..]);
      RowsAreComparable(r, rows[0]);
      forall x | x in InsertRow(r, rows[1..]) ensures RowBefore(rows[0], x) {
        InsertRowHas(r, rows[1..], x);
      }
      HeadFirst(rows[0], InsertRow(r, rows[1..]));
    }
  }

  lemma {:induction false} SortedHas(rows: seq<Row>, x: Row)
    ensures x in Sorted(rows) <==> x in rows
  {
    if rows != [] {
      SortedHas(rows[1..], x);
      InsertRowHas(rows[0], Sorted(rows[1..]), x);
      assert rows == [rows[0]] + rows[1..];
    }
  }

  lemma {:induction false} SortedIsOrdered(rows: seq<Row>)
    requires KeysAreUnique(rows)
    ensures IsOrdered(Sorted(rows))
  {
    if rows != [] {
      SortedIsOrdered(rows[1..]);
      forall x | x in Sorted(rows[1..]) ensures x.id != rows[0].id {
        SortedHas(rows[1..], x);
        var i :| 0 <= i < |rows[1..]| && rows[1..][i] == x;
        assert x == rows[i + 1];
      }
      InsertRowOrdered(rows[0], Sorted(rows[1..]));
    }
  }

  lemma {:induction false} FilteredHas(q: Query, table: seq<Row>, x: Row)
    ensures x in Filtered(q, table) <==> x in table && Selected(q, x)
  {
    if table != [] {
      FilteredHas(q, table[1..], x);
      assert table == [table[0]] + table[1..];
    }
  }

  lemma {:induction false} FilteredUnique(q: Query, table: seq<Row>)
    requires KeysAreUnique(table)
    ensures KeysAreUnique(Filtered(q, table))
  {
    if table != [] {
      FilteredUnique(q, table[1..]);
      forall x | x in Filtered(q, table[1..]) ensures x.id != table[0].id {
        FilteredHas(q, table[1..], x);
        var i :| 0 <= i < |table[1..]| && table[1..][i] == x;
        assert x == table[i + 1];
      }
      var rest := Filtered(q, table[1..]);
      forall i | 0 <= i < |rest| ensures rest[i].id != table[0].id { assert rest[i] in rest; }
    }
  }

  /** The listing is the selected rows, each once, in the total order by time and key, and as many as are counted. */
  lemma ListingIsExact(q: Query, table: seq<Row>)
    requires KeysAreUnique(table)
    ensures |Listing(q, table)| == CountRows(q, table)
    ensures IsOrdered(if q.descending then Reversed(Listing(q, table)) else Listing(q, table))
    ensures forall x :: x in Listing(q, table) <==> x in table && Selected(q, x)
  {
    var chosen := Filtered(q, table);
    var ascending := Sorted(chosen);
    FilteredUnique(q, table);
    SortedIsOrdered(chosen);
    forall x ensures x in Listing(q, table) <==> x in table && Selected(q, x) {
      FilteredHas(q, table, x);
      SortedHas(chosen, x);
      ReversedHas(ascending, x);
    }
    assert Reversed(Reversed(ascending)) == ascending;
  }

  lemma ReversedHas(rows: seq<Row>, x: Row)
    ensures x in Reversed(rows) <==> x in rows
  {
    if x in rows {
      var i :| 0 <= i < |rows| && rows[i] == x;
      assert Reversed(rows)[|rows| - 1 - i] == x;
    }
  }

  /** The window selects the rows whose second lies in it, and none without a time. */
  lemma WindowIsExact(q: Query, r: Row)
    requires (q.since.Some? ==> InRange(q.since.value)) && (q.until.Some? ==> InRange(q.until.value))
    requires r.time.Some? ==> ToEpoch(r.time.value).Some?
    requires q.since.Some? || q.until.Some?
    ensures Selected(q, r) <==>
            && q.matches(r) && (q.includeRetired || !r.retired) && r.time.Some?
            && (q.since.None? || q.since.value <= ToEpoch(r.time.value).value)
            && (q.until.None? || ToEpoch(r.time.value).value <= q.until.value)
  {
    if r.time.Some? {
      WindowSelectsExactly(r.time.value, q.since, q.until);
    }
  }

  /** The first row comes before the second in time, by the seconds their texts are read as, with no time before any and
      the key deciding among equal ones. */
  predicate InTimeOrder(a: Row, b: Row)
    requires a.time.Some? ==> ToEpoch(a.time.value).Some?
    requires b.time.Some? ==> ToEpoch(b.time.value).Some?
  {
    if a.time.None? then b.time.Some? || a.id < b.id
    else
      && b.time.Some?
      && var s, t := ToEpoch(a.time.value).value, ToEpoch(b.time.value).value;
         s < t || (s == t && a.id < b.id)
  }

  lemma OrderIsTimeOrder(a: Row, b: Row)
    requires a.time.Some? ==> ToEpoch(a.time.value).Some?
    requires b.time.Some? ==> ToEpoch(b.time.value).Some?
    ensures RowBefore(a, b) <==> InTimeOrder(a, b)
  {
    if a.time.Some? && b.time.Some? {
      TextRoundTrip(a.time.value);
      TextRoundTrip(b.time.value);
      TextOrderIsTimeOrder(ToEpoch(a.time.value).value, ToEpoch(b.time.value).value);
    }
  }

  /** Of two rows of the listing, the one further on is the later one, or the earlier one when it descends. */
  lemma ListingFollowsTime(q: Query, table: seq<Row>, i: nat, j: nat)
    requires KeysAreUnique(table) && i < j < |Listing(q, table)|
    requires forall x :: x in table && x.time.Some? ==> ToEpoch(x.time.value).Some?
    ensures var rows := Listing(q, table);
            && (rows[i].time.Some? ==> ToEpoch(rows[i].time.value).Some?) && (rows[j].time.Some? ==> ToEpoch(rows[j].time.value).Some?)
            && if q.descending then InTimeOrder(rows[j], rows[i]) else InTimeOrder(rows[i], rows[j])
  {
    ListedIsThere(q, table, i);
    ListedIsThere(q, table, j);
    ListingIsOrdered(q, table, i, j);
    OrderIsTimeOrder(Listing(q, table)[i], Listing(q, table)[j]);
    OrderIsTimeOrder(Listing(q, table)[j], Listing(q, table)[i]);
  }

  lemma ListedIsThere(q: Query, table: seq<Row>, i: nat)
    requires KeysAreUnique(table) && i < |Listing(q, table)|
    ensures Listing(q, table)[i] in table
  {
    ListingIsExact(q, table);
    assert Listing(q, table)[i] in Listing(q, table);
  }

  lemma ListingIsOrdered(q: Query, table: seq<Row>, i: nat, j: nat)
    requires KeysAreUnique(table) && i < j < |Listing(q, table)|
    ensures var rows := Listing(q, table); if q.descending then RowBefore(rows[j], rows[i]) else RowBefore(rows[i], rows[j])
  {
    FilteredUnique(q, table);
    SortedIsOrdered(Filtered(q, table));
  }

  /** A page is the rows of the listing from the offset on, a negative one counting as none, and as many of them as there
      are up to the limit, which counts as 1 when it is less and as 1000 when it is more. */
  lemma PageExactly(q: Query, table: seq<Row>, limit: int, offset: int)
    ensures var all, page := Listing(q, table), ListRows(q, table, limit, offset);
            var start := if offset < 0 then 0 else offset;
            var most := if limit < 1 then 1 else if limit > 1000 then 1000 else limit;
            && |page| == (if start >= |all| then 0 else if start + most <= |all| then most else |all| - start)
            && forall k :: 0 <= k < |page| ==> start + k < |all| && page[k] == all[start + k]
  {
  }

  // ----- following the pages -----------------------------------------------------------------------

  /** Reads page after page while there is more. It gets every row, in order, exactly when no page is cut short by
      the reader's own limit. */
  method FollowPages(q: Query, table: seq<Row>, limit: int) returns (rows: seq<Row>)
    requires limit >= 1
    ensures rows == Listing(q, table) <==> limit <= MOST || CountRows(q, table) <= MOST
  {
    var all := Listing(q, table);
    var total := CountRows(q, table);
    assert |all| == total;
    var offset := 0;
    var more := true;
    rows := [];
    while more
      invariant offset >= 0 && (more ==> offset == 0 || offset < total)
      invariant !more ==> offset >= total
      invariant limit <= MOST || total <= MOST ==> rows == Upto(all, offset)
      invariant limit > MOST && total > MOST ==> |rows| <= AtMost(offset, total) && (offset > 0 ==> offset > MOST && |rows| < AtMost(offset, total))
      decreases if more then 1 else 0, total + limit - offset
    {
      var page := ListRows(q, table, limit, offset);
      PageFrom(all, limit, offset);
      rows := rows + page;
      more := HasMore(total, limit, offset);
      offset := offset + limit;
    }
  }

  function AtMost(n: int, m: int): int {
    if n < m then n else m
  }

  function Upto(rows: seq<Row>, n: int): seq<Row> {
    if n < 0 then [] else if n < |rows| then rows[..n] else rows
  }

  lemma PageFrom(all: seq<Row>, limit: int, offset: int)
    requires limit >= 1 && 0 <= offset
    ensures |Page(all, limit, offset)| <= MOST && |Page(all, limit, offset)| <= (if offset < |all| then |all| - offset else 0)
    ensures limit <= MOST || |all| <= MOST ==> Upto(all, offset) + Page(all, limit, offset) == Upto(all, offset + limit)
  {
  }

  function Offset(limit: int, k: nat): int {
    if k == 0 then 0 else Offset(limit, k - 1) + limit
  }

  lemma {:induction false} OffsetNeverGrows(limit: int, k: nat)
    requires limit <= 0
    ensures Offset(limit, k) <= 0 && (limit < 0 && k > 0 ==> Offset(limit, k) < 0)
  {
    if k > 0 {
      OffsetNeverGrows(limit, k - 1);
    }
  }

  /** With a limit below 1 the pages never end, and each is again the first row: following them never finishes,
      unless the limit is 0 and nothing is selected. */
  lemma SmallLimitNeverEnds(q: Query, table: seq<Row>, limit: int, k: nat)
    requires limit < 0 || (limit == 0 && CountRows(q, table) > 0)
    ensures HasMore(CountRows(q, table), limit, Offset(limit, k))
    ensures ListRows(q, table, limit, Offset(limit, k)) == Upto(Listing(q, table), 1)
  {
    OffsetNeverGrows(limit, k);
  }
}

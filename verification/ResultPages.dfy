/** Serving one page of a job's results from its Parquet output (backend/apps/jobs/results.py), with
    the row ids that Spark assigns at read time (backend/processing/readers.py, lines 41-43). */
module ResultPages {
  import opened Wrappers

  const MAX_PAGE_SIZE := 500

  datatype Record = Record(rowId: int, matched: bool, values: seq<Option<string>>)

  datatype ResultRow = ResultRow(rowNumber: int, matched: bool, values: seq<Option<string>>)

  datatype ResultsPage = ResultsPage(rows: seq<ResultRow>, page: int, pageSize: int, totalRows: int) {
    /** At least one page, even of an empty result. */
    function TotalPages(): int
      requires pageSize >= 1
    {
      Larger(1, CeilDiv(totalRows, pageSize))
    }
  }

  function Larger(a: int, b: int): int {
    if a < b then b else a
  }

  function Smaller(a: int, b: int): int {
    if a < b then a else b
  }

  function CeilDiv(n: int, d: int): int
    requires d >= 1
  {
    (n + d - 1) / d
  }

  // --- the queries ---

  /** `ORDER BY`: insertion of each row before the first with a greater id. */
  function Insert(r: Record, sorted: seq<Record>): seq<Record> {
    if sorted == [] || r.rowId <= sorted[0].rowId then [r] + sorted else [sorted[0]] + Insert(r, sorted[1..])
  }

  function OrderById(table: seq<Record>): seq<Record> {
    if table == [] then [] else Insert(table[0], OrderById(table[1..]))
  }

  /** `LIMIT limit OFFSET offset`. */
  function LimitOffset(rows: seq<Record>, limit: nat, offset: nat): seq<Record> {
    if offset >= |rows| then [] else rows[offset..Smaller(offset + limit, |rows|)]
  }

  function MinId(rows: seq<Record>): Option<int> {
    if rows == [] then
      None
    else
      var rest := MinId(rows[1..]);
      Some(if rest.Some? then Smaller(rows[0].rowId, rest.value) else rows[0].rowId)
  }

  function MaxId(rows: seq<Record>): Option<int> {
    if rows == [] then
      None
    else
      var rest := MaxId(rows[1..]);
      Some(if rest.Some? then Larger(rows[0].rowId, rest.value) else rows[0].rowId)
  }

  /** `WHERE id BETWEEN low AND high`; nothing is between nulls. */
  function Between(rows: seq<Record>, low: Option<int>, high: Option<int>): seq<Record> {
    if rows == [] then
      []
    else
      var rest := Between(rows[1..], low, high);
      if low.Some? && high.Some? && low.value <= rows[0].rowId <= high.value then [rows[0]] + rest else rest
  }

  function Number(records: seq<Record>, offset: int): seq<ResultRow> {
    seq(|records|, i requires 0 <= i < |records| => ResultRow(offset + i + 1, records[i].matched, records[i].values))
  }

  /** The two queries: the id range of the page, then the rows in that range. */
  function PageAt(table: seq<Record>, pageSize: nat, offset: nat): seq<ResultRow> {
    var ids := LimitOffset(OrderById(table), pageSize, offset);
    Number(OrderById(Between(table, MinId(ids), MaxId(ids))), offset)
  }

  function Offset(page: nat, pageSize: nat): nat
    requires page >= 1
  {
    (page - 1) * pageSize
  }

  /** `read_results_page`. */
  function ReadResultsPage(table: seq<Record>, totalRows: int, page: int, pageSize: int): ResultsPage {
    var page := Larger(1, page);
    var pageSize := Larger(1, Smaller(pageSize, MAX_PAGE_SIZE));
    ResultsPage(PageAt(table, pageSize, Offset(page, pageSize)), page, pageSize, totalRows)
  }

  // --- ordering ---

  ghost predicate UniqueIds(table: seq<Record>) {
    forall i, j | 0 <= i < j < |table| :: table[i].rowId != table[j].rowId
  }

  ghost predicate Increasing(rows: seq<Record>) {
    forall i, j | 0 <= i < j < |rows| :: rows[i].rowId < rows[j].rowId
  }

  ghost predicate SameRows(a: seq<Record>, b: seq<Record>) {
    forall x: Record :: x in a <==> x in b
  }

  lemma {:induction false} InsertHolds(r: Record, sorted: seq<Record>, x: Record)
    ensures x in Insert(r, sorted) <==> x == r || x in sorted
  {
    if sorted != [] && r.rowId > sorted[0].rowId {
      InsertHolds(r, sorted[1..], x);
      assert sorted == [sorted[0]] + sorted[1..];
    }
  }

  lemma {:induction false} InsertOrders(r: Record, sorted: seq<Record>)
    requires Increasing(sorted) && forall x | x in sorted :: x.rowId != r.rowId
    ensures Increasing(Insert(r, sorted))
  {
    if sorted != [] && r.rowId > sorted[0].rowId {
      var rest := Insert(r, sorted[1..]);
      InsertOrders(r, sorted[1..]);
      forall x | x in rest ensures sorted[0].rowId < x.rowId {
        InsertHolds(r, sorted[1..], x);
      }
    }
  }

  lemma {:induction false} OrderHolds(table: seq<Record>)
    ensures SameRows(OrderById(table), table)
    ensures |OrderById(table)| == |table|
  {
    if table != [] {
      var sorted := OrderById(table[1..]);
      OrderHolds(table[1..]);
      assert table == [table[0]] + table[1..];
      InsertLength(table[0], sorted);
      forall x: Record ensures x in OrderById(table) <==> x in table {
        InsertHolds(table[0], sorted, x);
      }
    }
  }

  lemma {:induction false} InsertLength(r: Record, sorted: seq<Record>)
    ensures |Insert(r, sorted)| == |sorted| + 1
  {
    if sorted != [] && r.rowId > sorted[0].rowId {
      InsertLength(r, sorted[1..]);
    }
  }

  lemma {:induction false} OrderOrders(table: seq<Record>)
    requires UniqueIds(table)
    ensures Increasing(OrderById(table))
  {
    if table != [] {
      OrderOrders(table[1..]);
      OrderHolds(table[1..]);
      forall x | x in OrderById(table[1..]) ensures x.rowId != table[0].rowId {
        var i :| 0 <= i < |table[1..]| && table[1..][i] == x;
        assert table[i + 1] == x;
      }
      InsertOrders(table[0], OrderById(table[1..]));
    }
  }

  /** Rows with increasing ids are decided by which rows they are. */
  lemma {:induction false} IncreasingIsUnique(a: seq<Record>, b: seq<Record>)
    requires Increasing(a) && Increasing(b) && SameRows(a, b)
    ensures a == b
  {
    if a == [] {
      EmptyOrNot(b);
    } else {
      assert a[0] in b;
      SameHead(a, b);
      TailsSame(a, b);
      IncreasingIsUnique(a[1..], b[1..]);
    }
  }

  lemma EmptyOrNot(b: seq<Record>)
    ensures b == [] || exists x: Record :: x in b
  {
    if b != [] {
      assert b[0] in b;
    }
  }

  lemma SameHead(a: seq<Record>, b: seq<Record>)
    requires Increasing(a) && Increasing(b) && SameRows(a, b) && a != [] && b != []
    ensures a[0] == b[0]
  {
    assert a[0] in b && b[0] in a;
    var i :| 0 <= i < |a| && a[i] == b[0];
    var j :| 0 <= j < |b| && b[j] == a[0];
  }

  lemma TailsSame(a: seq<Record>, b: seq<Record>)
    requires Increasing(a) && Increasing(b) && SameRows(a, b) && a != [] && b != [] && a[0] == b[0]
    ensures SameRows(a[1..], b[1..]) && a == [a[0]] + a[1..] && b == [b[0]] + b[1..]
  {
    forall x: Record ensures x in a[1..] <==> x in b[1..] {
      TailRows(a, x);
      TailRows(b, x);
    }
  }

  lemma TailRows(a: seq<Record>, x: Record)
    requires Increasing(a) && a != []
    ensures x in a[1..] <==> x in a && x != a[0]
  {
    if x in a && x != a[0] {
      var i :| 0 <= i < |a| && a[i] == x;
      assert a[1..][i - 1] == x;
    }
  }

  // --- ranges ---

  lemma {:induction false} BetweenHolds(rows: seq<Record>, low: int, high: int, x: Record)
    ensures x in Between(rows, Some(low), Some(high)) <==> x in rows && low <= x.rowId <= high
  {
    if rows != [] {
      BetweenHolds(rows[1..], low, high, x);
      assert rows == [rows[0]] + rows[1..];
    }
  }

  lemma {:induction false} BetweenUnique(rows: seq<Record>, low: int, high: int)
    requires UniqueIds(rows)
    ensures UniqueIds(Between(rows, Some(low), Some(high)))
  {
    if rows != [] {
      var rest := Between(rows[1..], Some(low), Some(high));
      BetweenUnique(rows[1..], low, high);
      forall x | x in rest ensures x.rowId != rows[0].rowId {
        BetweenHolds(rows[1..], low, high, x);
        var i :| 0 <= i < |rows[1..]| && rows[1..][i] == x;
        assert rows[i + 1] == x;
      }
    }
  }

  lemma {:induction false} BetweenNulls(rows: seq<Record>)
    ensures Between(rows, None, None) == []
  {
    if rows != [] {
      BetweenNulls(rows[1..]);
    }
  }

  lemma {:induction false} RangeOfIncreasing(rows: seq<Record>)
    requires Increasing(rows) && rows != []
    ensures MinId(rows) == Some(rows[0].rowId) && MaxId(rows) == Some(rows[|rows| - 1].rowId)
  {
    if |rows| > 1 {
      RangeOfIncreasing(rows[1..]);
    }
  }

  lemma SliceHolds(sorted: seq<Record>, from: nat, to: nat, x: Record)
    requires Increasing(sorted) && from < to <= |sorted|
    ensures x in sorted[from..to] <==> x in sorted && sorted[from].rowId <= x.rowId <= sorted[to - 1].rowId
  {
    if x in sorted && sorted[from].rowId <= x.rowId <= sorted[to - 1].rowId {
      var i :| 0 <= i < |sorted| && sorted[i] == x;
      assert sorted[from..to][i - from] == x;
    }
  }

  /** The rows of an id range, ordered. */
  lemma RangeHolds(table: seq<Record>, low: int, high: int)
    requires UniqueIds(table)
    ensures var range := OrderById(Between(table, Some(low), Some(high)));
            Increasing(range) && forall x: Record :: x in range <==> x in table && low <= x.rowId <= high
  {
    var range := Between(table, Some(low), Some(high));
    BetweenUnique(table, low, high);
    OrderHolds(range);
    OrderOrders(range);
    forall x: Record ensures x in OrderById(range) <==> x in table && low <= x.rowId <= high {
      BetweenHolds(table, low, high, x);
    }
  }

  lemma SliceIsRange(sorted: seq<Record>, from: nat, to: nat)
    requires Increasing(sorted) && from < to <= |sorted|
    ensures var slice := sorted[from..to];
            && Increasing(slice)
            && MinId(slice) == Some(sorted[from].rowId)
            && MaxId(slice) == Some(sorted[to - 1].rowId)
            && forall x: Record :: x in slice <==> x in sorted && sorted[from].rowId <= x.rowId <= sorted[to - 1].rowId
  {
    RangeOfIncreasing(sorted[from..to]);
    forall x: Record
      ensures x in sorted[from..to] <==> x in sorted && sorted[from].rowId <= x.rowId <= sorted[to - 1].rowId
    {
      SliceHolds(sorted, from, to, x);
    }
  }

  /** The rows between the first and the last id of a slice of the ordered table, in order, are the
      slice. */
  lemma RangeIsSlice(table: seq<Record>, from: nat, to: nat)
    requires UniqueIds(table) && from < to <= |OrderById(table)|
    ensures var slice := OrderById(table)[from..to];
            OrderById(Between(table, MinId(slice), MaxId(slice))) == slice
  {
    var sorted := OrderById(table);
    OrderHolds(table);
    OrderOrders(table);
    SliceIsRange(sorted, from, to);
    RangeHolds(table, sorted[from].rowId, sorted[to - 1].rowId);
    var found := OrderById(Between(table, Some(sorted[from].rowId), Some(sorted[to - 1].rowId)));
    IncreasingIsUnique(found, sorted[from..to]);
  }

  // --- what a page is ---

  /** The two queries give the rows [offset, offset + size) of the ordered table, in whatever order
      the files store the rows, and nothing past the end. */
  lemma TwoQueriesAreSlice(table: seq<Record>, pageSize: nat, offset: nat)
    requires UniqueIds(table) && pageSize >= 1
    ensures PageAt(table, pageSize, offset) == Number(LimitOffset(OrderById(table), pageSize, offset), offset)
  {
    var sorted := OrderById(table);
    if offset < |sorted| {
      RangeIsSlice(table, offset, Smaller(offset + pageSize, |sorted|));
    } else {
      BetweenNulls(table);
    }
  }

  /** The row shown at a place is the record of that place, with its number counted from 1. */
  predicate Shows(row: ResultRow, record: Record, place: int) {
    row.rowNumber == place + 1 && row.matched == record.matched && row.values == record.values
  }

  lemma NumberShows(records: seq<Record>, offset: int)
    ensures |Number(records, offset)| == |records|
    ensures forall i | 0 <= i < |records| :: Shows(Number(records, offset)[i], records[i], offset + i)
  {
  }

  /** The page a request asks for: its number is at least 1 and its size between 1 and 500, as asked
      where they can be; its rows are the places (page - 1) * size and on of the ordered table. */
  lemma TwoStepReadIsSlice(table: seq<Record>, totalRows: int, page: int, pageSize: int)
    returns (p: ResultsPage, offset: nat)
    requires UniqueIds(table)
    ensures p == ReadResultsPage(table, totalRows, page, pageSize) && p.totalRows == totalRows
    ensures p.page == if page >= 1 then page else 1
    ensures p.pageSize == if pageSize < 1 then 1 else if pageSize > 500 then 500 else pageSize
    ensures offset == (p.page - 1) * p.pageSize
    ensures |p.rows| == if offset >= |table| then 0
                        else if offset + p.pageSize <= |table| then p.pageSize else |table| - offset
    ensures |OrderById(table)| == |table|
    ensures forall i | 0 <= i < |p.rows| :: Shows(p.rows[i], OrderById(table)[offset + i], offset + i)
    ensures p.rows == Number(LimitOffset(OrderById(table), p.pageSize, offset), offset)
  {
    p := ReadResultsPage(table, totalRows, page, pageSize);
    offset := Offset(p.page, p.pageSize);
    TwoQueriesAreSlice(table, p.pageSize, offset);
    OrderHolds(table);
    NumberShows(LimitOffset(OrderById(table), p.pageSize, offset), offset);
  }

  // --- all pages ---

  function Joined(pages: seq<seq<ResultRow>>): seq<ResultRow> {
    if pages == [] then [] else Joined(pages[..|pages| - 1]) + pages[|pages| - 1]
  }

  /** The pages from 1 on, as the reader serves them one request at a time. */
  predicate Served(table: seq<Record>, totalRows: int, pageSize: int, pages: seq<seq<ResultRow>>) {
    forall k | 0 <= k < |pages| :: pages[k] == ReadResultsPage(table, totalRows, k + 1, pageSize).rows
  }

  /** How many rows the first `n` pages hold, when there are enough. */
  function RowsBefore(n: nat, pageSize: nat): nat {
    if n == 0 then 0 else RowsBefore(n - 1, pageSize) + pageSize
  }

  lemma {:induction false} RowsBeforeIsProduct(n: nat, pageSize: nat)
    ensures RowsBefore(n, pageSize) == n * pageSize
  {
    if n > 0 {
      RowsBeforeIsProduct(n - 1, pageSize);
    }
  }

  function Upto(rows: seq<Record>, n: nat): seq<Record> {
    rows[..Smaller(n, |rows|)]
  }

  /** `rows` is the slice that follows the rows of `k` pages. */
  ghost predicate IsSlice(rows: seq<ResultRow>, sorted: seq<Record>, size: nat, k: nat) {
    rows == Number(LimitOffset(sorted, size, RowsBefore(k, size)), RowsBefore(k, size))
  }

  lemma {:induction false} SlicesJoin(pages: seq<seq<ResultRow>>, sorted: seq<Record>, size: nat)
    requires forall k | 0 <= k < |pages| :: IsSlice(pages[k], sorted, size, k)
    ensures Joined(pages) == Number(Upto(sorted, RowsBefore(|pages|, size)), 0)
  {
    if pages != [] {
      var n := |pages| - 1;
      var init, offset := pages[..n], RowsBefore(n, size);
      forall k | 0 <= k < n ensures IsSlice(init[k], sorted, size, k) {
        assert init[k] == pages[k] && IsSlice(pages[k], sorted, size, k);
      }
      SlicesJoin(init, sorted, size);
      assert IsSlice(pages[n], sorted, size, n);
      PrefixGrows(sorted, offset, size);
      LastPage(pages, sorted, size, offset);
    }
  }

  lemma LastPage(pages: seq<seq<ResultRow>>, sorted: seq<Record>, size: nat, offset: nat)
    requires pages != [] && pages[|pages| - 1] == Number(LimitOffset(sorted, size, offset), offset)
    requires Joined(pages[..|pages| - 1]) == Number(Upto(sorted, offset), 0)
    requires Number(Upto(sorted, offset + size), 0) ==
             Number(Upto(sorted, offset), 0) + Number(LimitOffset(sorted, size, offset), offset)
    ensures Joined(pages) == Number(Upto(sorted, offset + size), 0)
  {
  }

  lemma OffsetIsRowsBefore(n: nat, pageSize: nat)
    ensures Offset(n + 1, pageSize) == RowsBefore(n, pageSize)
  {
    RowsBeforeIsProduct(n, pageSize);
  }

  lemma PageIsSlice(table: seq<Record>, totalRows: int, n: nat, pageSize: nat)
    requires UniqueIds(table) && 1 <= pageSize <= MAX_PAGE_SIZE
    ensures IsSlice(ReadResultsPage(table, totalRows, n + 1, pageSize).rows, OrderById(table), pageSize, n)
  {
    var p, offset := TwoStepReadIsSlice(table, totalRows, n + 1, pageSize);
    OffsetIsRowsBefore(n, pageSize);
  }

  lemma ServedAreSlices(table: seq<Record>, totalRows: int, pageSize: nat, pages: seq<seq<ResultRow>>)
    requires UniqueIds(table) && 1 <= pageSize <= MAX_PAGE_SIZE && Served(table, totalRows, pageSize, pages)
    ensures forall k | 0 <= k < |pages| :: IsSlice(pages[k], OrderById(table), pageSize, k)
  {
    forall k | 0 <= k < |pages| ensures IsSlice(pages[k], OrderById(table), pageSize, k) {
      PageIsSlice(table, totalRows, k, pageSize);
    }
  }

  lemma PrefixGrows(sorted: seq<Record>, offset: nat, size: nat)
    ensures Number(Upto(sorted, offset + size), 0) ==
            Number(Upto(sorted, offset), 0) + Number(LimitOffset(sorted, size, offset), offset)
  {
    if offset < |sorted| {
      var to := Smaller(offset + size, |sorted|);
      assert sorted[..to] == sorted[..offset] + sorted[offset..to];
    }
  }

  lemma UptoAll(rows: seq<Record>, n: nat)
    requires n >= |rows|
    ensures Upto(rows, n) == rows
  {
  }

  /** Pages 1 to `total_pages` show the whole table in id order, numbered from 1 without a gap. */
  lemma PagesShowTheTable(table: seq<Record>, pageSize: int, pages: seq<seq<ResultRow>>)
    requires UniqueIds(table) && 1 <= pageSize <= MAX_PAGE_SIZE
    requires Served(table, |table|, pageSize, pages)
    requires |pages| == ReadResultsPage(table, |table|, 1, pageSize).TotalPages()
    ensures |Joined(pages)| == |table| == |OrderById(table)|
    ensures forall i | 0 <= i < |table| :: Shows(Joined(pages)[i], OrderById(table)[i], i)
  {
    PagesJoin(table, pageSize, pages);
    OrderHolds(table);
    NumberShows(OrderById(table), 0);
  }

  lemma PagesJoin(table: seq<Record>, pageSize: int, pages: seq<seq<ResultRow>>)
    requires UniqueIds(table) && 1 <= pageSize <= MAX_PAGE_SIZE
    requires Served(table, |table|, pageSize, pages)
    requires |pages| == ReadResultsPage(table, |table|, 1, pageSize).TotalPages()
    ensures Joined(pages) == Number(OrderById(table), 0)
  {
    TotalPagesOf(table, pageSize);
    ServedAreSlices(table, |table|, pageSize, pages);
    SlicesJoin(pages, OrderById(table), pageSize);
    OrderHolds(table);
    UptoAll(OrderById(table), RowsBefore(|pages|, pageSize));
  }

  /** `total_pages` is the least number of pages, at least one, that has room for every row. */
  lemma TotalPagesExactly(table: seq<Record>, pageSize: nat)
    requires 1 <= pageSize <= MAX_PAGE_SIZE
    ensures var pages := ReadResultsPage(table, |table|, 1, pageSize).TotalPages();
            && pages >= 1 && pages * pageSize >= |table|
            && (table == [] ==> pages == 1)
            && (table != [] ==> (pages - 1) * pageSize < |table|)
  {
    CeilCovers(|table|, pageSize);
    CeilIsLeast(|table|, pageSize);
  }

  lemma CeilIsLeast(n: nat, d: int)
    requires d >= 1
    ensures n >= 1 ==> CeilDiv(n, d) >= 1 && (CeilDiv(n, d) - 1) * d < n
    ensures n == 0 ==> CeilDiv(n, d) <= 0
  {
    var m := n + d - 1;
    var q := m / d;
    assert m == q * d + m % d;
    assert (q - 1) * d == q * d - d;
    if n >= 1 {
      if q <= 0 {
        NotPositive(q, d);
      }
    } else if q >= 1 {
      AtLeast(q, d);
    }
  }

  lemma NotPositive(q: int, d: int)
    requires q <= 0 && d >= 1
    ensures q * d <= 0
  {
  }

  lemma AtLeast(q: int, d: int)
    requires q >= 1 && d >= 1
    ensures q * d >= d
  {
    assert q * d == (q - 1) * d + d;
    NotPositive(1 - q, d);
    assert (1 - q) * d == -((q - 1) * d);
  }

  lemma TotalPagesOf(table: seq<Record>, pageSize: nat)
    requires 1 <= pageSize <= MAX_PAGE_SIZE
    ensures var pages := ReadResultsPage(table, |table|, 1, pageSize).TotalPages();
            pages >= 1 && RowsBefore(pages, pageSize) >= |table|
  {
    var pages := Larger(1, CeilDiv(|table|, pageSize));
    CeilCovers(|table|, pageSize);
    RowsBeforeIsProduct(pages, pageSize);
  }

  lemma CeilCovers(n: nat, d: int)
    requires d >= 1
    ensures Larger(1, CeilDiv(n, d)) * d >= n
  {
    var m := n + d - 1;
    assert m == m / d * d + m % d;
  }

  // --- ids are source order ---

  const PARTITION_STRIDE := 0x2_0000_0000

  /** `monotonically_increasing_id`: the partition in the upper bits, the position in the lower. */
  function SparkId(partition: nat, index: nat): int {
    partition * PARTITION_STRIDE + index
  }

  function Flatten(partitions: seq<seq<Record>>): seq<Record> {
    if partitions == [] then [] else partitions[0] + Flatten(partitions[1..])
  }

  /** Each partition carries the ids Spark gives it, starting with partition `first`. */
  ghost predicate Numbered(partitions: seq<seq<Record>>, first: nat) {
    forall p | 0 <= p < |partitions| ::
      |partitions[p]| <= PARTITION_STRIDE &&
      forall i | 0 <= i < |partitions[p]| :: partitions[p][i].rowId == SparkId(first + p, i)
  }

  lemma {:induction false} SourceOrderIncreases(partitions: seq<seq<Record>>, first: nat)
    requires Numbered(partitions, first)
    ensures Increasing(Flatten(partitions))
    ensures forall r | r in Flatten(partitions) :: r.rowId >= SparkId(first, 0)
  {
    if partitions != [] {
      var head, tail := partitions[0], partitions[1..];
      assert forall p | 0 <= p < |tail| :: tail[p] == partitions[p + 1];
      SourceOrderIncreases(tail, first + 1);
      assert forall i | 0 <= i < |head| :: head[i].rowId == SparkId(first, i) < SparkId(first + 1, 0);
      var all := head + Flatten(tail);
      forall i, j | 0 <= i < j < |all| ensures all[i].rowId < all[j].rowId {
        if i < |head| <= j {
          assert all[j] in Flatten(tail);
        }
      }
    }
  }

  /** However the files store the rows, ordering by id restores the order of the source. */
  lemma OrderIsSourceOrder(partitions: seq<seq<Record>>, table: seq<Record>)
    requires Numbered(partitions, 0) && UniqueIds(table) && SameRows(table, Flatten(partitions))
    ensures OrderById(table) == Flatten(partitions)
  {
    SourceOrderIncreases(partitions, 0);
    OrderHolds(table);
    OrderOrders(table);
    IncreasingIsUnique(OrderById(table), Flatten(partitions));
  }

  /** So the pages of a job's results show the rows in the order of the source file. */
  lemma PagesShowTheSource(partitions: seq<seq<Record>>, table: seq<Record>, pageSize: int, pages: seq<seq<ResultRow>>)
    requires Numbered(partitions, 0) && UniqueIds(table) && SameRows(table, Flatten(partitions))
    requires 1 <= pageSize <= MAX_PAGE_SIZE && Served(table, |table|, pageSize, pages)
    requires |pages| == ReadResultsPage(table, |table|, 1, pageSize).TotalPages()
    ensures |Joined(pages)| == |Flatten(partitions)|
    ensures forall i | 0 <= i < |Flatten(partitions)| :: Shows(Joined(pages)[i], Flatten(partitions)[i], i)
  {
    OrderIsSourceOrder(partitions, table);
    PagesShowTheTable(table, pageSize, pages);
  }
}

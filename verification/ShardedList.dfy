/** Listing access logs across shards: the sort orders, the page taken out of the union of
    limited shards, and following the time cursor from page to page. */
module ShardedList {
  import opened Sums
  import opened AccessLog
  import opened Sorting

  datatype Order = Asc | Desc

  datatype SortColumn = LoggedAt | StatusCode | RemoteAddr | HostName | PathName

  /** A collation, as the position it gives each text; texts may share a position. */
  type Collation = string -> real

  function ColumnValue(c: Collation, column: SortColumn, r: Record): real
  {
    match column
    case LoggedAt => r.loggedAt as real
    case StatusCode => r.status as real
    case RemoteAddr => c(r.remoteAddr)
    case HostName => c(r.host)
    case PathName => c(r.path)
  }

  predicate TimeThenID(order: Order, a: Record, b: Record)
  {
    if order.Asc? then a.loggedAt < b.loggedAt || (a.loggedAt == b.loggedAt && a.id < b.id)
    else b.loggedAt < a.loggedAt || (a.loggedAt == b.loggedAt && b.id < a.id)
  }

  /** The ORDER BY clause: ties on another column go to the newest first. */
  predicate Precedes(c: Collation, column: SortColumn, order: Order, a: Record, b: Record)
  {
    if column.LoggedAt? then TimeThenID(order, a, b) else
      var x, y := ColumnValue(c, column, a), ColumnValue(c, column, b);
      (if order.Asc? then x < y else y < x) || (x == y && TimeThenID(Desc, a, b))
  }

  function OrderBy(c: Collation, column: SortColumn, order: Order): (Record, Record) -> bool
  {
    (a: Record, b: Record) => Precedes(c, column, order, a, b)
  }

  /** The ID decides the shard and is the primary key there. */
  ghost predicate DistinctIDs(rs: seq<Record>)
  {
    forall i, j :: 0 <= i < j < |rs| ==> rs[i].id != rs[j].id
  }

  lemma EveryOrderSeparates(c: Collation, column: SortColumn, order: Order, rs: seq<Record>)
    requires DistinctIDs(rs)
    ensures IsOrder(OrderBy(c, column, order)) && Separates(OrderBy(c, column, order), rs)
  {
  }

  // ----- the orders, field by field -----

  /** The value of a row's field does not fall, or does not rise, along the list. */
  predicate InOrder(order: Order, x: real, y: real)
  {
    match order
    case Asc => x <= y
    case Desc => x >= y
  }

  /** The first row is newer: it has the later time, or the same time and the larger ID. */
  predicate Newer(a: Record, b: Record)
  {
    a.loggedAt > b.loggedAt || (a.loggedAt == b.loggedAt && a.id > b.id)
  }

  /** How two rows of a list stand to each other, column by column. */
  predicate Listed(c: Collation, column: SortColumn, order: Order, a: Record, b: Record)
  {
    match column
    case LoggedAt => if order == Desc then Newer(a, b) else Newer(b, a)
    case StatusCode => InOrder(order, a.status as real, b.status as real) && (a.status == b.status ==> Newer(a, b))
    case RemoteAddr => InOrder(order, c(a.remoteAddr), c(b.remoteAddr)) && (c(a.remoteAddr) == c(b.remoteAddr) ==> Newer(a, b))
    case HostName => InOrder(order, c(a.host), c(b.host)) && (c(a.host) == c(b.host) ==> Newer(a, b))
    case PathName => InOrder(order, c(a.path), c(b.path)) && (c(a.path) == c(b.path) ==> Newer(a, b))
  }

  lemma PrecedesMeaning(c: Collation, column: SortColumn, order: Order, a: Record, b: Record)
    ensures Precedes(c, column, order, a, b) <==> Listed(c, column, order, a, b)
  {
  }

  // ----- the time cursor -----

  datatype Cursor = Cursor(loggedAt: int, id: nat)

  const NO_CURSOR: Cursor := Cursor(ZERO_TIME, 0)

  predicate Usable(cursor: Cursor)
  {
    cursor.loggedAt != ZERO_TIME && cursor.id != 0
  }

  /** The WHERE condition the cursor adds; half a cursor, or one beside another sort column,
      adds nothing. */
  predicate AfterCursor(column: SortColumn, order: Order, cursor: Cursor, r: Record)
  {
    Usable(cursor) && column.LoggedAt? ==>
      if order.Asc? then r.loggedAt > cursor.loggedAt || (r.loggedAt == cursor.loggedAt && r.id > cursor.id)
      else r.loggedAt < cursor.loggedAt || (r.loggedAt == cursor.loggedAt && r.id < cursor.id)
  }

  datatype ListQuery = ListQuery(
    filter: Record -> bool,
    column: SortColumn,
    order: Order,
    cursor: Cursor,
    page: int,
    pageSize: int,
    lookahead: int)

  function Where(q: ListQuery): Record -> bool
  {
    (r: Record) => q.filter(r) && AfterCursor(q.column, q.order, q.cursor, r)
  }

  function Offset(q: ListQuery): nat
  {
    if q.pageSize > 0 then Times(if q.page < 0 then 0 else q.page, q.pageSize) else 0
  }

  function Times(a: nat, b: nat): nat
  {
    a * b
  }

  function OuterLimit(q: ListQuery): nat
  {
    if q.pageSize > 0 then q.pageSize + (if q.lookahead > 0 then q.lookahead else 0) else 0
  }

  /** The page of a plain list: sort every matching row, then cut. */
  function PlainPage(c: Collation, rs: seq<Record>, q: ListQuery): seq<Record>
  {
    Cut(Sort(OrderBy(c, q.column, q.order), Select(rs, Where(q))), q)
  }

  /** The branches of the statement, joined by UNION ALL. */
  method UnionBranches(less: (Record, Record) -> bool, filter: Record -> bool, shards: seq<seq<Record>>, shardLimit: nat)
    returns (rows: seq<Record>)
    ensures rows == Union(less, filter, shards, shardLimit)
  {
    rows := [];
    for i := 0 to |shards|
      invariant rows == Union(less, filter, shards[..i], shardLimit)
    {
      var branch := Select(shards[i], filter);
      if shardLimit > 0 {
        branch := Take(Sort(less, branch), shardLimit);
      }
      assert shards[..i + 1][..i] == shards[..i];
      rows := rows + branch;
    }
    assert shards[..|shards|] == shards;
  }

  /** LIMIT and OFFSET of the outer statement, if it has them. */
  method LimitRows(sorted: seq<Record>, offset: nat, outerLimit: nat) returns (rows: seq<Record>)
    ensures rows == if outerLimit > 0 then Drop(Take(sorted, offset + outerLimit), offset) else sorted
  {
    rows := sorted;
    if outerLimit > 0 {
      rows := Drop(Take(rows, offset + outerLimit), offset);
    }
  }

  /** One statement over all shards, each limited on its own first: the page is the page of
      the plain list, whatever the shards, the filter and the sort column. */
  method ListAcrossShards(c: Collation, shards: seq<seq<Record>>, q: ListQuery) returns (rows: seq<Record>)
    requires DistinctIDs(Flatten(shards))
    ensures rows == PlainPage(c, Flatten(shards), q)
    ensures forall i, j :: 0 <= i < j < |rows| ==> Listed(c, q.column, q.order, rows[i], rows[j])
    ensures forall r :: r in rows <==> OnPage(c, Flatten(shards), q, r)
  {
    var less := OrderBy(c, q.column, q.order);
    var offset, outerLimit, shardLimit := PageLimits(q);
    rows := UnionBranches(less, Where(q), shards, shardLimit);
    rows := LimitRows(Sort(less, rows), offset, outerLimit);
    PageOfUnion(c, shards, q);
    PageMeaning(c, Flatten(shards), q);
  }

  method PageLimits(q: ListQuery) returns (offset: nat, outerLimit: nat, shardLimit: nat)
    ensures offset == Offset(q) && outerLimit == OuterLimit(q) && shardLimit == ShardLimit(q)
  {
    var page := if q.page < 0 then 0 else q.page;
    offset, outerLimit, shardLimit := 0, 0, 0;
    if q.pageSize > 0 {
      offset := Times(page, q.pageSize);
      outerLimit := q.pageSize + (if q.lookahead > 0 then q.lookahead else 0);
      shardLimit := offset + outerLimit;
    }
  }

  /** How many rows of each shard a page can need; none means all. */
  function ShardLimit(q: ListQuery): nat
  {
    if q.pageSize > 0 then Offset(q) + OuterLimit(q) else 0
  }

  function Cut(rows: seq<Record>, q: ListQuery): seq<Record>
  {
    if OuterLimit(q) > 0 then Drop(Take(rows, Offset(q) + OuterLimit(q)), Offset(q)) else rows
  }

  lemma {:induction false} PageOfUnion(c: Collation, shards: seq<seq<Record>>, q: ListQuery)
    requires DistinctIDs(Flatten(shards))
    ensures var less := OrderBy(c, q.column, q.order);
            PlainPage(c, Flatten(shards), q) == Cut(Sort(less, Union(less, Where(q), shards, ShardLimit(q))), q)
  {
    EveryOrderSeparates(c, q.column, q.order, Flatten(shards));
    LimitPushDown(OrderBy(c, q.column, q.order), Where(q), shards, ShardLimit(q));
  }

  // ----- which rows a page has -----

  /** The matching rows that come before a row. */
  function RowsBefore(c: Collation, rs: seq<Record>, q: ListQuery, r: Record): nat
  {
    |Select(Select(rs, Where(q)), ListedBefore(c, q, r))|
  }

  function ListedBefore(c: Collation, q: ListQuery, r: Record): Record -> bool
  {
    (x: Record) => Listed(c, q.column, q.order, x, r)
  }

  /** A matching row, with as many matching rows before it as the pages before it hold, and fewer than
      with this page and the lookahead. Without a page size every matching row is listed. */
  predicate OnPage(c: Collation, rs: seq<Record>, q: ListQuery, r: Record)
  {
    && r in rs && q.filter(r) && AfterCursor(q.column, q.order, q.cursor, r)
    && (q.pageSize > 0 ==>
          var first := if q.page > 0 then q.page * q.pageSize else 0;
          first <= RowsBefore(c, rs, q, r) < first + q.pageSize + (if q.lookahead > 0 then q.lookahead else 0))
  }

  /** The position of a row in the sorted list is the number of rows before it. */
  lemma {:induction false} RankIsPosition(less: (Record, Record) -> bool, s: seq<Record>, p: Record -> bool, i: nat)
    requires i <= |s| && forall j :: 0 <= j < |s| ==> (p(s[j]) <==> j < i)
    ensures |Select(s, p)| == i
    decreases |s|
  {
    if s != [] {
      var n := |s| - 1;
      RankIsPosition(less, s[..n], p, if i <= n then i else n);
    }
  }

  lemma RankInList(c: Collation, rs: seq<Record>, q: ListQuery, i: nat)
    requires DistinctIDs(rs) && i < |Sort(OrderBy(c, q.column, q.order), Select(rs, Where(q)))|
    ensures RowsBefore(c, rs, q, Sort(OrderBy(c, q.column, q.order), Select(rs, Where(q)))[i]) == i
  {
    var less := OrderBy(c, q.column, q.order);
    var s := Sort(less, Select(rs, Where(q)));
    var p := ListedBefore(c, q, s[i]);
    EveryOrderSeparates(c, q.column, q.order, rs);
    SelectedOrder(less, rs, Where(q));
    forall j | 0 <= j < |s|
      ensures p(s[j]) <==> j < i
    {
      PrecedesMeaning(c, q.column, q.order, s[j], s[i]);
      assert less(s[j], s[i]) <==> j < i by {
        if i < j {
          assert less(s[i], s[j]);
        }
      }
    }
    RankIsPosition(less, s, p, i);
    SortKeepsRows(less, Select(rs, Where(q)));
    SelectPermutation(s, Select(rs, Where(q)), p);
    assert |multiset(Select(s, p))| == |multiset(Select(Select(rs, Where(q)), p))|;
  }

  lemma PageMeaning(c: Collation, rs: seq<Record>, q: ListQuery)
    requires DistinctIDs(rs)
    ensures var rows := PlainPage(c, rs, q);
            && (forall i, j :: 0 <= i < j < |rows| ==> Listed(c, q.column, q.order, rows[i], rows[j]))
            && (forall r :: r in rows <==> OnPage(c, rs, q, r))
  {
    PageInOrder(c, rs, q);
    forall r
      ensures r in PlainPage(c, rs, q) <==> OnPage(c, rs, q, r)
    {
      PageByRank(c, rs, q, r);
    }
  }

  lemma PageInOrder(c: Collation, rs: seq<Record>, q: ListQuery)
    requires DistinctIDs(rs)
    ensures var rows := PlainPage(c, rs, q);
            forall i, j :: 0 <= i < j < |rows| ==> Listed(c, q.column, q.order, rows[i], rows[j])
  {
    var less := OrderBy(c, q.column, q.order);
    var s, rows := Sort(less, Select(rs, Where(q))), PlainPage(c, rs, q);
    EveryOrderSeparates(c, q.column, q.order, rs);
    SelectedOrder(less, rs, Where(q));
    CutIsSlice(s, q);
    forall i, j | 0 <= i < j < |rows|
      ensures Listed(c, q.column, q.order, rows[i], rows[j])
    {
      assert less(rows[i], rows[j]);
      PrecedesMeaning(c, q.column, q.order, rows[i], rows[j]);
    }
  }

  lemma {:induction false} PageByRank(c: Collation, rs: seq<Record>, q: ListQuery, r: Record)
    requires DistinctIDs(rs)
    ensures r in PlainPage(c, rs, q) <==> OnPage(c, rs, q, r)
  {
    var less := OrderBy(c, q.column, q.order);
    var s := Sort(less, Select(rs, Where(q)));
    EveryOrderSeparates(c, q.column, q.order, rs);
    SelectedOrder(less, rs, Where(q));
    CutIsSlice(s, q);
    if r in s {
      var k :| 0 <= k < |s| && s[k] == r;
      RankInList(c, rs, q, k);
      InSlice(less, s, q, k);
      OffsetMeaning(q, k);
    }
  }

  lemma OffsetMeaning(q: ListQuery, k: nat)
    ensures q.pageSize > 0 ==>
              var first := if q.page > 0 then q.page * q.pageSize else 0;
              Offset(q) == first && OuterLimit(q) == q.pageSize + (if q.lookahead > 0 then q.lookahead else 0)
  {
  }

  /** The rows of a page are consecutive in the sorted list. */
  lemma CutIsSlice(s: seq<Record>, q: ListQuery)
    ensures var o := if q.pageSize > 0 then Offset(q) else 0;
            forall i :: 0 <= i < |Cut(s, q)| ==> o + i < |s| && Cut(s, q)[i] == s[o + i]
    ensures forall r :: r in Cut(s, q) ==> r in s
  {
    if q.pageSize > 0 {
      SliceOf(s, Offset(q), OuterLimit(q));
      assert Cut(s, q) == Drop(Take(s, Offset(q) + OuterLimit(q)), Offset(q));
    } else {
      assert Cut(s, q) == s;
    }
  }

  lemma SliceOf(s: seq<Record>, offset: nat, limit: nat)
    ensures var rows := Drop(Take(s, offset + limit), offset);
            && (forall i :: 0 <= i < |rows| ==> offset + i < |s| && rows[i] == s[offset + i])
            && (forall r :: r in rows ==> r in s)
  {
    var rows := Drop(Take(s, offset + limit), offset);
    forall r | r in rows
      ensures r in s
    {
      var i :| 0 <= i < |rows| && rows[i] == r;
      assert s[offset + i] == r;
    }
  }

  lemma CutLength(s: seq<Record>, q: ListQuery, k: nat)
    requires k < |s|
    ensures q.pageSize > 0 && Offset(q) <= k ==> (k - Offset(q) < |Cut(s, q)| <==> k < Offset(q) + OuterLimit(q))
    ensures q.pageSize <= 0 ==> Cut(s, q) == s
  {
    if q.pageSize > 0 {
      assert OuterLimit(q) > 0;
      SliceLength(s, Offset(q), OuterLimit(q), k);
    }
  }

  lemma SliceLength(s: seq<Record>, offset: nat, limit: nat, k: nat)
    requires k < |s| && limit > 0
    ensures offset <= k ==> (k - offset < |Drop(Take(s, offset + limit), offset)| <==> k < offset + limit)
  {
  }

  lemma NoRowTwice(less: (Record, Record) -> bool, s: seq<Record>)
    requires IsOrder(less) && Sorted(less, s)
    ensures forall i, j :: 0 <= i < |s| && 0 <= j < |s| && s[i] == s[j] ==> i == j
  {
    forall i, j | 0 <= i < |s| && 0 <= j < |s| && i != j
      ensures s[i] != s[j]
    {
      assert less(s[i], s[j]) || less(s[j], s[i]);
    }
  }

  lemma {:induction false} InSlice(less: (Record, Record) -> bool, s: seq<Record>, q: ListQuery, k: nat)
    requires IsOrder(less) && Sorted(less, s) && k < |s|
    ensures s[k] in Cut(s, q) <==> (q.pageSize > 0 ==> Offset(q) <= k < Offset(q) + OuterLimit(q))
  {
    var o := if q.pageSize > 0 then Offset(q) else 0;
    CutIsSlice(s, q);
    CutLength(s, q, k);
    NoRowTwice(less, s);
    MemberAt(Cut(s, q), s, o, k);
  }

  lemma {:induction false} MemberAt(rows: seq<Record>, s: seq<Record>, o: nat, k: nat)
    requires k < |s| && forall i, j :: 0 <= i < |s| && 0 <= j < |s| && s[i] == s[j] ==> i == j
    requires forall i :: 0 <= i < |rows| ==> o + i < |s| && rows[i] == s[o + i]
    ensures s[k] in rows <==> o <= k && k - o < |rows|
  {
    if o <= k && k - o < |rows| {
      assert rows[k - o] == s[k];
    }
  }

  // ----- paging -----

  function FirstPage(filter: Record -> bool, order: Order, size: int, cursor: Cursor): ListQuery
  {
    ListQuery(filter, LoggedAt, order, cursor, 0, size, 1)
  }

  function CursorOf(r: Record): Cursor
  {
    Cursor(r.loggedAt, r.id)
  }

  /** Every matching row, in time order. */
  function Timeline(c: Collation, rs: seq<Record>, filter: Record -> bool, order: Order): seq<Record>
  {
    Sort(OrderBy(c, LoggedAt, order), Select(rs, filter))
  }

  /** What is left of the timeline after a cursor. */
  lemma AfterCursorIsTheRest(c: Collation, rs: seq<Record>, filter: Record -> bool, order: Order, k: nat, q: ListQuery)
    requires DistinctIDs(rs) && k < |Timeline(c, rs, filter, order)|
    requires q.filter == filter && q.order == order && q.column.LoggedAt?
    requires q.cursor == CursorOf(Timeline(c, rs, filter, order)[k]) && Usable(q.cursor)
    ensures Sort(OrderBy(c, LoggedAt, order), Select(rs, Where(q))) == Timeline(c, rs, filter, order)[k + 1..]
  {
    var less := OrderBy(c, LoggedAt, order);
    var s := Timeline(c, rs, filter, order);
    var rest := Sort(less, Select(rs, Where(q)));
    EveryOrderSeparates(c, LoggedAt, order, rs);
    SelectedOrder(less, rs, filter);
    SelectedOrder(less, rs, Where(q));
    assert forall r :: AfterCursor(LoggedAt, order, q.cursor, r) <==> less(s[k], r);
    assert forall r :: r in rest <==> r in s && less(s[k], r);
    SuffixMembers(less, s, k);
    assert Sorted(less, s[k + 1..]);
    SortedIsUnique(less, s[k + 1..], rest);
  }

  lemma SuffixMembers(less: (Record, Record) -> bool, s: seq<Record>, k: nat)
    requires IsOrder(less) && Sorted(less, s) && k < |s|
    ensures forall r :: r in s[k + 1..] <==> r in s && less(s[k], r)
  {
    forall i | 0 <= i < |s|
      ensures less(s[k], s[i]) <==> i > k
    {
      if i < k {
        assert less(s[i], s[k]);
      }
    }
    forall r | r in s && less(s[k], r)
      ensures r in s[k + 1..]
    {
      var i :| 0 <= i < |s| && s[i] == r;
      assert s[k + 1..][i - k - 1] == r;
    }
  }

  /** Without a usable cursor the list starts over. */
  lemma NoCursorStartsOver(rs: seq<Record>, q: ListQuery)
    requires !Usable(q.cursor)
    ensures Select(rs, Where(q)) == Select(rs, q.filter)
  {
    SelectCongruence(rs, Where(q), q.filter);
  }

  /** One request: a page with one row of lookahead, and the cursor of its last row if more
      rows follow. A row without a time or an ID yields no cursor. */
  method ListPage(c: Collation, shards: seq<seq<Record>>, filter: Record -> bool, order: Order, size: nat, cursor: Cursor)
    returns (page: seq<Record>, next: Cursor)
    requires DistinctIDs(Flatten(shards)) && size > 0
    ensures var rest := Remaining(c, Flatten(shards), filter, order, size, cursor);
            && page == Take(rest, size)
            && (Usable(next) <==> |rest| > size && Usable(CursorOf(rest[size - 1])))
            && (Usable(next) ==> next == CursorOf(rest[size - 1]))
            && (next != NO_CURSOR <==> |rest| > size && rest[size - 1].loggedAt != ZERO_TIME && rest[size - 1].id != 0)
    ensures cursor.loggedAt == ZERO_TIME || cursor.id == 0 ==> page == Take(Timeline(c, Flatten(shards), filter, order), size)
  {
    if !Usable(cursor) {
      NoCursorStartsOver(Flatten(shards), FirstPage(filter, order, size, cursor));
    }
    page := ListAcrossShards(c, shards, FirstPage(filter, order, size, cursor));
    next := NO_CURSOR;
    var hasMore := |page| > size;
    if hasMore {
      page := page[..size];
      if Usable(CursorOf(page[size - 1])) {
        next := CursorOf(page[size - 1]);
      }
    }
  }

  /** Every page that has a successor ends in a row with a time and an ID. */
  predicate PageEndsUsable(s: seq<Record>, size: nat)
    requires size > 0
  {
    |s| <= size || (Usable(CursorOf(s[size - 1])) && PageEndsUsable(s[size..], size))
  }

  /** What a request with this cursor lists from. */
  function Remaining(c: Collation, rs: seq<Record>, filter: Record -> bool, order: Order, size: nat, cursor: Cursor): seq<Record>
  {
    Sort(OrderBy(c, LoggedAt, order), Select(rs, Where(FirstPage(filter, order, size, cursor))))
  }

  /** Following the cursor over a fixed table visits a prefix of the timeline, each row once and
      in order, and stops; it visits all of it exactly when every page end yields a cursor. */
  method FollowCursor(c: Collation, shards: seq<seq<Record>>, filter: Record -> bool, order: Order, size: nat)
    returns (visited: seq<Record>)
    requires DistinctIDs(Flatten(shards)) && size > 0
    ensures visited <= Timeline(c, Flatten(shards), filter, order)
    ensures visited == Timeline(c, Flatten(shards), filter, order)
            <==> PageEndsUsable(Timeline(c, Flatten(shards), filter, order), size)
    ensures visited == UpToBadEnd(Timeline(c, Flatten(shards), filter, order), size)
    ensures forall i, j :: 0 <= i < j < |visited| ==> Listed(c, LoggedAt, order, visited[i], visited[j])
  {
    ghost var rs := Flatten(shards);
    ghost var s := Timeline(c, rs, filter, order);
    ghost var rest := s;
    var cursor, more := NO_CURSOR, true;
    visited := [];
    NoCursorStartsOver(rs, FirstPage(filter, order, size, cursor));
    while more
      invariant OnTrack(s, size, visited, rest, more)
      invariant Reaches(c, rs, filter, order, size, cursor, more, rest)
      decreases more, |rest|
    {
      var page, next := ListPage(c, shards, filter, order, size, cursor);
      PageStep(s, size, visited, rest);
      CursorStep(c, rs, filter, order, size, visited, rest, next);
      visited, more, cursor := visited + page, Usable(next), next;
      rest := Drop(rest, size);
    }
    TimelineInOrder(c, rs, filter, order);
  }

  /** The timeline up to the first page that has a successor and does not end in a cursor. */
  function UpToBadEnd(s: seq<Record>, size: nat): seq<Record>
    requires size > 0
  {
    if |s| <= size then s
    else if Usable(CursorOf(s[size - 1])) then s[..size] + UpToBadEnd(s[size..], size)
    else s[..size]
  }

  lemma TimelineInOrder(c: Collation, rs: seq<Record>, filter: Record -> bool, order: Order)
    requires DistinctIDs(rs)
    ensures var s := Timeline(c, rs, filter, order);
            forall i, j :: 0 <= i < j < |s| ==> Listed(c, LoggedAt, order, s[i], s[j])
  {
    var less, s := OrderBy(c, LoggedAt, order), Timeline(c, rs, filter, order);
    EveryOrderSeparates(c, LoggedAt, order, rs);
    SelectedOrder(less, rs, filter);
    forall i, j | 0 <= i < j < |s|
      ensures Listed(c, LoggedAt, order, s[i], s[j])
    {
      assert less(s[i], s[j]);
      PrecedesMeaning(c, LoggedAt, order, s[i], s[j]);
    }
  }

  ghost predicate Reaches(c: Collation, rs: seq<Record>, filter: Record -> bool, order: Order, size: nat,
                          cursor: Cursor, more: bool, rest: seq<Record>)
  {
    more ==> Remaining(c, rs, filter, order, size, cursor) == rest
  }

  lemma CursorStep(c: Collation, rs: seq<Record>, filter: Record -> bool, order: Order, size: nat,
                   visited: seq<Record>, rest: seq<Record>, next: Cursor)
    requires DistinctIDs(rs) && size > 0 && Timeline(c, rs, filter, order) == visited + rest
    requires Usable(next) ==> |rest| > size && next == CursorOf(rest[size - 1])
    ensures Reaches(c, rs, filter, order, size, next, Usable(next), Drop(rest, size))
  {
    if Usable(next) {
      var k := |visited| + size - 1;
      assert Timeline(c, rs, filter, order)[k] == rest[size - 1];
      assert Timeline(c, rs, filter, order)[k + 1..] == Drop(rest, size);
      AfterCursorIsTheRest(c, rs, filter, order, k, FirstPage(filter, order, size, next));
    }
  }

  /** How far the walk has come: what is visited, what is left, and whether it can still reach it. */
  ghost predicate OnTrack(s: seq<Record>, size: nat, visited: seq<Record>, rest: seq<Record>, more: bool)
    requires size > 0
  {
    && s == visited + rest
    && (PageEndsUsable(s, size) <==> if more then PageEndsUsable(rest, size) else rest == [])
    && UpToBadEnd(s, size) == visited + if more then UpToBadEnd(rest, size) else []
  }

  lemma {:induction false} PageStep(s: seq<Record>, size: nat, visited: seq<Record>, rest: seq<Record>)
    requires size > 0 && OnTrack(s, size, visited, rest, true)
    ensures OnTrack(s, size, visited + Take(rest, size), Drop(rest, size), |rest| > size && Usable(CursorOf(rest[size - 1])))
  {
    assert visited + Take(rest, size) + Drop(rest, size) == visited + rest;
    WalkStep(visited, rest, size);
  }

  lemma {:induction false} WalkStep(visited: seq<Record>, rest: seq<Record>, size: nat)
    requires size > 0
    ensures visited + UpToBadEnd(rest, size) == visited + Take(rest, size)
            + if |rest| > size && Usable(CursorOf(rest[size - 1])) then UpToBadEnd(Drop(rest, size), size) else []
  {
    BadEndNext(rest, size);
  }

  lemma {:induction false} BadEndNext(rest: seq<Record>, size: nat)
    requires size > 0
    ensures UpToBadEnd(rest, size) == Take(rest, size)
            + if |rest| > size && Usable(CursorOf(rest[size - 1])) then UpToBadEnd(Drop(rest, size), size) else []
  {
  }

  /** With times and IDs on all rows, as the insert path assigns them, the walk is complete. */
  lemma {:induction false} StoredRowsAreUsable(s: seq<Record>, size: nat)
    requires size > 0 && forall r :: r in s ==> r.loggedAt != ZERO_TIME && r.id != 0
    ensures PageEndsUsable(s, size)
    decreases |s|
  {
    if |s| > size {
      assert s[size - 1] in s;
      StoredRowsAreUsable(s[size..], size);
    }
  }
}

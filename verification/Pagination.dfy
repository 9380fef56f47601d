/** EndlessPagination: three paginators, each held to the page specification of module Feed. */
module Pagination {
  import opened Outcomes
  import opened Text
  import opened Feed
  import opened OwnerRows
  import opened OwnerTables

  const MAX_TIMESTAMP := 9999999999999999

  // ---------- order_by('-created_at') ----------

  function Insert(r: Row, s: seq<Row>): seq<Row> {
    if s == [] || s[0].createdAt <= r.createdAt then [r] + s else [s[0]] + Insert(r, s[1..])
  }

  function OrderByNewest(s: seq<Row>): seq<Row> {
    if s == [] then [] else Insert(s[0], OrderByNewest(s[1..]))
  }

  /** No two rows share a timestamp. */
  ghost predicate DistinctTimes(s: seq<Row>) {
    forall i, j :: 0 <= i < j < |s| ==> s[i].createdAt != s[j].createdAt
  }

  lemma {:induction false} InsertMembers(r: Row, s: seq<Row>, x: Row)
    ensures x in Insert(r, s) <==> x == r || x in s
  {
    if s != [] && s[0].createdAt > r.createdAt {
      InsertMembers(r, s[1..], x);
    }
  }

  lemma {:induction false} InsertDescending(r: Row, s: seq<Row>)
    requires Descending(s) && forall x :: x in s ==> x.createdAt != r.createdAt
    ensures Descending(Insert(r, s))
  {
    if s != [] && s[0].createdAt > r.createdAt {
      InsertDescending(r, s[1..]);
      forall x | x in Insert(r, s[1..]) ensures s[0].createdAt > x.createdAt {
        InsertMembers(r, s[1..], x);
      }
    }
  }

  lemma {:induction false} OrderMembers(s: seq<Row>, x: Row)
    ensures x in OrderByNewest(s) <==> x in s
  {
    if s != [] {
      OrderMembers(s[1..], x);
      InsertMembers(s[0], OrderByNewest(s[1..]), x);
    }
  }

  lemma {:induction false} OrderDescending(s: seq<Row>)
    requires DistinctTimes(s)
    ensures Descending(OrderByNewest(s))
  {
    if s != [] {
      OrderDescending(s[1..]);
      forall x | x in OrderByNewest(s[1..]) ensures x.createdAt != s[0].createdAt {
        OrderMembers(s[1..], x);
      }
      InsertDescending(s[0], OrderByNewest(s[1..]));
    }
  }

  lemma {:induction false} BelowDistinct(s: seq<Row>, t: int)
    requires DistinctTimes(s)
    ensures DistinctTimes(Below(s, t))
  {
    if s != [] {
      BelowDistinct(s[1..], t);
      forall x | x in Below(s[1..], t) ensures x.createdAt != s[0].createdAt {
        BelowMembers(s[1..], t, x);
      }
    }
  }

  lemma {:induction false} AboveDistinct(s: seq<Row>, t: int)
    requires DistinctTimes(s)
    ensures DistinctTimes(Above(s, t))
  {
    if s != [] {
      AboveDistinct(s[1..], t);
      forall x | x in Above(s[1..], t) ensures x.createdAt != s[0].createdAt {
        AboveMembers(s[1..], t, x);
      }
    }
  }

  /** Filtering and then ordering is the same as asking the ordered feed. */
  lemma OrderedAsked(queryset: seq<Row>, req: Request)
    requires DistinctTimes(queryset)
    ensures OrderByNewest(Asked(queryset, req)) == Asked(OrderByNewest(queryset), req)
  {
    if req.gt.Some? {
      AboveDistinct(queryset, req.gt.value);
    } else if req.lt.Some? {
      BelowDistinct(queryset, req.lt.value);
    }
    OrderDescending(Asked(queryset, req));
    OrderDescending(queryset);
    AskedDescending(OrderByNewest(queryset), req);
    forall r ensures r in OrderByNewest(Asked(queryset, req)) <==> r in Asked(OrderByNewest(queryset), req) {
      OrderMembers(Asked(queryset, req), r);
      OrderMembers(queryset, r);
      AskedMembers(queryset, req, r);
      AskedMembers(OrderByNewest(queryset), req, r);
    }
    DescendingUnique(OrderByNewest(Asked(queryset, req)), Asked(OrderByNewest(queryset), req));
  }

  // ---------- cursors ----------

  /** Cursors as they are taken from a row: 16-digit timestamps. */
  predicate CursorInRange(req: Request) {
    if req.gt.Some? then Stamp(req.gt.value) else req.lt.Some? ==> Stamp(req.lt.value)
  }

  /** Pull-to-refresh scans up to MAX_TIMESTAMP, which a scan excludes. */
  function Visible(feed: seq<Row>, req: Request): seq<Row> {
    if req.gt.Some? then Below(feed, MAX_TIMESTAMP) else feed
  }

  lemma MaxIsStamp()
    ensures Stamp(MAX_TIMESTAMP) && Pow10(16) == MAX_TIMESTAMP + 1
  {
    assert Pow10(4) == 10000;
    assert Pow10(8) == 100000000;
    assert Pow10(12) == 1000000000000;
    assert Pow10(14) == 100000000000000;
  }

  /** One timestamp further, a descending feed gives at most one row more. */
  lemma BelowNext(feed: seq<Row>, t: int)
    requires Descending(feed)
    ensures var more, less := Below(feed, t + 1), Below(feed, t);
      if more != [] && more[0].createdAt == t then less == more[1..] else less == more
  {
    var k, m := Split(feed, t + 1), Split(feed, t);
    BelowOfDescending(feed, t + 1);
    BelowOfDescending(feed, t);
    assert k + 1 < |feed| ==> feed[k + 1].createdAt < feed[k].createdAt;
    assert m < |feed| ==> feed[m].createdAt < t;
    assert k <= m <= k + 1;
  }

  /** Over-fetching by two and dropping the cursor's own row leaves the page and one row more. */
  lemma OlderPage(feed: seq<Row>, t: int, size: nat, objects: seq<Row>)
    requires Descending(feed) && objects == Take(Below(feed, t + 1), size + 2)
    ensures var asked := Below(feed, t);
      var rest := if |objects| > 0 && objects[0].createdAt == t then objects[1..] else objects;
      && (|rest| > size <==> |asked| > size)
      && Take(rest, size) == Take(asked, size)
  {
    BelowNext(feed, t);
  }

  class EndlessPagination {
    const pageSize: nat
    const listLimit: nat
    var hasNextPage: bool

    constructor (pageSize: nat, listLimit: nat)
      requires pageSize > 0 && listLimit > 0
      ensures this.pageSize == pageSize && this.listLimit == listLimit && !hasNextPage
    {
      this.pageSize := pageSize;
      this.listLimit := listLimit;
      hasNextPage := false;
    }

    method PaginateQueryset(queryset: seq<Row>, req: Request) returns (page: seq<Row>)
      modifies this`hasNextPage
      ensures DistinctTimes(queryset) ==> Page(page, hasNextPage) == PageOf(OrderByNewest(queryset), req, pageSize)
    {
      if DistinctTimes(queryset) {
        OrderedAsked(queryset, req);
      }
      var filtered := queryset;
      if req.gt.Some? {
        filtered := Above(filtered, req.gt.value);
        hasNextPage := false;
        return OrderByNewest(filtered);
      }
      if req.lt.Some? {
        filtered := Below(filtered, req.lt.value);
      }
      filtered := Take(OrderByNewest(filtered), pageSize + 1);
      hasNextPage := |filtered| > pageSize;
      page := Take(filtered, pageSize);
    }

    method PaginateHBase(table: OwnerTable, owner: int, req: Request) returns (r: Result<seq<Row>>)
      requires table.Valid()
      modifies this`hasNextPage
      ensures UserId(owner) && InRange(table.rows) && CursorInRange(req) ==>
          var feed := FeedOf(table.rows, owner);
          && Descending(feed)
          && r.Ok?
          && Page(r.value, hasNextPage) == PageOf(Visible(feed, req), req, pageSize)
    {
      if req.gt.Some? {
        r := NewerThan(table, owner, req.gt.value);
      } else if req.lt.Some? {
        r := OlderThan(table, owner, req.lt.value);
      } else {
        r := FirstPage(table, owner);
      }
      if UserId(owner) && InRange(table.rows) {
        table.FeedIsDescending(owner);
      }
    }

    method NewerThan(table: OwnerTable, owner: int, t: int) returns (r: Result<seq<Row>>)
      requires table.Valid()
      modifies this`hasNextPage
      ensures UserId(owner) && InRange(table.rows) && Stamp(t) ==>
          r == Ok(Above(Below(FeedOf(table.rows, owner), MAX_TIMESTAMP), t)) && !hasNextPage
    {
      MaxIsStamp();
      var objects :- table.FilterFrom(owner, t, MAX_TIMESTAMP);
      if UserId(owner) && InRange(table.rows) && Stamp(t) {
        table.FeedIsDescending(owner);
        RefreshPage(table.rows, owner, t, objects);
      }
      if |objects| > 0 && objects[0].createdAt == t {
        objects := Rev(objects[1..]);
      } else {
        objects := Rev(objects);
      }
      hasNextPage := false;
      return Ok(objects);
    }

    method OlderThan(table: OwnerTable, owner: int, t: int) returns (r: Result<seq<Row>>)
      requires table.Valid()
      modifies this`hasNextPage
      ensures UserId(owner) && InRange(table.rows) && Stamp(t) ==>
          var asked := Below(FeedOf(table.rows, owner), t);
          r == Ok(Take(asked, pageSize)) && hasNextPage == (|asked| > pageSize)
    {
      var objects :- table.FilterBack(owner, t, pageSize + 2);
      ghost var asked := Below(FeedOf(table.rows, owner), t);
      if UserId(owner) && InRange(table.rows) && Stamp(t) {
        table.FeedIsDescending(owner);
        OlderPage(FeedOf(table.rows, owner), t, pageSize, objects);
      }
      if |objects| > 0 && objects[0].createdAt == t {
        objects := objects[1..];
      }
      ghost var rest := objects;
      if |objects| > pageSize {
        hasNextPage := true;
        objects := objects[..pageSize];
      } else {
        hasNextPage := false;
      }
      assert objects == Take(rest, pageSize);
      return Ok(objects);
    }

    method FirstPage(table: OwnerTable, owner: int) returns (r: Result<seq<Row>>)
      requires table.Valid()
      modifies this`hasNextPage
      ensures UserId(owner) && InRange(table.rows) ==>
          var feed := FeedOf(table.rows, owner);
          r == Ok(Take(feed, pageSize)) && hasNextPage == (|feed| > pageSize)
    {
      var objects :- table.FilterOwner(owner, Some(pageSize + 1), true);
      if UserId(owner) && InRange(table.rows) {
        TakeOneMore(FeedOf(table.rows, owner), pageSize, objects);
      }
      if |objects| > pageSize {
        hasNextPage := true;
        objects := objects[..|objects| - 1];
      } else {
        hasNextPage := false;
      }
      return Ok(objects);
    }

    method PaginateOrderedList(list: seq<Row>, req: Request) returns (page: seq<Row>)
      modifies this`hasNextPage
      ensures Descending(list) ==> Page(page, hasNextPage) == PageOf(list, req, pageSize)
    {
      if req.gt.Some? {
        var objects: seq<Row> := [];
        var i := 0;
        while i < |list|
          invariant i <= |list| && objects == list[..i]
          invariant forall j :: 0 <= j < i ==> list[j].createdAt > req.gt.value
        {
          if list[i].createdAt > req.gt.value {
            objects := objects + [list[i]];
          } else {
            break;
          }
          i := i + 1;
        }
        hasNextPage := false;
        if Descending(list) {
          AboveIsPrefix(list, req.gt.value, i);
        }
        return objects;
      }
      var rows := list;
      var index := 0;
      if req.lt.Some? {
        var found := false;
        var i := 0;
        while i < |list|
          invariant i <= |list| && (i > 0 ==> index == i - 1) && (i == 0 ==> index == 0)
          invariant forall j :: 0 <= j < i ==> list[j].createdAt >= req.lt.value
        {
          index := i;
          if list[i].createdAt < req.lt.value {
            found := true;
            break;
          }
          i := i + 1;
        }
        if Descending(list) {
          BelowIsSuffix(list, req.lt.value, i);
        }
        if !found {
          rows := [];
        }
      }
      hasNextPage := |rows| > index + pageSize;
      page := Slice(rows, index, index + pageSize);
    }

    /** None means: the cached list cannot answer, ask the database. */
    method PaginateCachedList(cached: seq<Row>, req: Request) returns (page: Option<seq<Row>>)
      modifies this`hasNextPage
      ensures Descending(cached) ==>
          var p := PageOf(cached, req, pageSize);
          && hasNextPage == p.hasNext
          && page == if req.gt.Some? || p.hasNext || |cached| < listLimit then Some(p.rows) else None
    {
      var paginated := PaginateOrderedList(cached, req);
      if req.gt.Some? {
        return Some(paginated);
      }
      if hasNextPage {
        return Some(paginated);
      }
      if |cached| < listLimit {
        return Some(paginated);
      }
      return None;
    }
  }

  /** list[from : to] */
  function Slice<T>(s: seq<T>, from: nat, to: nat): seq<T>
    requires from <= to
  {
    if |s| <= from then [] else if |s| <= to then s[from..] else s[from..to]
  }

  lemma QuerysetPage(queryset: seq<Row>, req: Request, size: nat)
    requires DistinctTimes(queryset)
    ensures OrderByNewest(Asked(queryset, req)) == Asked(OrderByNewest(queryset), req)
    ensures IsPage(Elements(queryset), req, size, PageOf(OrderByNewest(queryset), req, size))
  {
    OrderedAsked(queryset, req);
    OrderDescending(queryset);
    PageOfIsPage(OrderByNewest(queryset), req, size);
    assert Elements(OrderByNewest(queryset)) == Elements(queryset) by {
      forall r ensures r in OrderByNewest(queryset) <==> r in queryset {
        OrderMembers(queryset, r);
      }
    }
  }

  /** The scan, less its first row when that is the cursor's own, is the refresh. */
  lemma RefreshPage(rows: seq<Row>, owner: int, t: int, objects: seq<Row>)
    requires KeySorted(rows) && Stamp(t) && InRange(rows)
    requires objects == Below(Above(Owned(rows, owner), t - 1), if t == MAX_TIMESTAMP then t + 1 else MAX_TIMESTAMP)
    ensures Rev(if |objects| > 0 && objects[0].createdAt == t then objects[1..] else objects)
        == Above(Below(FeedOf(rows, owner), MAX_TIMESTAMP), t)
  {
    var feed, stop := FeedOf(rows, owner), if t == MAX_TIMESTAMP then t + 1 else MAX_TIMESTAMP;
    FeedDescending(rows, owner);
    ScanReversed(Owned(rows, owner), t - 1, stop);
    MaxIsStamp();
    forall r | r in feed ensures Stamp(r.createdAt) {
      FeedMembers(rows, owner, r);
    }
    DropCursor(feed, t, stop, Rev(objects));
    ReversedDrop(objects, t);
  }

  lemma ScanReversed(owned: seq<Row>, t: int, stop: int)
    ensures Rev(Below(Above(owned, t), stop)) == Below(Above(Rev(owned), t), stop)
  {
    AboveRev(owned, t);
    BelowRev(Above(owned, t), stop);
  }

  /** Dropping the cursor's own row in front and reversing, or reversing and dropping it at the end. */
  lemma ReversedDrop(objects: seq<Row>, t: int)
    ensures var found := Rev(objects);
      Rev(if |objects| > 0 && objects[0].createdAt == t then objects[1..] else objects)
      == if |found| > 0 && found[|found| - 1].createdAt == t then found[..|found| - 1] else found
  {
  }

  lemma DropCursor(feed: seq<Row>, t: int, stop: int, found: seq<Row>)
    requires Descending(feed) && forall r :: r in feed ==> r.createdAt <= MAX_TIMESTAMP
    requires t <= MAX_TIMESTAMP && stop == if t == MAX_TIMESTAMP then t + 1 else MAX_TIMESTAMP
    requires found == Below(Above(feed, t - 1), stop)
    ensures (if |found| > 0 && found[|found| - 1].createdAt == t then found[..|found| - 1] else found)
        == Above(Below(feed, MAX_TIMESTAMP), t)
  {
    FiltersDescend(feed, t - 1);
    FiltersDescend(Above(feed, t - 1), stop);
    FiltersDescend(feed, MAX_TIMESTAMP);
    FiltersDescend(Below(feed, MAX_TIMESTAMP), t);
    forall r ensures r in found <==> r in feed && t <= r.createdAt < stop {
      AboveMembers(feed, t - 1, r);
      BelowMembers(Above(feed, t - 1), stop, r);
    }
    var rest := if |found| > 0 && found[|found| - 1].createdAt == t then found[..|found| - 1] else found;
    var expected := Above(Below(feed, MAX_TIMESTAMP), t);
    forall r ensures r in rest <==> r in expected {
      LastDropped(found, rest, t, r);
      BelowMembers(feed, MAX_TIMESTAMP, r);
      AboveMembers(Below(feed, MAX_TIMESTAMP), t, r);
    }
    DescendingUnique(rest, expected);
  }

  lemma LastDropped(found: seq<Row>, rest: seq<Row>, t: int, r: Row)
    requires Descending(found) && forall x :: x in found ==> x.createdAt >= t
    requires rest == if |found| > 0 && found[|found| - 1].createdAt == t then found[..|found| - 1] else found
    ensures r in rest <==> r in found && r.createdAt != t
  {
  }
}

/** The news feed endpoint. */
module NewsFeedView {
  import opened Outcomes
  import opened Feed
  import opened OwnerRows
  import opened RedisCache
  import opened Pagination
  import opened Agreement
  import opened NewsFeed
  import opened NewsFeedRuns

  /** What the endpoint answers: the page of the whole feed; a refresh stops at the cached length. */
  function Answer(feed: seq<Row>, req: Request, size: nat, limit: nat): Page {
    if req.gt.Some? then Page(Take(Above(feed, req.gt.value), limit), false) else PageOf(feed, req, size)
  }

  class NewsFeedViewSet {
    const service: NewsFeedService
    const paginator: EndlessPagination

    ghost predicate Valid()
      reads this, service, service.table, service.table.model, service.redis
    {
      && service.Valid()
      && paginator.listLimit == service.helper.limit && paginator.pageSize > 0
    }

    ghost function FeedFor(u: int): seq<Row>
      reads service, service.table
    {
      FeedOf(service.table.rows, u)
    }

    constructor (service: NewsFeedService, pageSize: nat)
      requires service.Valid() && pageSize > 0
      ensures Valid() && this.service == service && fresh(paginator) && paginator.pageSize == pageSize
    {
      this.service := service;
      var p := new EndlessPagination(pageSize, service.helper.limit);
      paginator := p;
    }

    /**
      list: the cache first, then the database. From any list of rows of the feed, newest first,
      what that list and the feed together serve; from a coherent one the page of the feed, but
      an empty last page on a lost hit.
     */
    method List(u: int, req: Request, rivalStored: bool) returns (r: Result<seq<Row>>)
      requires Valid() && UserId(u) && CursorInRange(req)
      requires OrderedIn(ListAt(service.redis.lists, u), FeedFor(u))
      modifies service.redis, paginator
      ensures Valid() && r.Ok?
      ensures var (after, cached) :=
          LoadFor(old(service.State()), service.redis.faults, u, FeedFor(u), service.helper.limit, rivalStored);
        && service.State() == after
        && Page(r.value, paginator.hasNextPage)
            == Served(cached, FeedFor(u), req, paginator.pageSize, paginator.listLimit)
      ensures old(service.CoherentFor(u)) ==>
        && service.CoherentFor(u)
        && Page(r.value, paginator.hasNextPage)
            == if LostLoad(old(service.State()), service.redis.faults, u, FeedFor(u), service.helper.limit, rivalStored)
               then Page([], false)
               else Answer(FeedFor(u), req, paginator.pageSize, paginator.listLimit)
    {
      ghost var feed, s := FeedFor(u), service.State();
      service.table.FeedIsDescending(u);
      if service.CoherentFor(u) {
        CoherentServed(s, service.redis.faults, u, feed, req, paginator.pageSize, paginator.listLimit, rivalStored);
      }
      LoadOrdered(s, service.redis.faults, u, feed, service.helper.limit, rivalStored);
      var cached := service.GetCachedNewsfeeds(u, rivalStored);
      r := Paginate(u, req, cached);
    }

    /** The pagination of list, with the fallback on the database. */
    method Paginate(u: int, req: Request, cached: seq<Row>) returns (r: Result<seq<Row>>)
      requires Valid() && UserId(u) && CursorInRange(req) && Descending(cached)
      modifies paginator
      ensures Valid() && r.Ok?
      ensures Page(r.value, paginator.hasNextPage)
          == Served(cached, FeedFor(u), req, paginator.pageSize, paginator.listLimit)
    {
      var page := paginator.PaginateCachedList(cached, req);
      if page.None? {
        r := paginator.PaginateHBase(service.table, u, req);
      } else {
        r := Ok(page.value);
      }
    }
  }

  lemma CoherentServed(s: Server, f: Faults, u: int, feed: seq<Row>, req: Request, size: nat, limit: nat,
                       rivalStored: bool)
    requires Coherent(s.lists, u, feed, limit) && Descending(feed) && limit > 0
    ensures Served(LoadFor(s, f, u, feed, limit, rivalStored).1, feed, req, size, limit)
        == if LostLoad(s, f, u, feed, limit, rivalStored) then Page([], false) else Answer(feed, req, size, limit)
  {
    LoadCoherent(s, f, u, feed, limit, rivalStored);
    ServedExact(feed, req, size, limit);
  }

  /** What the endpoint makes of a cached list: its page, or that of the feed when the list is full and used up. */
  function Served(cached: seq<Row>, feed: seq<Row>, req: Request, size: nat, limit: nat): Page {
    var p := PageOf(cached, req, size);
    if req.gt.Some? || p.hasNext || |cached| < limit then p else PageOf(feed, req, size)
  }

  lemma ServedExact(feed: seq<Row>, req: Request, size: nat, limit: nat)
    requires Descending(feed) && limit > 0
    ensures Served(Take(feed, limit), feed, req, size, limit) == Answer(feed, req, size, limit)
    ensures Served([], feed, req, size, limit) == Page([], false)
  {
    if req.gt.Some? {
      CachedRefresh(feed, limit, req.gt.value);
    } else if PageOf(Take(feed, limit), req, size).hasNext || |Take(feed, limit)| < limit {
      CachedPage(feed, limit, req, size);
    }
  }

  /** Whatever list is cached, a page holds admitted rows of the feed, newest first, and is not empty if more follow. */
  lemma ServedRows(cached: seq<Row>, feed: seq<Row>, req: Request, size: nat, limit: nat)
    requires OrderedIn(cached, feed) && Descending(feed) && size > 0
    ensures var page := Served(cached, feed, req, size, limit);
      && Descending(page.rows) && (page.hasNext ==> page.rows != [])
      && forall r :: r in page.rows ==> r in feed && Admits(req, r)
  {
    PageOfIsPage(cached, req, size);
    PageOfIsPage(feed, req, size);
  }

  /**
    Which page that is: the page of the cached list, unless that list is full and nothing admitted
    is left out of its page, and then the page of the feed.
   */
  lemma ServedIsPage(cached: seq<Row>, feed: seq<Row>, req: Request, size: nat, limit: nat)
    requires Descending(cached) && Descending(feed) && size > 0
    ensures var page := Served(cached, feed, req, size, limit);
      || (IsPage(Elements(cached), req, size, page) && (req.gt.Some? || page.hasNext || |cached| < limit))
      || (&& IsPage(Elements(feed), req, size, page) && req.gt.None? && |cached| >= limit
          && exists used :: IsPage(Elements(cached), req, size, used) && !used.hasNext)
  {
    PageOfIsPage(cached, req, size);
    PageOfIsPage(feed, req, size);
  }
}

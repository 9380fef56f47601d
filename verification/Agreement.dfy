/** The three paginators agree: with the page specification, and so with each other. */
module Agreement {
  import opened Feed
  import opened OwnerRows
  import opened Pagination

  lemma {:induction false} BelowPrefix(feed: seq<Row>, n: nat, t: int)
    requires Descending(feed) && n <= |feed|
    ensures Below(feed[..n], t) <= Below(feed, t)
    ensures n < |feed| ==> |Below(feed[..n], t)| < |Below(feed, t)| || Below(feed, t) == []
  {
    var k := Split(feed, t);
    BelowOfDescending(feed, t);
    if k <= n {
      BelowIsSuffix(feed[..n], t, k);
    } else {
      NoneBelow(feed[..n], t);
    }
  }

  /**
    A page served from the newest `limit` rows is the page of the whole feed, whenever the
    paginator does not give up: there is more in the cached list, or the list is the whole feed.
   */
  lemma CachedPage(feed: seq<Row>, limit: nat, req: Request, size: nat)
    requires Descending(feed) && req.gt.None?
    requires PageOf(Take(feed, limit), req, size).hasNext || |Take(feed, limit)| < limit
    ensures PageOf(Take(feed, limit), req, size) == PageOf(feed, req, size)
  {
    if |feed| >= limit {
      AskedPrefix(feed, limit, req);
      SamePrefix(Asked(feed[..limit], req), Asked(feed, req), size);
    }
  }

  lemma AskedPrefix(feed: seq<Row>, n: nat, req: Request)
    requires Descending(feed) && req.gt.None? && n <= |feed|
    ensures Asked(feed[..n], req) <= Asked(feed, req)
    ensures n < |feed| ==> |Asked(feed[..n], req)| < |Asked(feed, req)| || Asked(feed, req) == []
  {
    if req.lt.Some? {
      BelowPrefix(feed, n, req.lt.value);
    }
  }

  lemma SamePrefix<T>(a: seq<T>, b: seq<T>, n: nat)
    requires a <= b && n < |a|
    ensures Take(a, n) == Take(b, n)
  {
  }

  /**
    When the cached list cannot answer alone, its page would be right exactly if nothing is
    missing from it, or nothing was asked of the whole feed either.
   */
  lemma GivingUp(feed: seq<Row>, limit: nat, req: Request, size: nat)
    requires Descending(feed) && req.gt.None? && |feed| >= limit
    requires !PageOf(Take(feed, limit), req, size).hasNext
    ensures PageOf(Take(feed, limit), req, size) == PageOf(feed, req, size)
        <==> |feed| == limit || Asked(feed, req) == []
  {
    AskedPrefix(feed, limit, req);
    assert |feed| == limit ==> feed[..limit] == feed;
  }

  /** A pull-to-refresh from the cached list is the first `limit` rows of the database's answer. */
  lemma CachedRefresh(feed: seq<Row>, limit: nat, t: int)
    requires Descending(feed)
    ensures Above(Take(feed, limit), t) == Take(Above(feed, t), limit)
    ensures Above(Take(feed, limit), t) == Above(feed, t) <==> |Above(feed, t)| <= limit
  {
    var k := Split(feed, t + 1);
    AboveOfDescending(feed, t);
    if |feed| >= limit {
      AboveIsPrefix(feed[..limit], t, if k <= limit then k else limit);
    }
  }

  /** A scan-based refresh misses exactly a row stamped MAX_TIMESTAMP. */
  lemma ScannedRefresh(feed: seq<Row>, req: Request, size: nat)
    requires Descending(feed) && forall r :: r in feed ==> r.createdAt <= MAX_TIMESTAMP
    ensures PageOf(Visible(feed, req), req, size) == PageOf(feed, req, size)
        <==> req.gt.None? || req.gt.value >= MAX_TIMESTAMP || forall r :: r in feed ==> r.createdAt < MAX_TIMESTAMP
  {
    if req.gt.Some? {
      var t := req.gt.value;
      if forall r :: r in feed ==> r.createdAt < MAX_TIMESTAMP {
        AllBelow(feed, MAX_TIMESTAMP);
      } else if t >= MAX_TIMESTAMP {
        NoneAbove(feed, t);
        forall r | r in Below(feed, MAX_TIMESTAMP) ensures r.createdAt <= t {
          BelowMembers(feed, MAX_TIMESTAMP, r);
        }
        NoneAbove(Below(feed, MAX_TIMESTAMP), t);
      } else {
        var r :| r in feed && r.createdAt >= MAX_TIMESTAMP;
        AboveMembers(feed, t, r);
        AboveMembers(Below(feed, MAX_TIMESTAMP), t, r);
        BelowMembers(feed, MAX_TIMESTAMP, r);
      }
    }
  }

  /** One user's rows in a relational table, ordered by the query, are that user's feed in HBase. */
  lemma SameFeed(queryset: seq<Row>, rows: seq<Row>, u: int)
    requires KeySorted(rows) && InRange(rows) && DistinctTimes(queryset)
    requires forall r :: r in queryset <==> r in rows && r.owner == u
    ensures OrderByNewest(queryset) == FeedOf(rows, u)
  {
    OrderDescending(queryset);
    FeedDescending(rows, u);
    forall r ensures r in OrderByNewest(queryset) <==> r in FeedOf(rows, u) {
      OrderMembers(queryset, r);
      FeedMembers(rows, u, r);
    }
    DescendingUnique(OrderByNewest(queryset), FeedOf(rows, u));
  }

  /** The queryset's page and the scan's page meet the same specification on the same rows. */
  lemma SamePage(queryset: seq<Row>, rows: seq<Row>, u: int, req: Request, size: nat)
    requires KeySorted(rows) && InRange(rows) && DistinctTimes(queryset)
    requires forall r :: r in queryset <==> r in rows && r.owner == u
    requires req.gt.Some? ==> forall r :: r in queryset ==> r.createdAt < MAX_TIMESTAMP
    ensures PageOf(Visible(FeedOf(rows, u), req), req, size) == PageOf(OrderByNewest(queryset), req, size)
    ensures IsPage(Elements(queryset), req, size, PageOf(Visible(FeedOf(rows, u), req), req, size))
  {
    SameFeed(queryset, rows, u);
    forall r | r in FeedOf(rows, u) ensures r in queryset && r.createdAt <= MAX_TIMESTAMP {
      FeedMembers(rows, u, r);
      MaxIsStamp();
    }
    FeedDescending(rows, u);
    ScannedRefresh(FeedOf(rows, u), req, size);
    QuerysetPage(queryset, req, size);
  }
}

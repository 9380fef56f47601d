/**
  A client that scrolls the news feed to its end, while rows of any users are created, keys
  expire, and commands fail or find their key just expired.
 */
module Scrolling {
  import opened Outcomes
  import opened Feed
  import opened OwnerRows
  import opened OwnerTables
  import opened RedisCache
  import opened NewsFeed
  import opened NewsFeedRuns
  import opened NewsFeedView
  import opened Pagination

  /**
    One visit: before the i-th further page `burst(i)` of the arrivals are created, as far as there
    are any, and then the key may expire.
   */
  datatype Visit = Visit(user: int, arrivals: seq<Row>, burst: nat -> nat, expires: nat -> bool)

  /** How many of the arrivals have been created before the n-th further page. */
  function Position(v: Visit, n: nat): (p: nat)
    ensures p <= |v.arrivals|
  {
    if n == 0 then 0
    else
      var p := Position(v, n - 1);
      if v.burst(n - 1) < |v.arrivals| - p then p + v.burst(n - 1) else |v.arrivals|
  }

  lemma PositionGrows(v: Visit, n: nat)
    ensures Position(v, n) <= Position(v, n + 1)
  {
  }

  function Creates(rows: seq<Row>): seq<Operation> {
    seq(|rows|, i requires 0 <= i < |rows| => Create(rows[i]))
  }

  /** What happens before the n-th further page is asked for. */
  function Between(v: Visit, n: nat): seq<Operation> {
    PositionGrows(v, n);
    Creates(v.arrivals[Position(v, n)..Position(v, n + 1)]) + if v.expires(n) then [Expire(v.user)] else []
  }

  /** The operations of a visit with n further pages. */
  function Operations(v: Visit, n: nat): seq<Operation> {
    if n == 0 then [Load(v.user, false)] else Operations(v, n - 1) + Between(v, n - 1) + [Load(v.user, false)]
  }

  /** Rows still to arrive from index k on can be stored, and those of u are new to its feed. */
  ghost predicate Arriving(arrivals: seq<Row>, k: nat, u: int, feed: seq<Row>) {
    && (forall i :: k <= i < |arrivals| ==> Storable(arrivals[i]))
    && (forall i :: k <= i < |arrivals| && arrivals[i].owner == u ==> NewestOf(arrivals[i], feed))
    && (forall i, j :: k <= i < j < |arrivals| && arrivals[i].owner == u == arrivals[j].owner ==>
          arrivals[i].createdAt < arrivals[j].createdAt)
  }

  lemma NextArrival(arrivals: seq<Row>, k: nat, u: int, feed: seq<Row>)
    requires Arriving(arrivals, k, u, feed) && k < |arrivals|
    ensures Arriving(arrivals, k + 1, u, Grown(Create(arrivals[k]), u, feed))
  {
  }

  // ---------- the service during a visit ----------

  /** A start from which the pages make sense: the feed in order, and the cached list too. */
  ghost predicate Sound(x: Setting, u: int) {
    && NoEmptyLists(x.server) && x.limit > 0 && Descending(FeedOf(x.before, u))
    && OrderedIn(ListAt(x.server.lists, u), FeedOf(x.before, u))
  }

  /** The state of the server and the feed of u are those these operations lead to. */
  ghost predicate LeadTo(x: Setting, ops: seq<Operation>, u: int, s: Server, feed: seq<Row>) {
    && Sound(x, u) && OwnNewest(x.before, ops, u)
    && s == ServerAt(x, ops, |ops|) && feed == FeedAt(x.before, ops, |ops|, u)
  }

  ghost predicate Stands(service: NewsFeedService, x: Setting, ops: seq<Operation>, u: int)
    reads service, service.table, service.table.model, service.redis
  {
    && service.Valid() && service.redis.faults == x.faults && service.helper.limit == x.limit
    && LeadTo(x, ops, u, service.State(), service.FeedFor(u))
  }

  /** One more operation at the end of a run. */
  lemma OneMoreOperation(x: Setting, ops: seq<Operation>, op: Operation, u: int, s: Server, feed: seq<Row>)
    requires LeadTo(x, ops, u, s, feed)
    requires op.Create? && op.row.owner == u ==> NewestOf(op.row, feed)
    ensures LeadTo(x, ops + [op], u,
                   Next(s, x.faults, x.limit, op, FeedAt(x.before, ops, |ops|, UserOf(op))).0, Grown(op, u, feed))
  {
    var more := ops + [op];
    StillOwnNewest(x, ops, op, u);
    SamePast(x, ops, more, |ops|, u);
    SamePast(x, ops, more, |ops|, UserOf(op));
    FeedStep(x.before, more, |ops|, u);
  }

  lemma StillOwnNewest(x: Setting, ops: seq<Operation>, op: Operation, u: int)
    requires OwnNewest(x.before, ops, u)
    requires op.Create? && op.row.owner == u ==> NewestOf(op.row, FeedAt(x.before, ops, |ops|, u))
    ensures OwnNewest(x.before, ops + [op], u)
  {
    var more := ops + [op];
    forall k | 0 <= k < |more| && more[k].Create? && more[k].row.owner == u
      ensures NewestOf(more[k].row, FeedAt(x.before, more, k, u)) {
      SamePast(x, ops, more, if k < |ops| then k else |ops|, u);
      assert k < |ops| ==> more[k] == ops[k];
    }
  }

  lemma OneMoreCreate(x: Setting, ops: seq<Operation>, r: Row, u: int, s: Server, feed: seq<Row>)
    requires LeadTo(x, ops, u, s, feed) && (r.owner == u ==> NewestOf(r, feed))
    ensures LeadTo(x, ops + [Create(r)], u, Push(s, x.faults, r.owner, r, x.limit), Grown(Create(r), u, feed))
  {
    OneMoreOperation(x, ops, Create(r), u, s, feed);
  }

  lemma OneMoreExpiry(x: Setting, ops: seq<Operation>, u: int, s: Server, feed: seq<Row>)
    requires LeadTo(x, ops, u, s, feed)
    ensures LeadTo(x, ops + [Expire(u)], u, Server(s.lists - {u}, s.calls), feed)
  {
    OneMoreOperation(x, ops, Expire(u), u, s, feed);
  }

  lemma OneMoreLoad(x: Setting, ops: seq<Operation>, u: int, s: Server, feed: seq<Row>)
    requires LeadTo(x, ops, u, s, feed)
    ensures LeadTo(x, ops + [Load(u, false)], u, LoadFor(s, x.faults, u, feed, x.limit, false).0, feed)
  {
    OneMoreOperation(x, ops, Load(u, false), u, s, feed);
  }

  method CreateNext(service: NewsFeedService, ghost x: Setting, ghost ops: seq<Operation>, u: int, r: Row)
    requires Stands(service, x, ops, u) && Storable(r) && (r.owner == u ==> NewestOf(r, service.FeedFor(u)))
    modifies service.table, service.table.model, service.redis
    ensures Stands(service, x, ops + [Create(r)], u)
    ensures service.table.Contents() == Written(old(service.table.Contents()), r)
    ensures service.FeedFor(u) == Grown(Create(r), u, old(service.FeedFor(u)))
  {
    OneMoreCreate(x, ops, r, u, service.State(), service.FeedFor(u));
    service.Create(r);
  }

  method ExpireNext(service: NewsFeedService, ghost x: Setting, ghost ops: seq<Operation>, u: int)
    requires Stands(service, x, ops, u)
    modifies service.redis
    ensures Stands(service, x, ops + [Expire(u)], u) && u !in service.redis.lists
  {
    OneMoreExpiry(x, ops, u, service.State(), service.FeedFor(u));
    service.Expire(u);
  }

  // ---------- between two pages ----------

  lemma FirstArrival(ops: seq<Operation>, arrivals: seq<Row>, from: nat, to: nat, stored: set<Row>)
    requires from < to <= |arrivals|
    ensures ops + Creates(arrivals[from..to]) == ops + [Create(arrivals[from])] + Creates(arrivals[from + 1..to])
    ensures WrittenAll(stored, arrivals[from..to])
        == WrittenAll(Written(stored, arrivals[from]), arrivals[from + 1..to])
  {
    assert arrivals[from..to] == [arrivals[from]] + arrivals[from + 1..to];
    assert arrivals[from..to][1..] == arrivals[from + 1..to];
  }

  lemma NoArrival(ops: seq<Operation>, arrivals: seq<Row>, from: nat, stored: set<Row>)
    requires from <= |arrivals|
    ensures ops + Creates(arrivals[from..from]) == ops && WrittenAll(stored, arrivals[from..from]) == stored
  {
    assert arrivals[from..from] == [];
  }

  /** The arrivals from one index to another are created, one after the other. */
  method ArriveAll(service: NewsFeedService, ghost x: Setting, ghost ops: seq<Operation>, u: int, arrivals: seq<Row>,
                   from: nat, to: nat)
    requires from <= to <= |arrivals| && Stands(service, x, ops, u) && Arriving(arrivals, from, u, service.FeedFor(u))
    modifies service.table, service.table.model, service.redis
    ensures Stands(service, x, ops + Creates(arrivals[from..to]), u)
    ensures service.table.Contents() == WrittenAll(old(service.table.Contents()), arrivals[from..to])
    ensures Arriving(arrivals, to, u, service.FeedFor(u))
    decreases if from < to then to - from else 0
  {
    ghost var stored := service.table.Contents();
    if from < to {
      FirstArrival(ops, arrivals, from, to, stored);
      NextArrival(arrivals, from, u, service.FeedFor(u));
      CreateNext(service, x, ops, u, arrivals[from]);
      ArriveAll(service, x, ops + [Create(arrivals[from])], u, arrivals, from + 1, to);
    } else {
      NoArrival(ops, arrivals, from, stored);
    }
  }

  lemma WithExpiry(v: Visit, n: nat, ops: seq<Operation>)
    ensures Position(v, n) <= Position(v, n + 1)
    ensures var created := ops + Creates(v.arrivals[Position(v, n)..Position(v, n + 1)]);
      ops + Between(v, n) == if v.expires(n) then created + [Expire(v.user)] else created
  {
    PositionGrows(v, n);
  }

  /** Before the n-th further page exactly the rows due are stored, and the key expires if it is to. */
  method Meanwhile(service: NewsFeedService, ghost x: Setting, ghost ops: seq<Operation>, v: Visit, n: nat)
    requires Stands(service, x, ops, v.user)
    requires Arriving(v.arrivals, Position(v, n), v.user, service.FeedFor(v.user))
    modifies service.table, service.table.model, service.redis
    ensures Stands(service, x, ops + Between(v, n), v.user) && Position(v, n) <= Position(v, n + 1)
    ensures service.table.Contents()
        == WrittenAll(old(service.table.Contents()), v.arrivals[Position(v, n)..Position(v, n + 1)])
    ensures v.expires(n) ==> v.user !in service.redis.lists
    ensures Arriving(v.arrivals, Position(v, n + 1), v.user, service.FeedFor(v.user))
  {
    WithExpiry(v, n, ops);
    var from, to := Position(v, n), Position(v, n + 1);
    ArriveAll(service, x, ops, v.user, v.arrivals, from, to);
    ghost var created := ops + Creates(v.arrivals[from..to]);
    if v.expires(n) {
      ExpireNext(service, x, created, v.user);
    }
  }

  // ---------- pages ----------

  /** A page of the feed as it stood at the start, or what a lost hit shows of it. */
  ghost predicate RightPage(x: Setting, ops: seq<Operation>, u: int, page: Page, req: Request, size: nat) {
    var k := |ops|;
    var more := ops + [Load(u, false)];
    !Spoiled(x, more, k, u) ==>
      page == if LostAt(x, more, k) then Page([], false) else PageOf(FeedAt(x.before, ops, k, u), req, size)
  }

  lemma LoadInRun(x: Setting, ops: seq<Operation>, u: int, s: Server, feed: seq<Row>)
    requires LeadTo(x, ops, u, s, feed)
    ensures var k, more := |ops|, ops + [Load(u, false)];
      && LostAt(x, more, k) == LostLoad(s, x.faults, u, feed, x.limit, false)
      && Descending(feed) && OrderedIn(ListAt(s.lists, u), feed)
      && (!Spoiled(x, more, k, u) ==> Coherent(s.lists, u, feed, x.limit))
  {
    SamePast(x, ops, ops + [Load(u, false)], |ops|, u);
    ListOrdered(x, ops, |ops|, u);
    NewestUnlessDropped(x, ops, |ops|, u);
  }

  method NextPage(view: NewsFeedViewSet, ghost x: Setting, ghost ops: seq<Operation>, u: int, req: Request)
    returns (page: seq<Row>)
    requires view.Valid() && UserId(u) && Stands(view.service, x, ops, u) && CursorInRange(req) && req.gt.None?
    modifies view.service.redis, view.paginator
    ensures view.Valid() && Stands(view.service, x, ops + [Load(u, false)], u)
    ensures view.FeedFor(u) == old(view.FeedFor(u))
    ensures OrderedIn(page, view.FeedFor(u)) && (view.paginator.hasNextPage ==> page != [])
    ensures forall r :: r in page ==> Admits(req, r)
    ensures RightPage(x, ops, u, Page(page, view.paginator.hasNextPage), req, view.paginator.pageSize)
  {
    ghost var s, feed := view.service.State(), view.service.FeedFor(u);
    LoadInRun(x, ops, u, s, feed);
    OneMoreLoad(x, ops, u, s, feed);
    LoadOrdered(s, x.faults, u, feed, x.limit, false);
    ServedRows(LoadFor(s, x.faults, u, feed, x.limit, false).1, feed, req, view.paginator.pageSize, x.limit);
    var r := view.List(u, req, false);
    page := r.value;
  }

  // ---------- the whole visit ----------

  /** No load met a list from which a push was dropped. */
  ghost predicate Unspoiled(x: Setting, ops: seq<Operation>, u: int) {
    forall k {:trigger ops[k]} :: 0 <= k < |ops| && ops[k].Load? ==> !Spoiled(x, ops, k, u)
  }

  /** No load lost its hit. */
  ghost predicate NoneLost(x: Setting, ops: seq<Operation>) {
    forall k {:trigger ops[k]} :: 0 <= k < |ops| && ops[k].Load? ==> !LostAt(x, ops, k)
  }

  /** What the client has seen, and whether it goes on. */
  ghost predicate Shown(x: Setting, ops: seq<Operation>, u: int, results: seq<Row>, hasNext: bool) {
    var feed := FeedOf(x.before, u);
    && OrderedIn(results, feed) && (hasNext ==> results != [])
    && (Unspoiled(x, ops, u) ==>
          && results <= feed
          && (hasNext <==> NoneLost(x, ops) && |results| < |feed|)
          && (!NoneLost(x, ops) ==> |results| < |feed|))
  }

  /** A load after operations without loads. */
  lemma LoadsSoFar(x: Setting, ops: seq<Operation>, mid: seq<Operation>, u: int)
    requires forall op :: op in mid ==> !op.Load?
    requires forall op :: op in ops && op.Load? ==> op.user == u
    ensures var before, more := ops + mid, ops + mid + [Load(u, false)];
      && (Unspoiled(x, more, u) <==> Unspoiled(x, ops, u) && !Spoiled(x, more, |before|, u))
      && (NoneLost(x, more) <==> NoneLost(x, ops) && !LostAt(x, more, |before|))
  {
    var before, more := ops + mid, ops + mid + [Load(u, false)];
    assert forall j :: |ops| <= j < |before| ==> before[j] in mid;
    forall k | 0 <= k < |more| && more[k].Load?
      ensures k == |before| || k < |ops|
      ensures k < |ops| ==>
        Spoiled(x, more, k, u) == Spoiled(x, ops, k, u) && more[k] == ops[k] && LostAt(x, more, k) == LostAt(x, ops, k)
    {
      if k < |before| {
        assert more[k] == before[k];
        assert k < |ops| ==> ops[k] == more[k] && ops[k] in ops;
      }
      if k < |ops| {
        SamePast(x, ops, more, k, u);
      }
    }
    assert more[|before|] == Load(u, false);
    assert forall k :: 0 <= k < |ops| ==> more[k] == ops[k];
  }

  lemma LostHasRows(x: Setting, u: int)
    requires Sound(x, u) && Coherent(x.server.lists, u, FeedOf(x.before, u), x.limit)
    requires LostHit(x.server, x.faults, u, [])
    ensures FeedOf(x.before, u) != []
  {
  }

  lemma FirstShown(x: Setting, u: int, page: Page, size: nat)
    requires Sound(x, u) && RightPage(x, [], u, page, Request(None, None), size) && size > 0
    requires OrderedIn(page.rows, FeedOf(x.before, u)) && (page.hasNext ==> page.rows != [])
    ensures Shown(x, [Load(u, false)], u, page.rows, page.hasNext)
  {
    var ops := [Load(u, false)];
    assert [] + ops == ops && FeedAt(x.before, [], 0, u) == FeedOf(x.before, u);
    SamePast(x, [], ops, 0, u);
    assert ops[0].Load?;
    if Unspoiled(x, ops, u) {
      NewestUnlessDropped(x, [], 0, u);
      if LostAt(x, ops, 0) {
        LostHasRows(x, u);
      }
    }
  }

  /** Below a row of the old feed, the grown feed holds rows of the old feed only. */
  lemma OlderRows(newer: seq<Row>, feed: seq<Row>, last: Row, rows: seq<Row>)
    requires Descending(newer + feed) && last in feed && OrderedIn(rows, newer + feed)
    requires forall r :: r in rows ==> r.createdAt < last.createdAt
    ensures OrderedIn(rows, feed)
  {
    forall i, j | 0 <= i < |newer| && 0 <= j < |feed| ensures newer[i].createdAt > feed[j].createdAt {
      assert (newer + feed)[i] == newer[i] && (newer + feed)[|newer| + j] == feed[j];
    }
  }

  lemma JoinedPages(results: seq<Row>, rows: seq<Row>, feed: seq<Row>)
    requires OrderedIn(results, feed) && OrderedIn(rows, feed) && results != []
    requires forall r :: r in rows ==> r.createdAt < results[|results| - 1].createdAt
    ensures OrderedIn(results + rows, feed)
  {
    forall i | 0 <= i < |results| ensures results[i].createdAt >= results[|results| - 1].createdAt {
    }
  }

  /** Below the last row shown, the grown feed holds exactly what is still to be shown. */
  lemma RestOfScroll(newer: seq<Row>, feed: seq<Row>, shown: nat)
    requires Descending(newer + feed) && 0 < shown <= |feed|
    ensures Below(newer + feed, feed[shown - 1].createdAt) == feed[shown..]
  {
    var whole := newer + feed;
    assert whole[|newer| + shown - 1] == feed[shown - 1];
    BelowIsSuffix(whole, feed[shown - 1].createdAt, |newer| + shown);
  }

  lemma FurtherRows(newer: seq<Row>, feed: seq<Row>, results: seq<Row>, page: Page, size: nat)
    requires Descending(newer + feed) && results <= feed && 0 < |results|
    requires page == PageOf(newer + feed, Request(None, Some(results[|results| - 1].createdAt)), size)
    ensures results + page.rows <= feed && (page.hasNext <==> |results + page.rows| < |feed|)
  {
    RestOfScroll(newer, feed, |results|);
    assert results == feed[..|results|];
  }

  /** The request for the page after these results. */
  function After(results: seq<Row>): Request
    requires results != []
  {
    Request(None, Some(results[|results| - 1].createdAt))
  }

  lemma NextShown(x: Setting, ops: seq<Operation>, mid: seq<Operation>, u: int, results: seq<Row>, page: Page,
                  size: nat)
    requires Shown(x, ops, u, results, true)
    requires forall op :: op in mid ==> !op.Load?
    requires forall op :: op in ops && op.Load? ==> op.user == u
    requires var feed := FeedAt(x.before, ops + mid, |ops + mid|, u);
      && Descending(feed) && OrderedIn(page.rows, feed) && (page.hasNext ==> page.rows != [])
      && (forall r :: r in page.rows ==> Admits(After(results), r))
    requires RightPage(x, ops + mid, u, page, After(results), size)
    ensures Shown(x, ops + mid + [Load(u, false)], u, results + page.rows, page.hasNext)
    ensures page.hasNext ==>
      (results + page.rows)[|results + page.rows| - 1].createdAt < results[|results| - 1].createdAt
  {
    var feed, newer := FeedOf(x.before, u), Created((ops + mid)[..|ops + mid|], u);
    var last := results[|results| - 1];
    assert last in results;
    OlderRows(newer, feed, last, page.rows);
    JoinedPages(results, page.rows, feed);
    LoadsSoFar(x, ops, mid, u);
    if Unspoiled(x, ops + mid + [Load(u, false)], u) && NoneLost(x, ops + mid + [Load(u, false)]) {
      FurtherRows(newer, feed, results, page, size);
    }
    assert page.hasNext ==> (results + page.rows)[|results + page.rows| - 1] == page.rows[|page.rows| - 1];
    assert page.hasNext ==> page.rows[|page.rows| - 1] in page.rows;
  }

  lemma OwnLoads(v: Visit, n: nat)
    ensures forall op :: op in Operations(v, n) && op.Load? ==> op.user == v.user
  {
    if n > 0 {
      OwnLoads(v, n - 1);
      NoLoads(v, n - 1);
    }
  }

  lemma NoLoads(v: Visit, n: nat)
    ensures forall op :: op in Between(v, n) ==> !op.Load?
  {
  }

  /**
    A client reads the first page and then follows created_at__lt of the last row it has while
    has_next_page. Under any faults the visit ends, and every row seen is of the feed as it stood
    at the first page, none twice, newest first. Unless a load meets a list from which a push to
    the client was dropped, what it sees is the beginning of that feed; and it is the whole feed
    exactly when no load loses its hit.
   */
  method Scroll(view: NewsFeedViewSet, v: Visit) returns (results: seq<Row>, n: nat)
    requires view.Valid() && UserId(v.user) && Arriving(v.arrivals, 0, v.user, view.FeedFor(v.user))
    requires OrderedIn(ListAt(view.service.redis.lists, v.user), view.FeedFor(v.user))
    modifies view.service.table, view.service.table.model, view.service.redis, view.paginator
    ensures view.Valid() && OrderedIn(results, old(view.FeedFor(v.user)))
    ensures view.service.State() == ServerAt(old(Start(view.service)), Operations(v, n), |Operations(v, n)|)
    ensures Unspoiled(old(Start(view.service)), Operations(v, n), v.user) ==>
      && results <= old(view.FeedFor(v.user))
      && (results == old(view.FeedFor(v.user)) <==> NoneLost(old(Start(view.service)), Operations(v, n)))
    ensures view.service.redis.Reliable() && old(view.service.CoherentFor(v.user)) ==>
      results == old(view.FeedFor(v.user))
  {
    ghost var x := Start(view.service);
    results := Begin(view, x, v);
    n := 0;
    while view.paginator.hasNextPage
      invariant Underway(view, x, v, n, results)
      decreases ToGo(results, view.paginator.hasNextPage)
    {
      results := Round(view, x, v, n, results);
      n := n + 1;
    }
    if view.service.redis.Reliable() && old(view.service.CoherentFor(v.user)) {
      HarmlessVisit(x, Operations(v, n), v.user);
    }
  }

  /** When the list starts right and every push to the client is kept, no load meets a spoiled list. */
  lemma AllKept(x: Setting, ops: seq<Operation>, u: int)
    requires u in x.server.lists ==> x.server.lists[u] == Take(FeedOf(x.before, u), x.limit)
    requires forall i {:trigger ops[i]} :: 0 <= i < |ops| && ops[i].Create? && ops[i].row.owner == u ==>
      KeptAt(x, ops, i)
    ensures Unspoiled(x, ops, u)
  {
    forall k | 0 <= k < |ops| && ops[k].Load? ensures !Spoiled(x, ops, k, u) {
      KeptUnspoiled(x, ops, k, u);
    }
  }

  /** Without faults no list is spoiled and no hit is lost. */
  lemma HarmlessVisit(x: Setting, ops: seq<Operation>, u: int)
    requires Harmless(x.faults)
    requires u in x.server.lists ==> x.server.lists[u] == Take(FeedOf(x.before, u), x.limit)
    ensures Unspoiled(x, ops, u) && NoneLost(x, ops)
  {
    AllKept(x, ops, u);
  }

  /** While there is a next page, the time of the last row seen: it falls with every page. */
  function ToGo(results: seq<Row>, hasNext: bool): nat {
    if !hasNext || results == [] then 0
    else
      var last := results[|results| - 1].createdAt;
      if last >= 0 then last + 1 else 0
  }

  /** The first page. */
  method Begin(view: NewsFeedViewSet, ghost x: Setting, v: Visit) returns (results: seq<Row>)
    requires view.Valid() && UserId(v.user) && Arriving(v.arrivals, 0, v.user, view.FeedFor(v.user))
    requires OrderedIn(ListAt(view.service.redis.lists, v.user), view.FeedFor(v.user)) && x == Start(view.service)
    modifies view.service.redis, view.paginator
    ensures Underway(view, x, v, 0, results)
  {
    var u := v.user;
    view.service.table.FeedIsDescending(u);
    StartStands(view.service, u);
    results := NextPage(view, x, [], u, Request(None, None));
    FirstShown(x, u, Page(results, view.paginator.hasNextPage), view.paginator.pageSize);
    assert [] + [Load(u, false)] == Operations(v, 0);
  }

  /** After n further pages. */
  ghost predicate Underway(view: NewsFeedViewSet, x: Setting, v: Visit, n: nat, results: seq<Row>)
    reads view, view.service, view.service.table, view.service.table.model, view.service.redis, view.paginator
  {
    && view.Valid() && Stands(view.service, x, Operations(v, n), v.user)
    && Arriving(v.arrivals, Position(v, n), v.user, view.FeedFor(v.user))
    && Shown(x, Operations(v, n), v.user, results, view.paginator.hasNextPage)
  }

  lemma StartStands(service: NewsFeedService, u: int)
    requires service.Valid() && Descending(service.FeedFor(u))
    requires OrderedIn(ListAt(service.redis.lists, u), service.FeedFor(u))
    ensures Stands(service, Start(service), [], u)
  {
    assert FeedAt(service.table.rows, [], 0, u) == FeedOf(service.table.rows, u);
  }

  /** One turn of the loop: rows arrive, the key may expire, and the next page is read. */
  method Round(view: NewsFeedViewSet, ghost x: Setting, v: Visit, n: nat, results: seq<Row>) returns (more: seq<Row>)
    requires Underway(view, x, v, n, results) && view.paginator.hasNextPage && UserId(v.user)
    modifies view.service.table, view.service.table.model, view.service.redis, view.paginator
    ensures Underway(view, x, v, n + 1, more)
    ensures ToGo(more, view.paginator.hasNextPage) < ToGo(results, true)
  {
    ghost var ops, mid := Operations(v, n), Between(v, n);
    var u := v.user;
    Meanwhile(view.service, x, ops, v, n);
    LastIsStamp(view.service.table.rows, u, x, ops + mid, results);
    var page := NextPage(view, x, ops + mid, u, After(results));
    OwnLoads(v, n);
    NoLoads(v, n);
    view.service.table.FeedIsDescending(u);
    NextShown(x, ops, mid, u, results, Page(page, view.paginator.hasNextPage), view.paginator.pageSize);
    more := results + page;
  }

  /** A row shown is stored, so its time makes a cursor in range. */
  lemma LastIsStamp(rows: seq<Row>, u: int, x: Setting, ops: seq<Operation>, results: seq<Row>)
    requires InRange(rows) && FeedOf(rows, u) == FeedAt(x.before, ops, |ops|, u)
    requires results != [] && OrderedIn(results, FeedOf(x.before, u))
    ensures Stamp(results[|results| - 1].createdAt)
  {
    var last := results[|results| - 1];
    assert last in results && last in FeedAt(x.before, ops, |ops|, u);
    FeedMembers(rows, u, last);
  }
}

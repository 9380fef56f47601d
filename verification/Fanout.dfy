/**
  Fanout of a tweet: the main task stores the author's row and splits the followers into batches,
  and the batch tasks, run by any worker in any order, store one row for each follower.
 */
module Fanout {
  import opened Feed
  import opened OwnerRows
  import opened OwnerTables
  import opened RedisCache
  import opened NewsFeed
  import opened Friendships
  import opened FriendshipViews

  function Flat(tasks: seq<seq<int>>): seq<int> {
    if tasks == [] then [] else tasks[0] + Flat(tasks[1..])
  }

  function RowsOf(ids: seq<int>, createdAt: int, tweet: int): (rows: seq<Row>)
    ensures |rows| == |ids| && forall i :: 0 <= i < |ids| ==> rows[i] == Row(ids[i], createdAt, tweet)
  {
    seq(|ids|, i requires 0 <= i < |ids| => Row(ids[i], createdAt, tweet))
  }

  /** The stored rows once each recipient has its row of the tweet. */
  ghost function Delivered(stored: set<Row>, ids: seq<int>, createdAt: int, tweet: int): set<Row> {
    (set x | x in stored && !(x.createdAt == createdAt && x.owner in ids))
    + set x | x in RowsOf(ids, createdAt, tweet)
  }

  /** Every recipient's feed has got the tweet on top, and no other feed has changed. */
  ghost predicate Gained(before: seq<Row>, after: seq<Row>, ids: seq<int>, createdAt: int, tweet: int) {
    forall u :: FeedOf(after, u) == (if u in ids then [Row(u, createdAt, tweet)] else []) + FeedOf(before, u)
  }

  ghost predicate OneOnTop(before: seq<Row>, after: seq<Row>, r: Row) {
    && FeedOf(after, r.owner) == [r] + FeedOf(before, r.owner)
    && forall u :: u != r.owner ==> FeedOf(after, u) == FeedOf(before, u)
  }

  /** The tweet is newer than anything in the feeds of these users. */
  ghost predicate NewestFor(stored: seq<Row>, ids: seq<int>, createdAt: int) {
    forall u, x :: u in ids && x in FeedOf(stored, u) ==> x.createdAt < createdAt
  }

  /**
    The rows of the recipients, and no others, are stored; and if they are the newest, they are on top
    of the feeds.
   */
  ghost predicate Delivers(before: seq<Row>, after: seq<Row>, ids: seq<int>, createdAt: int, tweet: int) {
    && Elements(after) == Delivered(Elements(before), ids, createdAt, tweet)
    && (NewestFor(before, ids, createdAt) ==> Gained(before, after, ids, createdAt, tweet))
  }

  /** The server once the rows of these recipients have been pushed, in this order. */
  function PushedTo(s: Server, f: Faults, ids: seq<int>, createdAt: int, tweet: int, limit: nat): Server {
    PushAll(s, f, RowsOf(ids, createdAt, tweet), limit)
  }

  lemma PushedToBoth(s: Server, f: Faults, a: seq<int>, b: seq<int>, createdAt: int, tweet: int, limit: nat)
    ensures PushedTo(PushedTo(s, f, a, createdAt, tweet, limit), f, b, createdAt, tweet, limit)
        == PushedTo(s, f, a + b, createdAt, tweet, limit)
  {
    PushAllAppend(s, f, RowsOf(a, createdAt, tweet), RowsOf(b, createdAt, tweet), limit);
    assert RowsOf(a + b, createdAt, tweet) == RowsOf(a, createdAt, tweet) + RowsOf(b, createdAt, tweet);
  }

  lemma PushedToOne(s: Server, f: Faults, u: int, createdAt: int, tweet: int, limit: nat)
    ensures PushedTo(s, f, [], createdAt, tweet, limit) == s
    ensures PushedTo(s, f, [u], createdAt, tweet, limit) == Push(s, f, u, Row(u, createdAt, tweet), limit)
  {
    assert RowsOf([], createdAt, tweet) == [];
    assert RowsOf([u], createdAt, tweet) == [Row(u, createdAt, tweet)];
    PushAllAppend(s, f, [Row(u, createdAt, tweet)], [], limit);
  }

  /**
    Each recipient's list is there afterwards exactly if it was before, and then is the tweet in
    front of the old one, cut to the limit; every other list is untouched.
   */
  ghost predicate InFront(before: Lists, after: Lists, ids: seq<int>, createdAt: int, tweet: int, limit: nat) {
    && (forall u :: u in ids ==>
          && (u in after <==> u in before)
          && (u in before ==> after[u] == Take([Row(u, createdAt, tweet)] + before[u], limit)))
    && (forall u :: u !in ids ==> (u in after <==> u in before) && ListAt(after, u) == ListAt(before, u))
  }

  /** Without faults this is what pushing a row to each of distinct recipients does. */
  lemma PushedInFront(s: Server, f: Faults, ids: seq<int>, createdAt: int, tweet: int, limit: nat)
    requires Harmless(f) && limit > 0 && Distinct(ids)
    ensures InFront(s.lists, PushedTo(s, f, ids, createdAt, tweet, limit).lists, ids, createdAt, tweet, limit)
  {
    var batch := RowsOf(ids, createdAt, tweet);
    RowsDeliverable([], ids, createdAt, tweet);
    PushAllFront(s, f, batch, limit);
    var after := PushAll(s, f, batch, limit).lists;
    forall u | u in ids ensures RowInFront(s.lists, after, u, Row(u, createdAt, tweet), limit) {
      var i :| 0 <= i < |ids| && ids[i] == u;
      assert batch[i] in batch;
    }
    forall u | u !in ids ensures forall r :: r in batch ==> r.owner != u {
    }
  }

  /** Each recipient has the tweet's row, in place of any row of that time; all other rows stay. */
  lemma DeliveredRows(stored: set<Row>, ids: seq<int>, createdAt: int, tweet: int, x: Row)
    ensures x in Delivered(stored, ids, createdAt, tweet) <==>
      if x.owner in ids && x.createdAt == createdAt then x.item == tweet else x in stored
  {
    if x.owner in ids {
      var i :| 0 <= i < |ids| && ids[i] == x.owner;
      assert RowsOf(ids, createdAt, tweet)[i] == Row(x.owner, createdAt, tweet);
    }
  }

  // ---------- the batches ----------

  /** Non-empty batches, all but the last of them full, that add up to the list. */
  ghost predicate Batches(tasks: seq<seq<int>>, ids: seq<int>, size: nat) {
    && Flat(tasks) == ids
    && (forall i :: 0 <= i < |tasks| ==> 0 < |tasks[i]| <= size)
    && (forall i :: 0 <= i < |tasks| - 1 ==> |tasks[i]| == size)
  }

  lemma {:induction false} FlatAppend(a: seq<seq<int>>, b: seq<seq<int>>)
    ensures Flat(a + b) == Flat(a) + Flat(b)
  {
    if a == [] {
      assert a + b == b;
    } else {
      FlatAppend(a[1..], b);
      assert (a + b)[1..] == a[1..] + b;
    }
  }

  lemma FlatLast(tasks: seq<seq<int>>, task: seq<int>)
    ensures Flat(tasks + [task]) == Flat(tasks) + task
  {
    FlatAppend(tasks, [task]);
    assert [task][1..] == [];
  }

  ghost predicate AllFull(tasks: seq<seq<int>>, size: nat) {
    forall i :: 0 <= i < |tasks| ==> |tasks[i]| == size
  }

  lemma BatchesNext(tasks: seq<seq<int>>, ids: seq<int>, index: nat, end: nat, size: nat)
    requires size > 0 && index < |ids| && end == (if index + size < |ids| then index + size else |ids|)
    requires Batches(tasks, Take(ids, index), size) && AllFull(tasks, size)
    ensures Batches(tasks + [ids[index..end]], Take(ids, index + size), size)
    ensures index + size < |ids| ==> AllFull(tasks + [ids[index..end]], size)
  {
    FlatLast(tasks, ids[index..end]);
    assert Take(ids, index) + ids[index..end] == Take(ids, index + size);
  }

  lemma {:induction false} FlatFull(tasks: seq<seq<int>>, size: nat)
    requires AllFull(tasks, size)
    ensures |Flat(tasks)| == |tasks| * size
  {
    if tasks != [] {
      FlatFull(tasks[1..], size);
      OneFewer(|tasks|, size);
    }
  }

  lemma OneFewer(k: int, size: nat)
    ensures k * size == (k - 1) * size + size
  {
  }

  /**
    The reported number of batches, (n - 1) // size + 1 with floor division, is the number of batches;
    also for n = 0.
   */
  lemma BatchCount(tasks: seq<seq<int>>, ids: seq<int>, size: nat)
    requires size > 0 && Batches(tasks, ids, size)
    ensures |tasks| == (|ids| - 1) / size + 1
  {
    if tasks != [] {
      var front, last := tasks[..|tasks| - 1], tasks[|tasks| - 1];
      assert tasks == front + [last];
      FlatLast(front, last);
      FlatFull(front, size);
      Floor(|front|, |last| - 1, size);
    }
  }

  lemma Floor(q: nat, m: nat, size: nat)
    requires m < size
    ensures (q * size + m) / size == q
  {
    var n := q * size + m;
    var d := n / size;
    assert n == d * size + n % size;
    if d < q {
      StepsApart(d, q, size);
    } else if d > q {
      StepsApart(q, d, size);
    }
  }

  lemma Product(d: nat, size: nat)
    ensures d * size >= 0
  {
  }

  lemma StepsApart(a: int, b: int, size: nat)
    requires a < b
    ensures a * size + size <= b * size
  {
    var d := b - a - 1;
    Product(d, size);
    assert b * size == (a + 1 + d) * size == a * size + size + d * size;
  }

  // ---------- orders of execution ----------

  lemma MiddleApart<T>(a: seq<T>, m: seq<T>, b: seq<T>)
    ensures multiset(a + m + b) == multiset(a + b) + multiset(m)
  {
  }

  lemma FlatAround(a: seq<seq<int>>, task: seq<int>, b: seq<seq<int>>)
    ensures multiset(Flat(a + [task] + b)) == multiset(Flat(a + b)) + multiset(task)
  {
    FlatAppend(a + [task], b);
    FlatLast(a, task);
    FlatAppend(a, b);
    MiddleApart(Flat(a), task, Flat(b));
  }

  lemma Cancel<T>(a: multiset<T>, b: multiset<T>, c: multiset<T>)
    requires a + c == b + c
    ensures a == b
  {
    forall x ensures a[x] == b[x] {
      assert (a + c)[x] == (b + c)[x];
    }
  }

  /** A reordered sequence splits around the first element of the other. */
  lemma SplitAt<T>(x: T, rest: seq<T>, b: seq<T>) returns (front: seq<T>, back: seq<T>)
    requires multiset([x] + rest) == multiset(b)
    ensures b == front + [x] + back && multiset(rest) == multiset(front + back)
  {
    assert x in multiset(b);
    var i :| 0 <= i < |b| && b[i] == x;
    front, back := b[..i], b[i + 1..];
    assert b == front + [x] + back;
    MiddleApart(front, [x], back);
    Cancel(multiset(rest), multiset(front + back), multiset([x]));
  }

  lemma {:induction false} FlatShuffled(a: seq<seq<int>>, b: seq<seq<int>>)
    requires multiset(a) == multiset(b)
    ensures multiset(Flat(a)) == multiset(Flat(b))
  {
    if a == [] {
      assert |b| == |multiset(b)| == |multiset(a)| == 0;
    } else {
      assert a == [a[0]] + a[1..];
      var front, back := SplitAt(a[0], a[1..], b);
      FlatShuffled(a[1..], front + back);
      FlatAround(front, a[0], back);
    }
  }

  lemma {:induction false} CountsDistinct<T>(s: seq<T>)
    ensures Distinct(s) <==> forall x :: x in s ==> multiset(s)[x] == 1
  {
    if s != [] {
      var rest := s[1..];
      CountsDistinct(rest);
      assert s == [s[0]] + rest;
      assert multiset(s) == multiset{s[0]} + multiset(rest);
      assert multiset(s)[s[0]] == 1 + multiset(rest)[s[0]];
      assert forall x :: x != s[0] ==> multiset(s)[x] == multiset(rest)[x];
      assert Distinct(s) <==> Distinct(rest) && s[0] !in rest;
    }
  }

  /** Whatever order the batches run in, each id of a duplicate-free list gets its turn exactly once. */
  lemma AnyOrder(tasks: seq<seq<int>>, order: seq<seq<int>>)
    requires multiset(order) == multiset(tasks) && Distinct(Flat(tasks))
    ensures Distinct(Flat(order)) && forall x :: x in Flat(order) <==> x in Flat(tasks)
  {
    FlatShuffled(order, tasks);
    SameCounts(Flat(tasks), Flat(order));
  }

  lemma SameCounts<T>(a: seq<T>, b: seq<T>)
    requires multiset(a) == multiset(b) && Distinct(a)
    ensures Distinct(b) && forall x :: x in a <==> x in b
  {
    assert forall x :: x in a <==> x in multiset(a);
    assert forall x :: x in b <==> x in multiset(b);
    CountsDistinct(a);
    CountsDistinct(b);
  }

  // ---------- deliveries ----------

  lemma RowsDeliverable(stored: seq<Row>, ids: seq<int>, createdAt: int, tweet: int)
    requires Distinct(ids)
    ensures DistinctOwners(RowsOf(ids, createdAt, tweet))
    ensures NewestFor(stored, ids, createdAt) ==> Deliverable(RowsOf(ids, createdAt, tweet), stored)
  {
  }

  lemma BatchDelivers(stored: set<Row>, ids: seq<int>, createdAt: int, tweet: int)
    requires Distinct(ids)
    ensures WrittenAll(stored, RowsOf(ids, createdAt, tweet)) == Delivered(stored, ids, createdAt, tweet)
  {
    var batch := RowsOf(ids, createdAt, tweet);
    forall x ensures x in WrittenAll(stored, batch) <==> x in Delivered(stored, ids, createdAt, tweet) {
      WrittenAllMembers(stored, batch, x);
      ReplacedByRows(x, ids, createdAt, tweet);
    }
  }

  lemma ReplacedByRows(x: Row, ids: seq<int>, createdAt: int, tweet: int)
    ensures Replaced(x, RowsOf(ids, createdAt, tweet)) <==> x.createdAt == createdAt && x.owner in ids
  {
    var batch := RowsOf(ids, createdAt, tweet);
    if x.createdAt == createdAt && x.owner in ids {
      var i :| 0 <= i < |ids| && ids[i] == x.owner;
      assert batch[i] in batch && SameKey(x, batch[i]);
    }
  }

  lemma DeliveredBoth(stored: set<Row>, a: seq<int>, b: seq<int>, createdAt: int, tweet: int)
    ensures Delivered(Delivered(stored, a, createdAt, tweet), b, createdAt, tweet)
        == Delivered(stored, a + b, createdAt, tweet)
  {
    var rows, rowsA, rowsB := RowsOf(a + b, createdAt, tweet), RowsOf(a, createdAt, tweet), RowsOf(b, createdAt, tweet);
    assert rows == rowsA + rowsB;
    forall x | x in rowsA && x.owner in b ensures x in rowsB {
      var i :| 0 <= i < |b| && b[i] == x.owner;
      assert rowsB[i] == x;
    }
  }

  lemma BatchGains(before: seq<Row>, after: seq<Row>, ids: seq<int>, createdAt: int, tweet: int)
    requires Distinct(ids)
    requires forall u :: FeedOf(after, u) == Owned(RowsOf(ids, createdAt, tweet), u) + FeedOf(before, u)
    ensures Gained(before, after, ids, createdAt, tweet)
  {
    var batch := RowsOf(ids, createdAt, tweet);
    RowsDeliverable(before, ids, createdAt, tweet);
    forall u ensures Owned(batch, u) == if u in ids then [Row(u, createdAt, tweet)] else [] {
      OwnedAtMostOne(batch, u);
      if u in ids {
        var i :| 0 <= i < |ids| && ids[i] == u;
        assert batch[i] in batch && batch[i].owner == u;
      } else {
        NoneOwned(batch, u);
      }
    }
  }

  lemma GainedBoth(before: seq<Row>, middle: seq<Row>, after: seq<Row>, a: seq<int>, b: seq<int>, createdAt: int,
                   tweet: int)
    requires Gained(before, middle, a, createdAt, tweet) && Gained(middle, after, b, createdAt, tweet)
    requires Distinct(a + b)
    ensures Gained(before, after, a + b, createdAt, tweet)
  {
    forall u ensures FeedOf(after, u) == (if u in a + b then [Row(u, createdAt, tweet)] else []) + FeedOf(before, u) {
      NotInBoth(a, b, u);
    }
  }

  lemma NotInBoth(a: seq<int>, b: seq<int>, u: int)
    requires Distinct(a + b)
    ensures !(u in a && u in b)
  {
    forall i, j | 0 <= i < |a| && 0 <= j < |b| ensures a[i] != b[j] {
      assert (a + b)[i] == a[i] && (a + b)[|a| + j] == b[j];
    }
  }

  lemma StillNewest(before: seq<Row>, middle: seq<Row>, a: seq<int>, b: seq<int>, createdAt: int, tweet: int)
    requires Gained(before, middle, a, createdAt, tweet) && Distinct(a + b) && NewestFor(before, b, createdAt)
    ensures NewestFor(middle, b, createdAt)
  {
    forall u, x | u in b && x in FeedOf(middle, u) ensures x.createdAt < createdAt {
      NotInBoth(a, b, u);
      assert FeedOf(middle, u) == FeedOf(before, u);
    }
  }

  lemma DeliversBoth(before: seq<Row>, middle: seq<Row>, after: seq<Row>, a: seq<int>, b: seq<int>, createdAt: int,
                     tweet: int)
    requires Delivers(before, middle, a, createdAt, tweet) && Delivers(middle, after, b, createdAt, tweet)
    requires Distinct(a + b)
    ensures Delivers(before, after, a + b, createdAt, tweet)
    ensures NewestFor(before, a + b, createdAt) ==> NewestFor(before, a, createdAt) && NewestFor(middle, b, createdAt)
  {
    DeliveredBoth(Elements(before), a, b, createdAt, tweet);
    if NewestFor(before, a + b, createdAt) {
      NewestSplits(before, a, b, createdAt);
      StillNewest(before, middle, a, b, createdAt, tweet);
      GainedBoth(before, middle, after, a, b, createdAt, tweet);
    }
  }

  lemma NewestSplits(before: seq<Row>, a: seq<int>, b: seq<int>, createdAt: int)
    requires NewestFor(before, a + b, createdAt)
    ensures NewestFor(before, a, createdAt) && NewestFor(before, b, createdAt)
  {
    assert forall u :: u in a ==> u in a + b;
    assert forall u :: u in b ==> u in a + b;
  }

  /** Both services are valid and share nothing. */
  ghost predicate Apart(newsfeeds: NewsFeedService, friendships: FriendshipService)
    reads newsfeeds, newsfeeds.table, newsfeeds.table.model, newsfeeds.redis
    reads friendships.following, friendships.following.model, friendships.follower, friendships.follower.model
  {
    && newsfeeds.Valid() && friendships.Valid()
    && newsfeeds.table !in {friendships.following, friendships.follower}
    && newsfeeds.table.model !in {friendships.following.model, friendships.follower.model}
  }

  /** The batching loop of the main task, and the number of batches it reports. */
  method Dispatch(ids: seq<int>, size: nat) returns (tasks: seq<seq<int>>, count: int)
    requires size > 0
    ensures Batches(tasks, ids, size)
    ensures count == |tasks|
  {
    tasks := [];
    var index := 0;
    while index < |ids|
      invariant Batches(tasks, Take(ids, index), size) && (index < |ids| ==> AllFull(tasks, size))
    {
      var end := if index + size < |ids| then index + size else |ids|;
      var batch := ids[index..end];
      BatchesNext(tasks, ids, index, end, size);
      tasks := tasks + [batch];
      index := index + size;
    }
    BatchCount(tasks, ids, size);
    count := (|ids| - 1) / size + 1;
  }

  /** fanout_newsfeeds_main_task: the author's row first, then one task for each batch of followers. */
  method MainTask(newsfeeds: NewsFeedService, friendships: FriendshipService, size: nat, tweet: int, createdAt: int,
                  author: int) returns (tasks: seq<seq<int>>, count: int)
    requires size > 0 && Apart(newsfeeds, friendships) && Storable(Row(author, createdAt, tweet))
    modifies newsfeeds.table, newsfeeds.table.model, newsfeeds.redis
    ensures Apart(newsfeeds, friendships)
    ensures Delivers(old(newsfeeds.table.rows), newsfeeds.table.rows, [author], createdAt, tweet)
    ensures newsfeeds.State()
        == PushedTo(old(newsfeeds.State()), newsfeeds.redis.faults, [author], createdAt, tweet, newsfeeds.helper.limit)
    ensures NewestFor(old(newsfeeds.table.rows), [author], createdAt) ==>
      (newsfeeds.redis.Reliable() && old(newsfeeds.AllCoherent()) ==> newsfeeds.AllCoherent())
    ensures Batches(tasks, Items(Owned(friendships.follower.rows, author)), size)
    ensures count == |tasks|
  {
    DeliverOne(newsfeeds, tweet, createdAt, author);
    tasks, count := DispatchFollowers(friendships, size, author);
  }

  method DispatchFollowers(friendships: FriendshipService, size: nat, author: int)
    returns (tasks: seq<seq<int>>, count: int)
    requires size > 0 && friendships.Valid() && UserId(author)
    ensures Batches(tasks, Items(Owned(friendships.follower.rows, author)), size)
    ensures count == |tasks|
  {
    var ids := friendships.GetFollowerUserIdList(author);
    tasks, count := Dispatch(ids, size);
  }

  /** fanout_newsfeeds_batch_task */
  method BatchTask(service: NewsFeedService, tweet: int, createdAt: int, ids: seq<int>)
    requires service.Valid() && Distinct(ids) && forall u :: u in ids ==> Storable(Row(u, createdAt, tweet))
    modifies service.table, service.table.model, service.redis
    ensures service.Valid()
    ensures Delivers(old(service.table.rows), service.table.rows, ids, createdAt, tweet)
    ensures service.State()
        == PushedTo(old(service.State()), service.redis.faults, ids, createdAt, tweet, service.helper.limit)
    ensures NewestFor(old(service.table.rows), ids, createdAt) ==>
      (service.redis.Reliable() && old(service.AllCoherent()) ==> service.AllCoherent())
  {
    RowsDeliverable(service.table.rows, ids, createdAt, tweet);
    BatchDelivers(service.table.Contents(), ids, createdAt, tweet);
    service.BatchCreate(RowsOf(ids, createdAt, tweet));
    if NewestFor(old(service.table.rows), ids, createdAt) {
      forall u ensures FeedOf(service.table.rows, u)
        == Owned(RowsOf(ids, createdAt, tweet), u) + FeedOf(old(service.table.rows), u) {
        assert service.FeedFor(u) == Owned(RowsOf(ids, createdAt, tweet), u) + old(service.FeedFor(u));
      }
      BatchGains(old(service.table.rows), service.table.rows, ids, createdAt, tweet);
    }
  }

  /** The workers take the batches in some order. */
  method RunTasks(service: NewsFeedService, tweet: int, createdAt: int, order: seq<seq<int>>)
    requires service.Valid() && Distinct(Flat(order)) && forall u :: u in Flat(order) ==>
      Storable(Row(u, createdAt, tweet))
    modifies service.table, service.table.model, service.redis
    ensures service.Valid()
    ensures Delivers(old(service.table.rows), service.table.rows, Flat(order), createdAt, tweet)
    ensures service.State()
        == PushedTo(old(service.State()), service.redis.faults, Flat(order), createdAt, tweet, service.helper.limit)
    ensures NewestFor(old(service.table.rows), Flat(order), createdAt) ==>
      (service.redis.Reliable() && old(service.AllCoherent()) ==> service.AllCoherent())
  {
    ghost var before, start := service.table.rows, service.State();
    NothingDelivered(before, createdAt, tweet);
    PushedToOne(start, service.redis.faults, 0, createdAt, tweet, service.helper.limit);
    for k := 0 to |order|
      invariant service.Valid()
      invariant Delivers(before, service.table.rows, Flat(order[..k]), createdAt, tweet)
      invariant service.State()
          == PushedTo(start, service.redis.faults, Flat(order[..k]), createdAt, tweet, service.helper.limit)
      invariant NewestFor(before, Flat(order), createdAt) ==>
        (service.redis.Reliable() && old(service.AllCoherent()) ==> service.AllCoherent())
    {
      ghost var done := Flat(order[..k]);
      ghost var middle := service.table.rows;
      NextTask(order, k);
      BatchTask(service, tweet, createdAt, order[k]);
      PushedToBoth(start, service.redis.faults, done, order[k], createdAt, tweet, service.helper.limit);
      DeliversBoth(before, middle, service.table.rows, done, order[k], createdAt, tweet);
      FewerNewest(before, order, k, createdAt);
    }
    assert order[..|order|] == order;
  }

  /**
    A whole fanout, with the batches run in an arbitrary order: one row for the author and one for
    each follower, nobody twice, and nothing else changes.
   */
  method DeliverAll(newsfeeds: NewsFeedService, friendships: FriendshipService, size: nat, tweet: int, createdAt: int,
                    author: int, shuffle: seq<seq<int>> -> seq<seq<int>>) returns (recipients: seq<int>)
    requires size > 0 && Apart(newsfeeds, friendships) && Storable(Row(author, createdAt, tweet))
    requires Guarded(friendships) && forall tasks :: multiset(shuffle(tasks)) == multiset(tasks)
    modifies newsfeeds.table, newsfeeds.table.model, newsfeeds.redis
    ensures Apart(newsfeeds, friendships)
    ensures Distinct(recipients)
    ensures forall u :: u in recipients <==> u == author || Pair(u, author) in Pairs(friendships.following.Contents())
    ensures Delivers(old(newsfeeds.table.rows), newsfeeds.table.rows, recipients, createdAt, tweet)
    ensures newsfeeds.State()
        == PushedTo(old(newsfeeds.State()), newsfeeds.redis.faults, recipients, createdAt, tweet,
                    newsfeeds.helper.limit)
    ensures newsfeeds.redis.Reliable() ==>
      InFront(old(newsfeeds.redis.lists), newsfeeds.redis.lists, recipients, createdAt, tweet, newsfeeds.helper.limit)
    ensures NewestFor(old(newsfeeds.table.rows), recipients, createdAt) ==>
      (newsfeeds.redis.Reliable() && old(newsfeeds.AllCoherent()) ==> newsfeeds.AllCoherent())
  {
    ghost var before, start := newsfeeds.table.rows, newsfeeds.State();
    var tasks, _ := MainTask(newsfeeds, friendships, size, tweet, createdAt, author);
    ghost var middle := newsfeeds.table.rows;
    var order := shuffle(tasks);
    RecipientsOf(friendships, author, tasks, order);
    recipients := [author] + Flat(order);
    RunTasks(newsfeeds, tweet, createdAt, order);
    PushedToBoth(start, newsfeeds.redis.faults, [author], Flat(order), createdAt, tweet, newsfeeds.helper.limit);
    if newsfeeds.redis.Reliable() {
      PushedInFront(start, newsfeeds.redis.faults, recipients, createdAt, tweet, newsfeeds.helper.limit);
    }
    DeliversBoth(before, middle, newsfeeds.table.rows, [author], Flat(order), createdAt, tweet);
  }

  /**
    A run of follows and unfollows and then a fanout: the tweet reaches the author and exactly those
    whose last word on the author was a follow.
   */
  method FollowThenFanout(views: FriendshipViewSet, newsfeeds: NewsFeedService, size: nat, actions: seq<Action>,
                          tweet: int, createdAt: int, author: int, shuffle: seq<seq<int>> -> seq<seq<int>>)
    returns (recipients: seq<int>)
    requires views.Good() && FreshTimes(actions, views.service.following.Contents())
    requires forall i :: 0 <= i < |actions| ==> ValidAction(actions[i])
    requires size > 0 && Apart(newsfeeds, views.service) && Storable(Row(author, createdAt, tweet))
    requires forall tasks :: multiset(shuffle(tasks)) == multiset(tasks)
    modifies views.service`cache, views.service.following`rows, views.service.following.model
    modifies views.service.follower`rows, views.service.follower.model
    modifies newsfeeds.table, newsfeeds.table.model, newsfeeds.redis
    ensures Distinct(recipients)
    ensures forall u :: u in recipients <==>
      u == author || Pair(u, author) in PairsAfter(views.users, old(views.Graph()), actions)
    ensures Delivers(old(newsfeeds.table.rows), newsfeeds.table.rows, recipients, createdAt, tweet)
    ensures newsfeeds.redis.Reliable() ==>
      InFront(old(newsfeeds.redis.lists), newsfeeds.redis.lists, recipients, createdAt, tweet, newsfeeds.helper.limit)
  {
    var _ := views.Run(actions);
    assert Guarded(views.service);
    recipients := DeliverAll(newsfeeds, views.service, size, tweet, createdAt, author, shuffle);
  }

  /** What the follow guard keeps: the tables mirror each other, without repeated pairs or self-follows. */
  ghost predicate Guarded(friendships: FriendshipService)
    reads friendships.following, friendships.following.model, friendships.follower, friendships.follower.model
  {
    && friendships.Valid() && friendships.Mirrored() && PairsUnique(friendships.following.Contents())
    && forall x :: x in friendships.following.Contents() ==> x.owner != x.item
  }

  lemma FollowersOf(friendships: FriendshipService, author: int)
    requires Guarded(friendships)
    ensures var ids := Items(Owned(friendships.follower.rows, author));
      && Distinct(ids) && author !in ids
      && (forall u :: u in ids <==> Pair(u, author) in Pairs(friendships.following.Contents()))
      && forall u :: u in ids ==> UserId(u)
  {
    friendships.Unique();
    MirrorPairsUnique(friendships.following.Contents(), friendships.follower.Contents());
    OwnedItemsDistinct(friendships.follower.rows, author);
    OwnedTargets(friendships.follower.rows, author);
    SourcesAreTargets(friendships.following.Contents(), friendships.follower.Contents(), author);
  }

  lemma RecipientsOf(friendships: FriendshipService, author: int, tasks: seq<seq<int>>, order: seq<seq<int>>)
    requires Guarded(friendships) && UserId(author)
    requires Flat(tasks) == Items(Owned(friendships.follower.rows, author)) && multiset(order) == multiset(tasks)
    ensures Distinct([author] + Flat(order)) && Distinct(Flat(order))
    ensures forall u :: u in [author] + Flat(order) <==>
      u == author || Pair(u, author) in Pairs(friendships.following.Contents())
    ensures forall u :: u in Flat(order) ==> UserId(u)
  {
    FollowersOf(friendships, author);
    AnyOrder(tasks, order);
  }

  /** NewsFeedService.create for one recipient. */
  method DeliverOne(service: NewsFeedService, tweet: int, createdAt: int, u: int)
    requires service.Valid() && Storable(Row(u, createdAt, tweet))
    modifies service.table, service.table.model, service.redis
    ensures service.Valid()
    ensures Delivers(old(service.table.rows), service.table.rows, [u], createdAt, tweet)
    ensures service.State()
        == PushedTo(old(service.State()), service.redis.faults, [u], createdAt, tweet, service.helper.limit)
    ensures NewestFor(old(service.table.rows), [u], createdAt) ==>
      (service.redis.Reliable() && old(service.AllCoherent()) ==> service.AllCoherent())
  {
    ghost var before := service.table.rows;
    PushedToOne(service.State(), service.redis.faults, u, createdAt, tweet, service.helper.limit);
    CreateRow(service, Row(u, createdAt, tweet));
    OneDelivered(Elements(before), u, createdAt, tweet);
    if NewestFor(before, [u], createdAt) {
      NewestForOne(before, u, createdAt, tweet);
      OneGained(before, service.table.rows, u, createdAt, tweet);
    }
  }

  method CreateRow(service: NewsFeedService, r: Row)
    requires service.Valid() && Storable(r)
    modifies service.table, service.table.model, service.redis
    ensures service.Valid()
    ensures service.table.Contents() == Written(old(service.table.Contents()), r)
    ensures service.State() == Push(old(service.State()), service.redis.faults, r.owner, r, service.helper.limit)
    ensures NewestOf(r, FeedOf(old(service.table.rows), r.owner)) ==>
      OneOnTop(old(service.table.rows), service.table.rows, r)
    ensures NewestOf(r, FeedOf(old(service.table.rows), r.owner)) ==>
      (service.redis.Reliable() && old(service.AllCoherent()) ==> service.AllCoherent())
  {
    ghost var before, server := service.table.rows, service.State();
    service.Create(r);
    if NewestOf(r, FeedOf(before, r.owner)) {
      forall v | v != r.owner ensures FeedOf(service.table.rows, v) == FeedOf(before, v) {
        assert service.FeedFor(v) == old(service.FeedFor(v));
      }
      if service.redis.Reliable() && old(service.AllCoherent()) {
        forall v ensures service.CoherentFor(v) {
          assert old(service.CoherentFor(v));
          PushedCoherent(server, service.redis.faults, r, before, service.table.rows, service.helper.limit, v);
        }
      }
    }
  }

  lemma PushedCoherent(server: Server, f: Faults, r: Row, before: seq<Row>, after: seq<Row>, limit: nat, u: int)
    requires Coherent(server.lists, u, FeedOf(before, u), limit) && limit > 0 && Harmless(f)
    requires OneOnTop(before, after, r) && NewestOf(r, FeedOf(before, r.owner))
    requires r.owner in server.lists ==> server.lists[r.owner] != []
    ensures Coherent(Push(server, f, r.owner, r, limit).lists, u, FeedOf(after, u), limit)
  {
    if u == r.owner {
      PushCoherent(server, f, u, r, FeedOf(before, u), limit);
    } else {
      PushElsewhere(server, f, r.owner, r, limit, u);
    }
  }

  lemma OneDelivered(stored: set<Row>, u: int, createdAt: int, tweet: int)
    ensures Written(stored, Row(u, createdAt, tweet)) == Delivered(stored, [u], createdAt, tweet)
  {
    assert RowsOf([u], createdAt, tweet) == [Row(u, createdAt, tweet)];
  }

  lemma NewestForOne(stored: seq<Row>, u: int, createdAt: int, tweet: int)
    requires NewestFor(stored, [u], createdAt)
    ensures NewestOf(Row(u, createdAt, tweet), FeedOf(stored, u))
  {
    assert u in [u];
  }

  lemma OneGained(before: seq<Row>, after: seq<Row>, u: int, createdAt: int, tweet: int)
    requires OneOnTop(before, after, Row(u, createdAt, tweet))
    ensures Gained(before, after, [u], createdAt, tweet)
  {
  }

  lemma NothingDelivered(before: seq<Row>, createdAt: int, tweet: int)
    ensures Delivered(Elements(before), [], createdAt, tweet) == Elements(before)
    ensures Gained(before, before, [], createdAt, tweet)
  {
    assert RowsOf([], createdAt, tweet) == [];
  }

  lemma FewerNewest(before: seq<Row>, order: seq<seq<int>>, k: nat, createdAt: int)
    requires k < |order| && Distinct(Flat(order))
    ensures NewestFor(before, Flat(order), createdAt) ==> NewestFor(before, Flat(order[..k]) + order[k], createdAt)
  {
    NextTask(order, k);
    var some := Flat(order[..k]) + order[k];
    assert forall u :: u in some ==> u in Flat(order);
  }

  lemma AroundIndex<T>(s: seq<T>, k: nat)
    requires k < |s|
    ensures s[..k + 1] == s[..k] + [s[k]] && s == s[..k] + [s[k]] + s[k + 1..]
  {
  }

  lemma NextTask(order: seq<seq<int>>, k: nat)
    requires k < |order| && Distinct(Flat(order))
    ensures Flat(order[..k + 1]) == Flat(order[..k]) + order[k]
    ensures Distinct(Flat(order[..k]) + order[k]) && Distinct(order[k])
    ensures forall u :: u in Flat(order[..k]) + order[k] ==> u in Flat(order)
  {
    AroundIndex(order, k);
    MiddleTask(order[..k], order[k], order[k + 1..]);
  }

  lemma MiddleTask(a: seq<seq<int>>, task: seq<int>, b: seq<seq<int>>)
    requires Distinct(Flat(a + [task] + b))
    ensures Flat(a + [task]) == Flat(a) + task
    ensures Distinct(Flat(a) + task) && Distinct(task)
    ensures forall u :: u in Flat(a) + task ==> u in Flat(a + [task] + b)
  {
    FlatLast(a, task);
    FlatAppend(a + [task], b);
    DistinctParts(Flat(a), task, Flat(b));
  }

  lemma DistinctParts(a: seq<int>, m: seq<int>, b: seq<int>)
    requires Distinct(a + m + b)
    ensures Distinct(a + m) && Distinct(m)
    ensures forall u :: u in a + m ==> u in a + m + b
  {
    DistinctPrefix(a + m, b);
    DistinctSuffix(a, m);
  }

  lemma DistinctPrefix(a: seq<int>, b: seq<int>)
    requires Distinct(a + b)
    ensures Distinct(a)
  {
    assert forall i :: 0 <= i < |a| ==> (a + b)[i] == a[i];
  }

  lemma DistinctSuffix(a: seq<int>, b: seq<int>)
    requires Distinct(a + b)
    ensures Distinct(b)
  {
    forall i, j | 0 <= i < j < |b| ensures b[i] != b[j] {
      assert (a + b)[|a| + i] == b[i] && (a + b)[|a| + j] == b[j];
    }
  }
}

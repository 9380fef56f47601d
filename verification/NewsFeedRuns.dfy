/**
  Whole-operation runs of the news feed service: creates, loads and expiries of any users in any
  order, while any command may fail or find its key just expired.
 */
module NewsFeedRuns {
  import opened Outcomes
  import opened Feed
  import opened OwnerRows
  import opened RedisCache
  import opened NewsFeed

  datatype Operation = Create(row: Row) | Load(user: int, rivalStored: bool) | Expire(user: int)

  /** Where a run starts, and the faults it meets. */
  datatype Setting = Setting(server: Server, faults: Faults, before: seq<Row>, limit: nat)

  predicate ValidOperation(op: Operation) {
    match op
    case Create(row) => Storable(row)
    case Load(user, _) => UserId(user)
    case Expire(user) => UserId(user)
  }

  function UserOf(op: Operation): int {
    match op
    case Create(row) => row.owner
    case Load(user, _) => user
    case Expire(user) => user
  }

  // ---------- feeds ----------

  /** The rows that a run creates for a user, newest first. */
  function Created(ops: seq<Operation>, u: int): seq<Row> {
    if ops == [] then []
    else
      var last := ops[|ops| - 1];
      var earlier := Created(ops[..|ops| - 1], u);
      if last.Create? && last.row.owner == u then [last.row] + earlier else earlier
  }

  /** The feed of a user after the first k operations. */
  function FeedAt(before: seq<Row>, ops: seq<Operation>, k: nat, u: int): seq<Row>
    requires k <= |ops|
  {
    Created(ops[..k], u) + FeedOf(before, u)
  }

  /** Each row is created later, by its timestamp, than all earlier rows of its owner. */
  ghost predicate Increasing(ops: seq<Operation>, before: set<Row>) {
    forall i :: 0 <= i < |ops| && ops[i].Create? ==>
      && (forall x :: x in before && x.owner == ops[i].row.owner ==> x.createdAt < ops[i].row.createdAt)
      && (forall j :: 0 <= j < i && ops[j].Create? && ops[j].row.owner == ops[i].row.owner ==>
            ops[j].row.createdAt < ops[i].row.createdAt)
  }

  lemma {:induction false} CreatedMembers(ops: seq<Operation>, u: int, r: Row)
    ensures r in Created(ops, u) <==> r.owner == u && exists i :: 0 <= i < |ops| && ops[i] == Create(r)
  {
    if ops != [] {
      var front, last := ops[..|ops| - 1], ops[|ops| - 1];
      CreatedMembers(front, u, r);
      assert (exists i :: 0 <= i < |ops| && ops[i] == Create(r))
          <==> last == Create(r) || exists i :: 0 <= i < |front| && front[i] == Create(r);
    }
  }

  lemma NextIsNewest(ops: seq<Operation>, k: nat, before: seq<Row>)
    requires Increasing(ops, Elements(before)) && k < |ops| && ops[k].Create?
    ensures NewestOf(ops[k].row, FeedAt(before, ops, k, ops[k].row.owner))
  {
    var u := ops[k].row.owner;
    forall x | x in FeedAt(before, ops, k, u) ensures x.createdAt < ops[k].row.createdAt {
      if x in Created(ops[..k], u) {
        CreatedMembers(ops[..k], u, x);
      } else {
        FeedMembers(before, u, x);
        assert x in Elements(before);
      }
    }
  }

  /** Each row created for u is newer than its feed at that time. */
  ghost predicate OwnNewest(before: seq<Row>, ops: seq<Operation>, u: int) {
    forall k {:trigger ops[k]} :: 0 <= k < |ops| && ops[k].Create? && ops[k].row.owner == u ==>
      NewestOf(ops[k].row, FeedAt(before, ops, k, u))
  }

  lemma IncreasingIsNewest(before: seq<Row>, ops: seq<Operation>, u: int)
    requires Increasing(ops, Elements(before))
    ensures OwnNewest(before, ops, u)
  {
    forall k | 0 <= k < |ops| && ops[k].Create? && ops[k].row.owner == u
      ensures NewestOf(ops[k].row, FeedAt(before, ops, k, u)) {
      NextIsNewest(ops, k, before);
    }
  }

  function Grown(op: Operation, u: int, feed: seq<Row>): seq<Row> {
    if op.Create? && op.row.owner == u then [op.row] + feed else feed
  }

  lemma FeedStep(before: seq<Row>, ops: seq<Operation>, k: nat, u: int)
    requires k < |ops|
    ensures FeedAt(before, ops, k + 1, u)
        == Grown(ops[k], u, FeedAt(before, ops, k, u))
  {
    assert ops[..k + 1][..k] == ops[..k];
    var created, feed := Created(ops[..k], u), FeedOf(before, u);
    assert ops[k].Create? ==> [ops[k].row] + (created + feed) == [ops[k].row] + created + feed;
  }

  // ---------- the cache ----------

  /** What one operation does to the server, and what it answers; feed is that of its user. */
  function Next(s: Server, f: Faults, limit: nat, op: Operation, feed: seq<Row>): (Server, Option<seq<Row>>) {
    match op
    case Create(row) => (Push(s, f, row.owner, row, limit), None)
    case Load(user, rivalStored) =>
      var (after, rows) := LoadFor(s, f, user, feed, limit, rivalStored);
      (after, Some(rows))
    case Expire(user) => (Server(s.lists - {user}, s.calls), None)
  }

  /** The server after the first k operations. */
  function ServerAt(x: Setting, ops: seq<Operation>, k: nat): Server
    requires k <= |ops|
  {
    if k == 0 then x.server
    else
      var op := ops[k - 1];
      Next(ServerAt(x, ops, k - 1), x.faults, x.limit, op, FeedAt(x.before, ops, k - 1, UserOf(op))).0
  }

  function ReplyAt(x: Setting, ops: seq<Operation>, k: nat): Option<seq<Row>>
    requires k < |ops|
  {
    Next(ServerAt(x, ops, k), x.faults, x.limit, ops[k], FeedAt(x.before, ops, k, UserOf(ops[k]))).1
  }

  ghost predicate CoherentAt(x: Setting, ops: seq<Operation>, k: nat, u: int)
    requires k <= |ops|
  {
    Coherent(ServerAt(x, ops, k).lists, u, FeedAt(x.before, ops, k, u), x.limit)
  }

  /** The k-th operation pushes to u, and its push is kept. */
  predicate KeptAt(x: Setting, ops: seq<Operation>, k: nat)
    requires k < |ops| && ops[k].Create?
  {
    var u := ops[k].row.owner;
    PushKept(ServerAt(x, ops, k), x.faults, u, |FeedAt(x.before, ops, k, u)| < x.limit, x.limit)
  }

  /** The key of u is there before the k-th operation and when that first looks for it. */
  predicate SurvivesAt(x: Setting, ops: seq<Operation>, k: nat, u: int)
    requires k < |ops|
  {
    var s := ServerAt(x, ops, k);
    u in s.lists && !(UserOf(ops[k]) == u && !ops[k].Expire? && x.faults.lapses(s.calls))
  }

  /** The key of u is there after k operations, and a push to it was dropped since it was last absent. */
  ghost predicate Spoiled(x: Setting, ops: seq<Operation>, k: nat, u: int)
    requires k <= |ops|
  {
    && u in ServerAt(x, ops, k).lists
    && if k == 0 then x.server.lists[u] != Take(FeedOf(x.before, u), x.limit)
       else
         || (ops[k - 1].Create? && ops[k - 1].row.owner == u && !KeptAt(x, ops, k - 1))
         || (Spoiled(x, ops, k - 1, u) && SurvivesAt(x, ops, k - 1, u))
  }

  ghost predicate NoEmptyLists(s: Server) {
    forall k :: k in s.lists ==> s.lists[k] != []
  }

  lemma NextNonempty(s: Server, f: Faults, limit: nat, op: Operation, feed: seq<Row>)
    requires NoEmptyLists(s) && limit > 0
    ensures NoEmptyLists(Next(s, f, limit, op, feed).0)
  {
  }

  lemma {:induction false} AlwaysNonempty(x: Setting, ops: seq<Operation>, k: nat)
    requires k <= |ops| && NoEmptyLists(x.server) && x.limit > 0
    ensures NoEmptyLists(ServerAt(x, ops, k))
  {
    if k > 0 {
      AlwaysNonempty(x, ops, k - 1);
      NextNonempty(ServerAt(x, ops, k - 1), x.faults, x.limit, ops[k - 1],
                   FeedAt(x.before, ops, k - 1, UserOf(ops[k - 1])));
    }
  }

  /** An operation for another user leaves the list of u as it was. */
  lemma NextElsewhere(s: Server, f: Faults, limit: nat, op: Operation, feed: seq<Row>, u: int)
    requires UserOf(op) != u
    ensures var after := Next(s, f, limit, op, feed).0.lists;
      (u in after <==> u in s.lists) && ListAt(after, u) == ListAt(s.lists, u)
  {
    match op
    case Create(row) => PushElsewhere(s, f, row.owner, row, limit, u);
    case Load(user, rivalStored) =>
      LoadElsewhere(s, f, user, Take(feed, limit), if rivalStored then Take(feed, limit) else []);
    case Expire(user) =>
  }

  /**
    An operation for u: a list that is coherent when it first looks is coherent afterwards, save
    after a push that was dropped.
   */
  lemma NextCoherent(s: Server, f: Faults, limit: nat, op: Operation, feed: seq<Row>)
    requires limit > 0 && NoEmptyLists(s)
    requires op.Expire? || Coherent(Held(s.lists, UserOf(op), f.lapses(s.calls)), UserOf(op), feed, limit)
    requires op.Create? ==> NewestOf(op.row, feed) && PushKept(s, f, op.row.owner, |feed| < limit, limit)
    ensures Coherent(Next(s, f, limit, op, feed).0.lists, UserOf(op),
                     if op.Create? then [op.row] + feed else feed, limit)
  {
    match op
    case Create(row) =>
      if row.owner in Held(s.lists, row.owner, f.lapses(s.calls)) {
        PushCoherent(s, f, row.owner, row, feed, limit);
      }
    case Load(user, rivalStored) => LoadCoherent(s, f, user, feed, limit, rivalStored);
    case Expire(user) =>
  }

  /**
    At any point of any run, under any faults: the list of a user is absent or holds the newest
    rows, up to the limit, unless a push to it was dropped since its key was last absent.
   */
  lemma {:induction false} NewestUnlessDropped(x: Setting, ops: seq<Operation>, k: nat, u: int)
    requires k <= |ops| && OwnNewest(x.before, ops, u) && NoEmptyLists(x.server) && x.limit > 0
    ensures !Spoiled(x, ops, k, u) ==> CoherentAt(x, ops, k, u)
  {
    if k > 0 && !Spoiled(x, ops, k, u) && u in ServerAt(x, ops, k).lists {
      NewestUnlessDropped(x, ops, k - 1, u);
      NotSpoiledBefore(x, ops, k - 1, u);
      CoherentNext(x, ops, k - 1, u);
    }
  }

  lemma NotSpoiledBefore(x: Setting, ops: seq<Operation>, k: nat, u: int)
    requires k < |ops| && !Spoiled(x, ops, k + 1, u) && u in ServerAt(x, ops, k + 1).lists
    ensures !Spoiled(x, ops, k, u) || !SurvivesAt(x, ops, k, u)
    ensures ops[k].Create? && ops[k].row.owner == u ==> KeptAt(x, ops, k)
  {
  }

  lemma CoherentNext(x: Setting, ops: seq<Operation>, k: nat, u: int)
    requires k < |ops| && OwnNewest(x.before, ops, u) && NoEmptyLists(x.server) && x.limit > 0
    requires CoherentAt(x, ops, k, u) || !SurvivesAt(x, ops, k, u)
    requires ops[k].Create? && ops[k].row.owner == u ==> KeptAt(x, ops, k)
    ensures CoherentAt(x, ops, k + 1, u)
  {
    var s, op := ServerAt(x, ops, k), ops[k];
    var feed := FeedAt(x.before, ops, k, UserOf(op));
    AlwaysNonempty(x, ops, k);
    FeedStep(x.before, ops, k, u);
    if UserOf(op) == u {
      NextCoherent(s, x.faults, x.limit, op, feed);
    } else {
      NextElsewhere(s, x.faults, x.limit, op, feed, u);
    }
  }

  /** The first dropped push does spoil the list: from a coherent list the two are the same. */
  lemma DroppedSpoils(x: Setting, ops: seq<Operation>, k: nat)
    requires k < |ops| && ops[k].Create? && OwnNewest(x.before, ops, ops[k].row.owner)
    requires NoEmptyLists(x.server) && x.limit > 0 && CoherentAt(x, ops, k, ops[k].row.owner)
    ensures CoherentAt(x, ops, k + 1, ops[k].row.owner) <==> KeptAt(x, ops, k)
  {
    var u := ops[k].row.owner;
    AlwaysNonempty(x, ops, k);
    FeedStep(x.before, ops, k, u);
    PushCoherent(ServerAt(x, ops, k), x.faults, u, ops[k].row, FeedAt(x.before, ops, k, u), x.limit);
  }

  /** The load of a key that expired just before its LRANGE. */
  predicate LostAt(x: Setting, ops: seq<Operation>, k: nat)
    requires k < |ops| && ops[k].Load?
  {
    var u := ops[k].user;
    LostLoad(ServerAt(x, ops, k), x.faults, u, FeedAt(x.before, ops, k, u), x.limit, ops[k].rivalStored)
  }

  /** What a load must answer when no push to its user was dropped: the newest rows, or nothing on a lost hit. */
  function Expected(x: Setting, ops: seq<Operation>, k: nat): seq<Row>
    requires k < |ops| && ops[k].Load?
  {
    if LostAt(x, ops, k) then [] else Take(FeedAt(x.before, ops, k, ops[k].user), x.limit)
  }

  lemma LoadsExact(x: Setting, ops: seq<Operation>, k: nat)
    requires k < |ops| && ops[k].Load? && OwnNewest(x.before, ops, ops[k].user) && NoEmptyLists(x.server) && x.limit > 0
    requires !Spoiled(x, ops, k, ops[k].user)
    ensures ReplyAt(x, ops, k) == Some(Expected(x, ops, k))
  {
    var u := ops[k].user;
    NewestUnlessDropped(x, ops, k, u);
    LoadCoherent(ServerAt(x, ops, k), x.faults, u, FeedAt(x.before, ops, k, u), x.limit, ops[k].rivalStored);
  }

  /** Without faults nothing is dropped and no hit is lost. */
  lemma {:induction false} HarmlessRun(x: Setting, ops: seq<Operation>, k: nat, u: int)
    requires k <= |ops| && Harmless(x.faults)
    requires u in x.server.lists ==> x.server.lists[u] == Take(FeedOf(x.before, u), x.limit)
    ensures !Spoiled(x, ops, k, u)
    ensures k < |ops| && ops[k].Load? ==>
      Expected(x, ops, k) == Take(FeedAt(x.before, ops, k, ops[k].user), x.limit)
  {
    if k > 0 {
      HarmlessRun(x, ops, k - 1, u);
    }
  }

  /** A list that starts right is never spoiled while every push to it is kept. */
  lemma {:induction false} KeptUnspoiled(x: Setting, ops: seq<Operation>, k: nat, u: int)
    requires k <= |ops| && (u in x.server.lists ==> x.server.lists[u] == Take(FeedOf(x.before, u), x.limit))
    requires forall i {:trigger ops[i]} :: 0 <= i < k && ops[i].Create? && ops[i].row.owner == u ==> KeptAt(x, ops, i)
    ensures !Spoiled(x, ops, k, u)
  {
    if k > 0 {
      KeptUnspoiled(x, ops, k - 1, u);
    }
  }

  // ---------- under any faults ----------

  /** Rows of the feed, newest first. */
  ghost predicate OrderedIn(list: seq<Row>, feed: seq<Row>) {
    Descending(list) && forall r :: r in list ==> r in feed
  }

  lemma TakeOrdered(list: seq<Row>, feed: seq<Row>, n: nat)
    requires OrderedIn(list, feed)
    ensures OrderedIn(Take(list, n), feed)
  {
  }

  lemma NewestInFront(list: seq<Row>, feed: seq<Row>, r: Row)
    requires OrderedIn(list, feed) && NewestOf(r, feed)
    ensures OrderedIn([r] + list, [r] + feed) && OrderedIn(list, [r] + feed)
  {
  }

  lemma PushOrdered(s: Server, f: Faults, key: int, row: Row, feed: seq<Row>, limit: nat)
    requires OrderedIn(ListAt(s.lists, key), feed) && NewestOf(row, feed)
    ensures OrderedIn(ListAt(Push(s, f, key, row, limit).lists, key), [row] + feed)
  {
    var list := ListAt(s.lists, key);
    NewestInFront(list, feed, row);
    NewestInFront([], feed, row);
    TakeOrdered([row] + list, [row] + feed, limit);
    TakeOrdered([row] + [], [row] + feed, limit);
    assert [row] + [] == [row];
  }

  lemma LoadOrdered(s: Server, f: Faults, key: int, feed: seq<Row>, limit: nat, rivalStored: bool)
    requires OrderedIn(ListAt(s.lists, key), feed) && Descending(feed)
    ensures var (after, rows) := LoadFor(s, f, key, feed, limit, rivalStored);
      OrderedIn(rows, feed) && OrderedIn(ListAt(after.lists, key), feed)
  {
    TakeOrdered(feed, feed, limit);
  }

  lemma NextOrdered(s: Server, f: Faults, limit: nat, op: Operation, feed: seq<Row>)
    requires OrderedIn(ListAt(s.lists, UserOf(op)), feed) && Descending(feed) && (op.Create? ==> NewestOf(op.row, feed))
    ensures OrderedIn(ListAt(Next(s, f, limit, op, feed).0.lists, UserOf(op)), Grown(op, UserOf(op), feed))
    ensures Descending(Grown(op, UserOf(op), feed))
  {
    match op
    case Create(row) => PushOrdered(s, f, row.owner, row, feed, limit);
    case Load(user, rivalStored) => LoadOrdered(s, f, user, feed, limit, rivalStored);
    case Expire(user) =>
  }

  lemma FeedAtStart(before: seq<Row>, ops: seq<Operation>, u: int)
    ensures FeedAt(before, ops, 0, u) == FeedOf(before, u)
  {
    assert ops[..0] == [];
  }

  /** Whatever is lost or expires, and when: a cached list holds rows of the feed, newest first, none twice. */
  lemma {:induction false} ListOrdered(x: Setting, ops: seq<Operation>, k: nat, u: int)
    requires k <= |ops| && OwnNewest(x.before, ops, u)
    requires Descending(FeedOf(x.before, u)) && OrderedIn(ListAt(x.server.lists, u), FeedOf(x.before, u))
    ensures Descending(FeedAt(x.before, ops, k, u))
    ensures OrderedIn(ListAt(ServerAt(x, ops, k).lists, u), FeedAt(x.before, ops, k, u))
  {
    if k == 0 {
      FeedAtStart(x.before, ops, u);
    } else {
      ListOrdered(x, ops, k - 1, u);
      OrderedNext(x, ops, k - 1, u);
    }
  }

  lemma OrderedNext(x: Setting, ops: seq<Operation>, k: nat, u: int)
    requires k < |ops| && OwnNewest(x.before, ops, u) && Descending(FeedAt(x.before, ops, k, u))
    requires OrderedIn(ListAt(ServerAt(x, ops, k).lists, u), FeedAt(x.before, ops, k, u))
    ensures Descending(FeedAt(x.before, ops, k + 1, u))
    ensures OrderedIn(ListAt(ServerAt(x, ops, k + 1).lists, u), FeedAt(x.before, ops, k + 1, u))
  {
    var s, op := ServerAt(x, ops, k), ops[k];
    var feed := FeedAt(x.before, ops, k, UserOf(op));
    FeedStep(x.before, ops, k, u);
    if UserOf(op) == u {
      NextOrdered(s, x.faults, x.limit, op, feed);
    } else {
      NextElsewhere(s, x.faults, x.limit, op, feed, u);
    }
  }

  /** What the first k operations did does not depend on later ones. */
  lemma {:induction false} SamePast(x: Setting, ops: seq<Operation>, more: seq<Operation>, k: nat, u: int)
    requires k <= |ops| && ops <= more
    ensures FeedAt(x.before, more, k, u) == FeedAt(x.before, ops, k, u)
    ensures ServerAt(x, more, k) == ServerAt(x, ops, k)
    ensures Spoiled(x, more, k, u) == Spoiled(x, ops, k, u)
  {
    assert more[..k] == ops[..k];
    if k > 0 {
      SamePast(x, ops, more, k - 1, u);
      SamePast(x, ops, more, k - 1, UserOf(ops[k - 1]));
      assert more[k - 1] == ops[k - 1];
    }
  }

  // ---------- without faults ----------

  /**
    What one operation does when nothing fails: a create goes in front of a list that is there, a
    load answers the list that is there or caches the newest rows, and an expiry drops the list.
   */
  lemma OperationInTurn(x: Setting, ops: seq<Operation>, k: nat)
    requires k < |ops| && Harmless(x.faults) && NoEmptyLists(x.server) && x.limit > 0
    ensures var lists, after := ServerAt(x, ops, k).lists, ServerAt(x, ops, k + 1).lists;
      var u := UserOf(ops[k]);
      var newest := Take(FeedAt(x.before, ops, k, u), x.limit);
      match ops[k]
      case Create(row) =>
        ReplyAt(x, ops, k) == None && after == if u in lists then lists[u := Take([row] + lists[u], x.limit)] else lists
      case Load(_, _) =>
        && ReplyAt(x, ops, k) == Some(if u in lists then lists[u] else newest)
        && after == if u in lists || newest == [] then lists else lists[u := newest]
      case Expire(_) => ReplyAt(x, ops, k) == None && after == lists - {u}
  {
    var s, u := ServerAt(x, ops, k), UserOf(ops[k]);
    var newest := Take(FeedAt(x.before, ops, k, u), x.limit);
    match ops[k]
    case Create(row) => PushReaches(s, x.faults, u, row, x.limit);
    case Load(_, rivalStored) =>
      assert u !in s.lists ==> s.lists - {u} == s.lists;
      LoadHarmless(s, x.faults, u, newest, if rivalStored then newest else []);
    case Expire(_) =>
  }

  /** The i-th operation finds rows to cache for u. */
  predicate Caches(x: Setting, ops: seq<Operation>, i: nat, u: int)
    requires i < |ops|
  {
    ops[i].Load? && ops[i].user == u && FeedAt(x.before, ops, i, u) != []
  }

  /** Before the k-th operation the list of u is there: from the start or since a load, and not expired since. */
  ghost predicate CachedThen(x: Setting, ops: seq<Operation>, k: nat, u: int)
    requires k <= |ops|
  {
    || (u in x.server.lists && forall j :: 0 <= j < k ==> ops[j] != Expire(u))
    || exists i :: 0 <= i < k && Caches(x, ops, i, u) && forall j :: i < j < k ==> ops[j] != Expire(u)
  }

  lemma CachedNext(x: Setting, ops: seq<Operation>, k: nat, u: int)
    requires k < |ops|
    ensures CachedThen(x, ops, k + 1, u) <==>
      Caches(x, ops, k, u) || (CachedThen(x, ops, k, u) && ops[k] != Expire(u))
  {
  }

  lemma ThereNext(x: Setting, ops: seq<Operation>, k: nat, u: int)
    requires k < |ops| && Harmless(x.faults) && NoEmptyLists(x.server) && x.limit > 0
    ensures u in ServerAt(x, ops, k + 1).lists <==>
      Caches(x, ops, k, u) || (u in ServerAt(x, ops, k).lists && ops[k] != Expire(u))
  {
    OperationInTurn(x, ops, k);
  }

  /** Without faults the list of a user is there exactly if it was loaded, or there, and has not expired since. */
  lemma {:induction false} CachedOfRun(x: Setting, ops: seq<Operation>, k: nat, u: int)
    requires k <= |ops| && Harmless(x.faults) && NoEmptyLists(x.server) && x.limit > 0
    ensures u in ServerAt(x, ops, k).lists <==> CachedThen(x, ops, k, u)
  {
    if k > 0 {
      CachedOfRun(x, ops, k - 1, u);
      ThereNext(x, ops, k - 1, u);
      CachedNext(x, ops, k - 1, u);
    }
  }

  /** So without faults what is cached is known from the operations alone: the newest rows, or nothing. */
  lemma ListOfRun(x: Setting, ops: seq<Operation>, k: nat, u: int)
    requires k <= |ops| && Harmless(x.faults) && NoEmptyLists(x.server) && x.limit > 0
    requires OwnNewest(x.before, ops, u) && CoherentAt(x, ops, 0, u)
    ensures ListAt(ServerAt(x, ops, k).lists, u)
         == if CachedThen(x, ops, k, u) then Take(FeedAt(x.before, ops, k, u), x.limit) else []
  {
    FeedAtStart(x.before, ops, u);
    HarmlessRun(x, ops, k, u);
    NewestUnlessDropped(x, ops, k, u);
    CachedOfRun(x, ops, k, u);
  }

  // ---------- the service in a run ----------

  /** One create, and whether its push was kept. */
  method CreateOne(service: NewsFeedService, r: Row) returns (kept: bool)
    requires service.Valid() && Storable(r) && NewestOf(r, service.FeedFor(r.owner))
    modifies service.table, service.table.model, service.redis
    ensures service.Valid()
    ensures service.State() == Push(old(service.State()), service.redis.faults, r.owner, r, service.helper.limit)
    ensures kept == PushKept(old(service.State()), service.redis.faults, r.owner,
                             |old(service.FeedFor(r.owner))| < service.helper.limit, service.helper.limit)
    ensures service.FeedFor(r.owner) == [r] + old(service.FeedFor(r.owner))
    ensures forall u :: u != r.owner ==> service.FeedFor(u) == old(service.FeedFor(u))
    ensures old(service.CoherentFor(r.owner)) ==> (service.CoherentFor(r.owner) <==> kept)
  {
    var newest := service.LazyLoad(r.owner, service.helper.limit);
    var server, faults := Server(service.redis.lists, service.redis.calls), service.redis.faults;
    kept := PushKept(server, faults, r.owner, |newest| < service.helper.limit, service.helper.limit);
    ghost var feed := service.FeedFor(r.owner);
    service.Create(r);
    if old(service.CoherentFor(r.owner)) {
      PushCoherent(server, faults, r.owner, r, feed, service.helper.limit);
    }
  }

  method LoadOne(service: NewsFeedService, user: int, rivalStored: bool) returns (rows: seq<Row>)
    requires service.Valid() && UserId(user)
    modifies service.redis
    ensures service.Valid()
    ensures (service.State(), rows)
        == LoadFor(old(service.State()), service.redis.faults, user, service.FeedFor(user), service.helper.limit,
                   rivalStored)
    ensures old(service.AllCoherent()) ==> service.AllCoherent()
  {
    ghost var s := service.State();
    rows := service.GetCachedNewsfeeds(user, rivalStored);
    if old(service.AllCoherent()) {
      var newest := Take(service.FeedFor(user), service.helper.limit);
      LoadElsewhere(s, service.redis.faults, user, newest, if rivalStored then newest else []);
      forall u ensures service.CoherentFor(u) {
        assert old(service.CoherentFor(u));
      }
    }
  }

  method Perform(service: NewsFeedService, op: Operation) returns (reply: Option<seq<Row>>)
    requires service.Valid() && ValidOperation(op)
    requires op.Create? ==> NewestOf(op.row, service.FeedFor(op.row.owner))
    modifies service.table, service.table.model, service.redis
    ensures service.Valid()
    ensures (service.State(), reply)
        == Next(old(service.State()), service.redis.faults, service.helper.limit, op, old(service.FeedFor(UserOf(op))))
    ensures forall u :: service.FeedFor(u) == Grown(op, u, old(service.FeedFor(u)))
  {
    match op {
      case Create(row) =>
        var _ := CreateOne(service, row);
        reply := None;
      case Load(user, rivalStored) =>
        var rows := LoadOne(service, user, rivalStored);
        reply := Some(rows);
      case Expire(user) =>
        service.Expire(user);
        reply := None;
    }
  }

  /** The state of a service before a run. */
  ghost function Start(service: NewsFeedService): Setting
    reads service, service.table, service.redis
  {
    Setting(service.State(), service.redis.faults, service.table.rows, service.helper.limit)
  }

  /**
    Any run: one reply for each operation. A load answers with the newest rows of its moment, and
    the list of a user is absent or coherent in the end, unless a push to that user was dropped
    since the key was last absent; feeds never depend on the faults.
   */
  method Run(service: NewsFeedService, ops: seq<Operation>) returns (replies: seq<Option<seq<Row>>>)
    requires service.Valid() && Increasing(ops, service.table.Contents())
    requires forall i :: 0 <= i < |ops| ==> ValidOperation(ops[i])
    modifies service.table, service.table.model, service.redis
    ensures service.Valid() && |replies| == |ops|
    ensures forall u :: service.FeedFor(u) == FeedAt(old(service.table.rows), ops, |ops|, u)
    ensures service.State() == ServerAt(old(Start(service)), ops, |ops|)
    ensures forall k :: 0 <= k < |ops| ==> replies[k] == ReplyAt(old(Start(service)), ops, k)
    ensures forall k :: 0 <= k < |ops| && ops[k].Load? && !Spoiled(old(Start(service)), ops, k, ops[k].user) ==>
      replies[k] == Some(Expected(old(Start(service)), ops, k))
    ensures forall u :: !Spoiled(old(Start(service)), ops, |ops|, u) ==> service.CoherentFor(u)
  {
    replies := [];
    ghost var x := Start(service);
    for k := 0 to |ops|
      invariant Reached(service, x, ops, k)
      invariant |replies| == k && Answered(x, ops, replies)
    {
      var reply := PerformNext(service, x, ops, k);
      AnsweredNext(x, ops, replies, reply);
      replies := replies + [reply];
    }
    EndsCoherent(service, x, ops);
  }

  /** The service stands where the first k operations lead. */
  ghost predicate Reached(service: NewsFeedService, x: Setting, ops: seq<Operation>, k: nat)
    requires k <= |ops|
    reads service, service.table, service.table.model, service.redis
  {
    && service.Valid() && service.State() == ServerAt(x, ops, k)
    && service.redis.faults == x.faults && service.helper.limit == x.limit
    && forall u :: service.FeedFor(u) == FeedAt(x.before, ops, k, u)
  }

  method PerformNext(service: NewsFeedService, ghost x: Setting, ops: seq<Operation>, k: nat)
    returns (reply: Option<seq<Row>>)
    requires k < |ops| && Reached(service, x, ops, k) && ValidOperation(ops[k])
    requires Increasing(ops, Elements(x.before))
    modifies service.table, service.table.model, service.redis
    ensures Reached(service, x, ops, k + 1) && reply == ReplyAt(x, ops, k)
  {
    if ops[k].Create? {
      NextIsNewest(ops, k, x.before);
    }
    reply := Perform(service, ops[k]);
    forall u ensures service.FeedFor(u) == FeedAt(x.before, ops, k + 1, u) {
      FeedStep(x.before, ops, k, u);
    }
  }

  lemma EndsCoherent(service: NewsFeedService, x: Setting, ops: seq<Operation>)
    requires Reached(service, x, ops, |ops|)
    requires Increasing(ops, Elements(x.before)) && NoEmptyLists(x.server) && x.limit > 0
    ensures forall u :: !Spoiled(x, ops, |ops|, u) ==> service.CoherentFor(u)
  {
    forall u | !Spoiled(x, ops, |ops|, u) ensures service.CoherentFor(u) {
      IncreasingIsNewest(x.before, ops, u);
      NewestUnlessDropped(x, ops, |ops|, u);
    }
  }

  ghost predicate Answered(x: Setting, ops: seq<Operation>, replies: seq<Option<seq<Row>>>) {
    && |replies| <= |ops|
    && (forall k :: 0 <= k < |replies| ==> replies[k] == ReplyAt(x, ops, k))
    && forall k :: 0 <= k < |replies| && ops[k].Load? && !Spoiled(x, ops, k, ops[k].user) ==>
         replies[k] == Some(Expected(x, ops, k))
  }

  lemma AnsweredNext(x: Setting, ops: seq<Operation>, replies: seq<Option<seq<Row>>>, reply: Option<seq<Row>>)
    requires Answered(x, ops, replies) && |replies| < |ops| && reply == ReplyAt(x, ops, |replies|)
    requires Increasing(ops, Elements(x.before)) && NoEmptyLists(x.server) && x.limit > 0
    ensures Answered(x, ops, replies + [reply])
  {
    var k := |replies|;
    if ops[k].Load? && !Spoiled(x, ops, k, ops[k].user) {
      IncreasingIsNewest(x.before, ops, ops[k].user);
      LoadsExact(x, ops, k);
    }
  }
}

/** The news feed service over the HBase table and the Redis cache. */
module NewsFeed {
  import opened Outcomes
  import opened Feed
  import opened OwnerRows
  import opened OwnerTables
  import opened RedisCache

  /** A row that fits the key layout: the table keeps such rows in order of time. */
  predicate Storable(r: Row) {
    UserId(r.owner) && Stamp(r.createdAt) && r.item >= 0
  }

  // ---------- feeds after a write ----------

  lemma FeedElsewhere(before: seq<Row>, after: seq<Row>, r: Row, u: int)
    requires KeySorted(before) && KeySorted(after) && InRange(before) && InRange(after)
    requires Elements(after) == Written(Elements(before), r) && u != r.owner
    ensures FeedOf(after, u) == FeedOf(before, u)
  {
    FeedDescending(before, u);
    FeedDescending(after, u);
    forall x ensures x in FeedOf(after, u) <==> x in FeedOf(before, u) {
      FeedMembers(before, u, x);
      FeedMembers(after, u, x);
      assert x in after <==> x in Written(Elements(before), r);
    }
    DescendingUnique(FeedOf(after, u), FeedOf(before, u));
  }

  lemma FeedGrows(before: seq<Row>, after: seq<Row>, r: Row)
    requires KeySorted(before) && KeySorted(after) && InRange(before) && InRange(after)
    requires Elements(after) == Written(Elements(before), r) && NewestOf(r, FeedOf(before, r.owner))
    ensures FeedOf(after, r.owner) == [r] + FeedOf(before, r.owner)
  {
    var u, feed := r.owner, FeedOf(before, r.owner);
    FeedDescending(before, u);
    FeedDescending(after, u);
    assert Descending([r] + feed);
    forall x ensures x in FeedOf(after, u) <==> x in [r] + feed {
      FeedMembers(before, u, x);
      FeedMembers(after, u, x);
      assert x in after <==> x in Written(Elements(before), r);
    }
    DescendingUnique(FeedOf(after, u), [r] + feed);
  }

  // ---------- feeds after a batch ----------

  ghost predicate Replaced(x: Row, batch: seq<Row>) {
    exists r :: r in batch && SameKey(x, r)
  }

  lemma {:induction false} WrittenAllMembers(stored: set<Row>, batch: seq<Row>, x: Row)
    requires DistinctOwners(batch)
    ensures x in WrittenAll(stored, batch) <==> x in batch || (x in stored && !Replaced(x, batch))
    decreases |batch|
  {
    if batch != [] {
      var r, rest := batch[0], batch[1..];
      WrittenAllMembers(Written(stored, r), rest, x);
      assert batch == [r] + rest;
      assert Replaced(x, batch) <==> SameKey(x, r) || Replaced(x, rest);
      assert x == r ==> forall y :: y in rest ==> y.owner != x.owner;
    }
  }

  /** What a batch adds to a feed: the row of that owner, if it has one. */
  lemma {:induction false} OwnedAtMostOne(batch: seq<Row>, u: int)
    requires DistinctOwners(batch)
    ensures |Owned(batch, u)| <= 1
    ensures forall r :: r in batch && r.owner == u ==> Owned(batch, u) == [r]
  {
    if batch != [] {
      OwnedAtMostOne(batch[1..], u);
      if batch[0].owner == u {
        NoneOwned(batch[1..], u);
      }
    }
  }

  lemma {:induction false} NoneOwned(batch: seq<Row>, u: int)
    requires forall r :: r in batch ==> r.owner != u
    ensures Owned(batch, u) == []
  {
    if batch != [] {
      NoneOwned(batch[1..], u);
    }
  }

  /** Each row of the batch can be stored and is newer than its owner's feed; no owner occurs twice. */
  ghost predicate Deliverable(batch: seq<Row>, stored: seq<Row>) {
    DistinctOwners(batch) && forall r :: r in batch ==> NewestOf(r, FeedOf(stored, r.owner))
  }

  lemma BatchMembers(before: seq<Row>, after: seq<Row>, batch: seq<Row>, u: int, x: Row)
    requires Deliverable(batch, before) && Elements(after) == WrittenAll(Elements(before), batch)
    ensures x in FeedOf(after, u) <==> x in Owned(batch, u) + FeedOf(before, u)
  {
    FeedMembers(before, u, x);
    FeedMembers(after, u, x);
    OwnedMembers(batch, u, x);
    WrittenAllMembers(Elements(before), batch, x);
    assert x in after <==> x in Elements(after);
    if x in before && Replaced(x, batch) {
      var r :| r in batch && SameKey(x, r);
      FeedMembers(before, r.owner, x);
    }
  }

  lemma BatchOnTop(batch: seq<Row>, before: seq<Row>, u: int)
    requires Deliverable(batch, before) && Descending(FeedOf(before, u)) && |Owned(batch, u)| <= 1
    ensures Descending(Owned(batch, u) + FeedOf(before, u))
  {
    forall x | x in Owned(batch, u) ensures NewestOf(x, FeedOf(before, u)) {
      OwnedMembers(batch, u, x);
    }
  }

  lemma BatchFeed(before: seq<Row>, after: seq<Row>, batch: seq<Row>, u: int)
    requires KeySorted(before) && KeySorted(after) && InRange(before) && InRange(after)
    requires Deliverable(batch, before) && Elements(after) == WrittenAll(Elements(before), batch)
    ensures FeedOf(after, u) == Owned(batch, u) + FeedOf(before, u)
  {
    FeedDescending(before, u);
    FeedDescending(after, u);
    OwnedAtMostOne(batch, u);
    forall x ensures x in FeedOf(after, u) <==> x in Owned(batch, u) + FeedOf(before, u) {
      BatchMembers(before, after, batch, u, x);
    }
    BatchOnTop(batch, before, u);
    DescendingUnique(FeedOf(after, u), Owned(batch, u) + FeedOf(before, u));
  }

  lemma BatchCoherent(s: Server, f: Faults, batch: seq<Row>, before: seq<Row>, limit: nat, u: int)
    requires limit > 0 && Deliverable(batch, before) && forall k :: k in s.lists ==> s.lists[k] != []
    requires Coherent(s.lists, u, FeedOf(before, u), limit) && Harmless(f)
    ensures Coherent(PushAll(s, f, batch, limit).lists, u, Owned(batch, u) + FeedOf(before, u), limit)
  {
    OwnedAtMostOne(batch, u);
    if i :| 0 <= i < |batch| && batch[i].owner == u {
      PushAllCoherent(s, f, batch, limit, i, FeedOf(before, u));
    } else {
      NoneOwned(batch, u);
      PushAllOthers(s, f, batch, limit, u, FeedOf(before, u));
      assert Owned(batch, u) + FeedOf(before, u) == FeedOf(before, u);
    }
  }

  // ---------- loads ----------

  function LoadFor(s: Server, f: Faults, u: int, feed: seq<Row>, limit: nat, rivalStored: bool): (Server, seq<Row>) {
    var newest := Take(feed, limit);
    Load(s, f, u, newest, if rivalStored then newest else [])
  }

  predicate LostLoad(s: Server, f: Faults, u: int, feed: seq<Row>, limit: nat, rivalStored: bool) {
    LostHit(s, f, u, if rivalStored then Take(feed, limit) else [])
  }

  class NewsFeedService {
    const table: OwnerTable
    const redis: Redis
    const helper: RedisHelper

    ghost predicate Valid()
      reads this, table, table.model, redis
    {
      && table.Valid() && table.names == NEWSFEED && InRange(table.rows)
      && redis.Valid() && helper.redis == redis && helper.limit > 0
    }

    ghost function FeedFor(u: int): seq<Row>
      reads table
    {
      FeedOf(table.rows, u)
    }

    ghost function State(): Server
      reads redis
    {
      Server(redis.lists, redis.calls)
    }

    ghost predicate CoherentFor(u: int)
      reads table, redis
    {
      Coherent(redis.lists, u, FeedOf(table.rows, u), helper.limit)
    }

    ghost predicate AllCoherent()
      reads table, redis
    {
      forall u :: CoherentFor(u)
    }

    constructor (faults: Faults, limit: nat)
      requires limit > 0
      ensures Valid() && fresh(table) && fresh(table.model) && fresh(redis)
      ensures redis.faults == faults && helper.limit == limit
      ensures AllCoherent() && forall u :: FeedFor(u) == []
      ensures table.Contents() == {} && redis.lists == map[] && redis.calls == 0
    {
      var t := new OwnerTable(NEWSFEED);
      var c := new Redis(faults);
      var h := new RedisHelper(c, limit);
      table, redis, helper := t, c, h;
    }

    /** lazy_load_newsfeeds: the newest rows of the database. */
    method LazyLoad(u: int, limit: nat) returns (rows: seq<Row>)
      requires Valid() && UserId(u)
      ensures rows == Take(FeedFor(u), limit)
    {
      var r := table.FilterOwner(u, Some(limit), true);
      rows := r.value;
    }

    /** create: the row goes to the database first and is then pushed to its owner's list. */
    method Create(r: Row)
      requires Valid() && Storable(r)
      modifies table, table.model, redis
      ensures Valid()
      ensures table.Contents() == Written(old(table.Contents()), r)
      ensures State()
          == Push(old(State()), redis.faults, r.owner, r, helper.limit)
      ensures forall u :: u != r.owner ==> FeedFor(u) == old(FeedFor(u))
      ensures NewestOf(r, old(FeedFor(r.owner))) ==> FeedFor(r.owner) == [r] + old(FeedFor(r.owner))
    {
      table.FeedIsDescending(r.owner);
      table.Create(r);
      StillInRange(old(table.rows), table.rows, r);
      table.FeedIsDescending(r.owner);
      forall u | u != r.owner ensures FeedFor(u) == old(FeedFor(u)) {
        FeedElsewhere(old(table.rows), table.rows, r, u);
      }
      if NewestOf(r, old(FeedFor(r.owner))) {
        FeedGrows(old(table.rows), table.rows, r);
      }
      helper.PushObjects(r.owner, r);
    }

    method StoreBatch(batch: seq<Row>)
      requires Valid() && forall r :: r in batch ==> Storable(r)
      modifies table, table.model
      ensures Valid()
      ensures table.Contents() == WrittenAll(old(table.Contents()), batch)
      ensures Deliverable(batch, old(table.rows)) ==> forall u :: FeedFor(u) == Owned(batch, u) + old(FeedFor(u))
    {
      table.FeedIsDescending(0);
      table.BatchCreate(batch);
      StillInRangeAll(old(table.rows), table.rows, batch);
      table.FeedIsDescending(0);
      if Deliverable(batch, old(table.rows)) {
        forall u ensures FeedFor(u) == Owned(batch, u) + old(FeedFor(u)) {
          BatchFeed(old(table.rows), table.rows, batch, u);
        }
      }
    }

    method PushBatch(batch: seq<Row>)
      requires Valid()
      modifies redis
      ensures Valid()
      ensures State()
          == PushAll(old(State()), redis.faults, batch, helper.limit)
    {
      ghost var start := State();
      assert batch[0..] == batch;
      for i := 0 to |batch|
        invariant Valid()
        invariant PushAll(State(), redis.faults, batch[i..], helper.limit)
               == PushAll(start, redis.faults, batch, helper.limit)
      {
        PushAllNext(State(), redis.faults, batch, i, helper.limit);
        helper.PushObjects(batch[i].owner, batch[i]);
      }
    }

    /** batch_create: all rows go to the database at once, and are then pushed one by one. */
    method BatchCreate(batch: seq<Row>)
      requires Valid() && forall r :: r in batch ==> Storable(r)
      modifies table, table.model, redis
      ensures Valid()
      ensures table.Contents() == WrittenAll(old(table.Contents()), batch)
      ensures State()
          == PushAll(old(State()), redis.faults, batch, helper.limit)
      ensures Deliverable(batch, old(table.rows)) ==> forall u :: FeedFor(u) == Owned(batch, u) + old(FeedFor(u))
      ensures Deliverable(batch, old(table.rows)) && redis.Reliable() && old(AllCoherent()) ==> AllCoherent()
    {
      ghost var server := State();
      StoreBatch(batch);
      PushBatch(batch);
      if Deliverable(batch, old(table.rows)) && redis.Reliable() && old(AllCoherent()) {
        forall u ensures CoherentFor(u) {
          assert old(CoherentFor(u));
          BatchCoherent(server, redis.faults, batch, old(table.rows), helper.limit, u);
          assert FeedFor(u) == Owned(batch, u) + old(FeedFor(u));
        }
      }
    }

    /**
      get_cached_newsfeeds: from a coherent cache, the newest rows, on every path (hit, miss,
      double-check hit, fallback) and under every fault, but nothing on a lost hit; the cache stays
      coherent. `rivalStored` tells whether another reader rebuilds the key while this one waits.
     */
    method GetCachedNewsfeeds(u: int, rivalStored: bool) returns (rows: seq<Row>)
      requires Valid() && UserId(u)
      modifies redis
      ensures Valid()
      ensures (State(), rows) == LoadFor(old(State()), redis.faults, u, FeedFor(u), helper.limit, rivalStored)
      ensures old(CoherentFor(u)) ==> CoherentFor(u)
      ensures old(CoherentFor(u)) ==>
        rows == if LostLoad(old(State()), redis.faults, u, FeedFor(u), helper.limit, rivalStored) then []
                else Take(FeedFor(u), helper.limit)
      ensures redis.Reliable() && FeedFor(u) != [] ==> u in redis.lists
    {
      var snapshot := LazyLoad(u, helper.limit);
      ghost var start := State();
      rows := helper.LoadObjects(u, snapshot, if rivalStored then snapshot else []);
      if CoherentAt(start, u) {
        LoadCoherent(start, redis.faults, u, FeedFor(u), helper.limit, rivalStored);
      }
      if redis.Reliable() {
        LoadHarmless(start, redis.faults, u, snapshot, if rivalStored then snapshot else []);
      }
    }

    ghost predicate CoherentAt(s: Server, u: int)
      reads table
    {
      Coherent(s.lists, u, FeedOf(table.rows, u), helper.limit)
    }

    /** A key expires. */
    method Expire(u: int)
      requires Valid()
      modifies redis`lists
      ensures Valid() && redis.lists == old(redis.lists) - {u}
      ensures old(AllCoherent()) ==> AllCoherent()
    {
      redis.Expire(u);
      if old(AllCoherent()) {
        forall v ensures CoherentFor(v) {
          assert old(CoherentFor(v));
        }
      }
    }
  }

  lemma StillInRange(before: seq<Row>, after: seq<Row>, r: Row)
    requires InRange(before) && Storable(r) && Elements(after) == Written(Elements(before), r)
    ensures InRange(after)
  {
    forall x | x in after ensures UserId(x.owner) && Stamp(x.createdAt) {
      assert x in Elements(after);
      assert x in Elements(before) || x == r;
    }
  }

  lemma StillInRangeAll(before: seq<Row>, after: seq<Row>, batch: seq<Row>)
    requires InRange(before) && (forall r :: r in batch ==> Storable(r))
    requires Elements(after) == WrittenAll(Elements(before), batch)
    ensures InRange(after)
  {
    forall x | x in after ensures UserId(x.owner) && Stamp(x.createdAt) {
      assert x in Elements(after);
      WrittenAllFrom(Elements(before), batch, x);
      assert x in Elements(before) || x in batch;
    }
  }

  lemma {:induction false} WrittenAllFrom(stored: set<Row>, batch: seq<Row>, x: Row)
    requires x in WrittenAll(stored, batch)
    ensures x in stored || x in batch
    decreases |batch|
  {
    if batch != [] {
      WrittenAllFrom(Written(stored, batch[0]), batch[1..], x);
    }
  }
}

/**
  The list cache: the Redis commands it uses, each of which may fail and each of which may find
  that its key has just expired, and RedisHelper over them.
  This file is about whole operations; module CacheProtocol interleaves their commands.
 */
module RedisCache {
  import opened Feed

  /** A command succeeds, never reaches the server, or takes effect while its reply is lost. */
  datatype Outcome = Done | RequestLost | ReplyLost

  /** What becomes of the i-th command, and whether its key expires just before it: any pattern of both. */
  datatype Faults = Faults(outcome: nat -> Outcome, lapses: nat -> bool)

  ghost predicate Harmless(f: Faults) {
    forall i: nat :: f.outcome(i).Done? && !f.lapses(i)
  }

  datatype Reply<+T> = Reply(value: T) | RedisError

  type Lists = map<int, seq<Row>>

  function ListAt(lists: Lists, key: int): seq<Row> {
    if key in lists then lists[key] else []
  }

  /** What is stored after a key has expired, if it has. */
  function Held<K, V>(stored: map<K, V>, key: K, lapsed: bool): map<K, V> {
    if lapsed then stored - {key} else stored
  }

  class Redis {
    const faults: Faults
    var calls: nat
    var lists: Lists

    /** Redis keeps no empty lists. */
    ghost predicate Valid()
      reads this
    {
      forall k :: k in lists ==> lists[k] != []
    }

    ghost predicate Reliable() {
      Harmless(faults)
    }

    constructor (faults: Faults)
      ensures Valid() && this.faults == faults && lists == map[] && calls == 0
    {
      this.faults := faults;
      calls := 0;
      lists := map[];
    }

    /** What the next command on the key finds. */
    ghost function Found(key: int): Lists
      reads this
    {
      Held(lists, key, faults.lapses(calls))
    }

    method Exists(key: int) returns (r: Reply<bool>)
      requires Valid()
      modifies this
      ensures Valid() && calls == old(calls) + 1 && lists == old(Found(key))
      ensures r == if faults.outcome(old(calls)).Done? then Reply(key in lists) else RedisError
    {
      lists := Held(lists, key, faults.lapses(calls));
      r := if faults.outcome(calls).Done? then Reply(key in lists) else RedisError;
      calls := calls + 1;
    }

    method LRange(key: int) returns (r: Reply<seq<Row>>)
      requires Valid()
      modifies this
      ensures Valid() && calls == old(calls) + 1 && lists == old(Found(key))
      ensures r == if faults.outcome(old(calls)).Done? then Reply(ListAt(lists, key)) else RedisError
    {
      lists := Held(lists, key, faults.lapses(calls));
      r := if faults.outcome(calls).Done? then Reply(ListAt(lists, key)) else RedisError;
      calls := calls + 1;
    }

    method LPush(key: int, row: Row) returns (r: Reply<()>)
      requires Valid()
      modifies this
      ensures Valid() && calls == old(calls) + 1
      ensures var found := old(Found(key));
        lists == if faults.outcome(old(calls)).RequestLost? then found else found[key := [row] + ListAt(found, key)]
      ensures r == if faults.outcome(old(calls)).Done? then Reply(()) else RedisError
    {
      lists := Held(lists, key, faults.lapses(calls));
      if !faults.outcome(calls).RequestLost? {
        lists := lists[key := [row] + ListAt(lists, key)];
      }
      r := if faults.outcome(calls).Done? then Reply(()) else RedisError;
      calls := calls + 1;
    }

    method LTrim(key: int, length: nat) returns (r: Reply<()>)
      requires Valid() && length > 0
      modifies this
      ensures Valid() && calls == old(calls) + 1
      ensures var found := old(Found(key));
        lists == if faults.outcome(old(calls)).RequestLost? || key !in found then found
                 else found[key := Take(found[key], length)]
      ensures r == if faults.outcome(old(calls)).Done? then Reply(()) else RedisError
    {
      lists := Held(lists, key, faults.lapses(calls));
      if !faults.outcome(calls).RequestLost? && key in lists {
        lists := lists[key := Take(lists[key], length)];
      }
      r := if faults.outcome(calls).Done? then Reply(()) else RedisError;
      calls := calls + 1;
    }

    /** The transaction DEL, RPUSH, EXPIRE; without objects it is only the DEL. */
    method Replace(key: int, objects: seq<Row>) returns (r: Reply<()>)
      requires Valid()
      modifies this
      ensures Valid() && calls == old(calls) + 1
      ensures lists == if faults.outcome(old(calls)).RequestLost? then old(Found(key))
                       else Stored(old(Found(key)), key, objects)
      ensures r == if faults.outcome(old(calls)).Done? then Reply(()) else RedisError
    {
      lists := Held(lists, key, faults.lapses(calls));
      if !faults.outcome(calls).RequestLost? {
        lists := Stored(lists, key, objects);
      }
      r := if faults.outcome(calls).Done? then Reply(()) else RedisError;
      calls := calls + 1;
    }

    /** Taking the rebuild lock, which is another key. While this client waits, a rival may rebuild the cold key. */
    method Lock(key: int, rival: seq<Row>) returns (r: Reply<()>)
      requires Valid() && key !in lists
      modifies this
      ensures Valid() && calls == old(calls) + 1 && lists == Stored(old(lists), key, rival)
      ensures r == if faults.outcome(old(calls)).Done? then Reply(()) else RedisError
    {
      lists := Stored(lists, key, rival);
      r := if faults.outcome(calls).Done? then Reply(()) else RedisError;
      calls := calls + 1;
    }

    /** Giving the lock back; an error here is one more Redis error. */
    method Unlock() returns (r: Reply<()>)
      modifies this`calls
      ensures calls == old(calls) + 1
      ensures r == if faults.outcome(old(calls)).Done? then Reply(()) else RedisError
    {
      r := if faults.outcome(calls).Done? then Reply(()) else RedisError;
      calls := calls + 1;
    }

    /** The server drops a key whose time has come, between two operations. */
    method Expire(key: int)
      requires Valid()
      modifies this`lists
      ensures Valid() && lists == old(lists) - {key}
    {
      lists := lists - {key};
    }
  }

  function Stored(lists: Lists, key: int, objects: seq<Row>): Lists {
    if objects == [] then lists - {key} else lists[key := objects]
  }

  /** What the server holds and how many commands were sent. */
  datatype Server = Server(lists: Lists, calls: nat)

  /** push_objects: nothing on a cold key, LPUSH and LTRIM on a hot one, up to the first error. */
  function Push(s: Server, f: Faults, key: int, row: Row, limit: nat): Server {
    var c := s.calls;
    var seen := Held(s.lists, key, f.lapses(c));
    if !f.outcome(c).Done? || key !in seen then Server(seen, c + 1)
    else
      var found := Held(seen, key, f.lapses(c + 1));
      var pushed := found[key := [row] + ListAt(found, key)];
      match f.outcome(c + 1)
      case RequestLost => Server(found, c + 2)
      case ReplyLost => Server(pushed, c + 2)
      case Done =>
        var kept := Held(pushed, key, f.lapses(c + 2));
        var trimmed := if key in kept then kept[key := Take(kept[key], limit)] else kept;
        Server(if f.outcome(c + 2).RequestLost? then kept else trimmed, c + 3)
  }

  /** _load_objects_cache_hit, with the fallback of its caller. */
  function Hit(s: Server, f: Faults, key: int, snapshot: seq<Row>): (Server, seq<Row>) {
    var found := Held(s.lists, key, f.lapses(s.calls));
    (Server(found, s.calls + 1), if f.outcome(s.calls).Done? then ListAt(found, key) else snapshot)
  }

  /** The locked section of load_objects, from the double-check on. */
  function Locked(s: Server, f: Faults, key: int, snapshot: seq<Row>): (Server, seq<Row>) {
    var c := s.calls;
    var seen := Held(s.lists, key, f.lapses(c));
    if !f.outcome(c).Done? then (Server(seen, c + 1), snapshot)
    else if key in seen then Hit(Server(seen, c + 1), f, key, snapshot)
    else (Server(if f.outcome(c + 1).RequestLost? then seen else Stored(seen, key, snapshot), c + 2), snapshot)
  }

  /** load_objects: the server after it, and the rows it returns. */
  function Load(s: Server, f: Faults, key: int, snapshot: seq<Row>, rival: seq<Row>): (Server, seq<Row>) {
    var c := s.calls;
    var seen := Held(s.lists, key, f.lapses(c));
    if !f.outcome(c).Done? then (Server(seen, c + 1), snapshot)
    else if key in seen then Hit(Server(seen, c + 1), f, key, snapshot)
    else
      var entered := Server(Stored(seen, key, rival), c + 2);
      if !f.outcome(c + 1).Done? then (entered, snapshot)
      else
        var (left, objects) := Locked(entered, f, key, snapshot);
        (Server(left.lists, left.calls + 1), if f.outcome(left.calls).Done? then objects else snapshot)
  }

  class RedisHelper {
    const redis: Redis
    const limit: nat

    constructor (redis: Redis, limit: nat)
      requires limit > 0
      ensures this.redis == redis && this.limit == limit
    {
      this.redis := redis;
      this.limit := limit;
    }

    /**
      load_objects. During one whole operation the database does not change, so the closure that
      reads it is passed as the rows it returns. `rival` is what another reader stores while this
      one waits for the lock, or nothing.
     */
    method LoadObjects(key: int, snapshot: seq<Row>, rival: seq<Row>) returns (objects: seq<Row>)
      requires redis.Valid()
      modifies redis
      ensures redis.Valid()
      ensures (Server(redis.lists, redis.calls), objects)
          == Load(Server(old(redis.lists), old(redis.calls)), redis.faults, key, snapshot, rival)
    {
      var hit := redis.Exists(key);
      if hit.RedisError? {
        return snapshot;
      }
      if hit.value {
        objects := CacheHit(key, snapshot);
        return;
      }
      var locked := redis.Lock(key, rival);
      if locked.RedisError? {
        return snapshot;
      }
      objects := LoadLocked(key, snapshot);
      var released := redis.Unlock();
      if released.RedisError? {
        return snapshot;
      }
    }

    method LoadLocked(key: int, snapshot: seq<Row>) returns (objects: seq<Row>)
      requires redis.Valid()
      modifies redis
      ensures redis.Valid()
      ensures (Server(redis.lists, redis.calls), objects)
          == Locked(Server(old(redis.lists), old(redis.calls)), redis.faults, key, snapshot)
    {
      var again := redis.Exists(key);
      if again.RedisError? {
        return snapshot;
      }
      if again.value {
        objects := CacheHit(key, snapshot);
        return;
      }
      assert redis.lists - {key} == redis.lists;
      var stored := LoadObjectsToCache(key, snapshot);
      return snapshot;
    }

    method CacheHit(key: int, snapshot: seq<Row>) returns (objects: seq<Row>)
      requires redis.Valid()
      modifies redis
      ensures redis.Valid()
      ensures (Server(redis.lists, redis.calls), objects)
          == Hit(Server(old(redis.lists), old(redis.calls)), redis.faults, key, snapshot)
    {
      var found := redis.LRange(key);
      objects := if found.Reply? then found.value else snapshot;
    }

    method LoadObjectsToCache(key: int, objects: seq<Row>) returns (r: Reply<()>)
      requires redis.Valid()
      modifies redis
      ensures redis.Valid() && redis.calls == old(redis.calls) + 1
      ensures redis.lists == if redis.faults.outcome(old(redis.calls)).RequestLost? then old(redis.Found(key))
                             else Stored(old(redis.Found(key)), key, objects)
    {
      r := redis.Replace(key, objects);
    }

    method PushObjects(key: int, row: Row)
      requires redis.Valid() && limit > 0
      modifies redis
      ensures redis.Valid()
      ensures Server(redis.lists, redis.calls)
          == Push(Server(old(redis.lists), old(redis.calls)), redis.faults, key, row, limit)
    {
      var hot := redis.Exists(key);
      if hot.RedisError? || !hot.value {
        return;
      }
      var pushed := redis.LPush(key, row);
      if pushed.Reply? {
        var trimmed := redis.LTrim(key, limit);
      }
    }
  }

  // ---------- coherence ----------

  /** The cached list is absent or the newest rows of the feed, up to the limit. */
  ghost predicate Coherent(lists: Lists, key: int, feed: seq<Row>, limit: nat) {
    key in lists ==> lists[key] == Take(feed, limit)
  }

  ghost predicate NewestOf(r: Row, feed: seq<Row>) {
    forall x :: x in feed ==> x.createdAt < r.createdAt
  }

  /**
    Nothing of the push to a surviving list was dropped: the key was cold at the EXISTS; or the
    EXISTS was answered and then, if the key expired before the LPUSH, nothing was left or the row
    alone is enough, and if it did not, the LPUSH took effect and so did the LTRIM where there was
    something to trim, unless the key was gone by then.
   */
  predicate PushKept(s: Server, f: Faults, key: int, room: bool, limit: nat) {
    var c := s.calls;
    || key !in Held(s.lists, key, f.lapses(c))
    || (&& f.outcome(c).Done?
        && match f.outcome(c + 1)
           case RequestLost => f.lapses(c + 1)
           case ReplyLost => if f.lapses(c + 1) then limit == 1 else room
           case Done =>
             f.lapses(c + 2) || if f.lapses(c + 1) then limit == 1 else room || !f.outcome(c + 2).RequestLost?)
  }

  /** A push of the newest row keeps the cache coherent exactly when no part of it was dropped. */
  lemma PushCoherent(s: Server, f: Faults, key: int, row: Row, feed: seq<Row>, limit: nat)
    requires limit > 0 && Coherent(s.lists, key, feed, limit) && NewestOf(row, feed)
    requires key in s.lists ==> s.lists[key] != []
    ensures Coherent(Push(s, f, key, row, limit).lists, key, [row] + feed, limit)
        <==> PushKept(s, f, key, |feed| < limit, limit)
  {
    if key in s.lists {
      var list := s.lists[key];
      var want := Take([row] + feed, limit);
      assert Take([row] + list, limit) == want;
      assert want[0] == row && list[0] == feed[0] && row != feed[0];
      assert limit > 1 ==> want[1] == feed[0];
      if |feed| >= limit {
        assert |[row] + list| == limit + 1;
      } else {
        assert [row] + list == want;
      }
    }
  }

  lemma PushElsewhere(s: Server, f: Faults, key: int, row: Row, limit: nat, u: int)
    requires u != key
    ensures u in Push(s, f, key, row, limit).lists <==> u in s.lists
    ensures ListAt(Push(s, f, key, row, limit).lists, u) == ListAt(s.lists, u)
  {
  }

  /** Without faults, a push to a hot key keeps the cache coherent exactly when the row is the newest. */
  lemma PushOrder(s: Server, f: Faults, key: int, row: Row, feed: seq<Row>, after: seq<Row>, limit: nat)
    requires limit > 0 && key in s.lists && s.lists[key] != [] && Coherent(s.lists, key, feed, limit)
    requires Harmless(f) && Descending(feed) && Descending(after) && row !in feed
    requires forall r :: r in after <==> r == row || r in feed
    ensures Coherent(Push(s, f, key, row, limit).lists, key, after, limit) <==> NewestOf(row, feed)
  {
    if NewestOf(row, feed) {
      DescendingUnique(after, [row] + feed);
      PushCoherent(s, f, key, row, feed, limit);
    } else {
      assert row in after;
      var x :| x in feed && x.createdAt >= row.createdAt;
      assert x in after && x != row;
      assert after[0] != row;
      assert Take(after, limit)[0] == after[0];
    }
  }

  /**
    The key was seen, at the first check or at the double-check, expired before its LRANGE, and no
    error was noticed: load_objects then takes the missing list for an empty one.
   */
  predicate LostHit(s: Server, f: Faults, key: int, rival: seq<Row>) {
    var c := s.calls;
    && f.outcome(c).Done?
    && if key in Held(s.lists, key, f.lapses(c)) then f.outcome(c + 1).Done? && f.lapses(c + 1)
       else && rival != [] && !f.lapses(c + 2) && f.lapses(c + 3)
            && f.outcome(c + 1).Done? && f.outcome(c + 2).Done? && f.outcome(c + 3).Done? && f.outcome(c + 4).Done?
  }

  /**
    From a coherent cache a load returns the newest rows on every path and under every fault,
    except that it returns nothing on a lost hit; and the cache stays coherent.
   */
  lemma LoadCoherent(s: Server, f: Faults, key: int, feed: seq<Row>, limit: nat, rivalStored: bool)
    requires Coherent(Held(s.lists, key, f.lapses(s.calls)), key, feed, limit)
    ensures var newest := Take(feed, limit); var rival := if rivalStored then newest else [];
      var (after, objects) := Load(s, f, key, newest, rival);
      && objects == (if LostHit(s, f, key, rival) then [] else newest)
      && Coherent(after.lists, key, feed, limit)
  {
  }

  /** A load of one key leaves the other lists alone; a harmless one leaves the key with the answer. */
  lemma LoadElsewhere(s: Server, f: Faults, key: int, snapshot: seq<Row>, rival: seq<Row>)
    ensures var after := Load(s, f, key, snapshot, rival).0.lists;
      forall u :: u != key ==> (u in after <==> u in s.lists) && ListAt(after, u) == ListAt(s.lists, u)
  {
  }

  lemma LoadHarmless(s: Server, f: Faults, key: int, snapshot: seq<Row>, rival: seq<Row>)
    requires Harmless(f)
    ensures var (after, objects) := Load(s, f, key, snapshot, rival);
      objects == (if key in s.lists then s.lists[key] else if rival != [] then rival else snapshot)
      && after.lists == if key in s.lists then s.lists else Stored(s.lists, key, objects)
  {
  }

  /** While no key expires in between: how far the commands of a push got decides what the list is. */
  lemma PushReaches(s: Server, f: Faults, key: int, row: Row, limit: nat)
    requires forall i: nat :: !f.lapses(i)
    ensures var c, after := s.calls, Push(s, f, key, row, limit).lists;
      && (key !in s.lists || !f.outcome(c).Done? || f.outcome(c + 1).RequestLost? ==> after == s.lists)
      && (key in s.lists && f.outcome(c).Done? && !f.outcome(c + 1).RequestLost? ==>
            after == s.lists[key := if f.outcome(c + 1).Done? && !f.outcome(c + 2).RequestLost?
                                    then Take([row] + s.lists[key], limit) else [row] + s.lists[key]])
  {
  }

  /** While no key expires in between, a load leaves a hot list alone and answers it, or the snapshot after an error. */
  lemma LoadHot(s: Server, f: Faults, key: int, snapshot: seq<Row>, rival: seq<Row>)
    requires key in s.lists && forall i: nat :: !f.lapses(i)
    ensures var (after, objects) := Load(s, f, key, snapshot, rival);
      && after.lists == s.lists
      && objects == if f.outcome(s.calls).Done? && f.outcome(s.calls + 1).Done? then s.lists[key] else snapshot
  {
  }

  /** A load of a cold key answers the snapshot, and stores it if its commands get that far. */
  lemma LoadCold(s: Server, f: Faults, key: int, snapshot: seq<Row>)
    requires key !in s.lists
    ensures var c, (after, objects) := s.calls, Load(s, f, key, snapshot, []);
      && objects == snapshot
      && after.lists ==
           if f.outcome(c).Done? && f.outcome(c + 1).Done? && f.outcome(c + 2).Done? && !f.outcome(c + 3).RequestLost?
              && snapshot != []
           then s.lists[key := snapshot] else s.lists
  {
    assert s.lists - {key} == s.lists;
  }

  // ---------- pushes of a batch ----------

  function PushAll(s: Server, f: Faults, batch: seq<Row>, limit: nat): Server
    decreases |batch|
  {
    if batch == [] then s
    else PushAll(Push(s, f, batch[0].owner, batch[0], limit), f, batch[1..], limit)
  }

  lemma PushAllNext(s: Server, f: Faults, batch: seq<Row>, k: nat, limit: nat)
    requires k < |batch|
    ensures PushAll(s, f, batch[k..], limit)
        == PushAll(Push(s, f, batch[k].owner, batch[k], limit), f, batch[k + 1..], limit)
  {
    assert batch[k..][1..] == batch[k + 1..];
  }

  ghost predicate DistinctOwners(batch: seq<Row>) {
    forall i, j :: 0 <= i < j < |batch| ==> batch[i].owner != batch[j].owner
  }

  lemma PushNonempty(s: Server, f: Faults, row: Row, limit: nat)
    requires limit > 0 && forall k :: k in s.lists ==> s.lists[k] != []
    ensures forall k :: k in Push(s, f, row.owner, row, limit).lists ==>
      Push(s, f, row.owner, row, limit).lists[k] != []
  {
  }

  /** Pushes to different owners leave each list as its own push does. */
  lemma {:induction false} PushAllOthers(s: Server, f: Faults, batch: seq<Row>, limit: nat, u: int, feed: seq<Row>)
    requires Coherent(s.lists, u, feed, limit) && forall r :: r in batch ==> r.owner != u
    ensures Coherent(PushAll(s, f, batch, limit).lists, u, feed, limit)
    decreases |batch|
  {
    if batch != [] {
      PushElsewhere(s, f, batch[0].owner, batch[0], limit, u);
      PushAllOthers(Push(s, f, batch[0].owner, batch[0], limit), f, batch[1..], limit, u, feed);
    }
  }

  lemma {:induction false} PushAllCoherent(s: Server, f: Faults, batch: seq<Row>, limit: nat, i: nat, feed: seq<Row>)
    requires limit > 0 && DistinctOwners(batch) && i < |batch| && forall k :: k in s.lists ==> s.lists[k] != []
    requires Coherent(s.lists, batch[i].owner, feed, limit) && NewestOf(batch[i], feed)
    requires Harmless(f)
    ensures Coherent(PushAll(s, f, batch, limit).lists, batch[i].owner, [batch[i]] + feed, limit)
    decreases |batch|
  {
    var next, u := Push(s, f, batch[0].owner, batch[0], limit), batch[i].owner;
    if i == 0 {
      PushCoherent(s, f, u, batch[0], feed, limit);
      PushAllOthers(next, f, batch[1..], limit, u, [batch[0]] + feed);
    } else {
      PushNonempty(s, f, batch[0], limit);
      PushElsewhere(s, f, batch[0].owner, batch[0], limit, u);
      PushAllCoherent(next, f, batch[1..], limit, i - 1, feed);
    }
  }

  /** A row pushed twice to a hot list is cached twice: a recipient listed twice would spoil its cache. */
  lemma PushedTwice(s: Server, f: Faults, key: int, row: Row, feed: seq<Row>, limit: nat)
    requires limit > 1 && key in s.lists && s.lists[key] != [] && Coherent(s.lists, key, feed, limit)
    requires NewestOf(row, feed) && row.owner == key && Harmless(f)
    ensures !Coherent(PushAll(s, f, [row, row], limit).lists, key, [row] + feed, limit)
  {
    var once := Push(s, f, key, row, limit);
    var twice := Push(once, f, key, row, limit);
    PushCoherent(s, f, key, row, feed, limit);
    PushAllNext(s, f, [row, row], 0, limit);
    PushAllNext(once, f, [row, row], 1, limit);
    assert [row, row][0..] == [row, row];
    assert [row, row][2..] == [];
    assert twice.lists[key] == Take([row] + once.lists[key], limit);
    assert once.lists[key][0] == row && s.lists[key][0] == feed[0];
    assert twice.lists[key][1] == row;
    assert Take([row] + feed, limit)[1] == feed[0];
  }

  /** Batches pushed one after the other are one batch; a batch of one is one push. */
  lemma {:induction false} PushAllAppend(s: Server, f: Faults, a: seq<Row>, b: seq<Row>, limit: nat)
    ensures PushAll(s, f, a + b, limit) == PushAll(PushAll(s, f, a, limit), f, b, limit)
    ensures a != [] ==> PushAll(s, f, [a[0]], limit) == Push(s, f, a[0].owner, a[0], limit)
    decreases |a|
  {
    if a == [] {
      assert a + b == b;
    } else {
      PushAllAppend(Push(s, f, a[0].owner, a[0], limit), f, a[1..], b, limit);
      assert (a + b)[1..] == a[1..] + b;
      assert [a[0]][1..] == [];
    }
  }

  /** What a batch leaves of the list of u, without faults: its row in front, if the list was there. */
  ghost predicate RowInFront(before: Lists, after: Lists, u: int, row: Row, limit: nat) {
    (u in after <==> u in before) && (u in before ==> after[u] == Take([row] + before[u], limit))
  }

  lemma PushFront(s: Server, f: Faults, row: Row, limit: nat)
    requires Harmless(f) && limit > 0
    ensures RowInFront(s.lists, Push(s, f, row.owner, row, limit).lists, row.owner, row, limit)
  {
  }

  /** Without faults, pushes to distinct owners put each row in front of its owner's list and touch no other. */
  lemma {:induction false} PushAllFront(s: Server, f: Faults, batch: seq<Row>, limit: nat)
    requires Harmless(f) && limit > 0 && DistinctOwners(batch)
    ensures var after := PushAll(s, f, batch, limit).lists;
      && (forall r :: r in batch ==> RowInFront(s.lists, after, r.owner, r, limit))
      && forall u :: (forall r :: r in batch ==> r.owner != u) ==>
           (u in after <==> u in s.lists) && ListAt(after, u) == ListAt(s.lists, u)
    decreases |batch|
  {
    if batch != [] {
      var r, rest := batch[0], batch[1..];
      var next := Push(s, f, r.owner, r, limit);
      var after := PushAll(next, f, rest, limit).lists;
      PushFront(s, f, r, limit);
      PushAllFront(next, f, rest, limit);
      assert batch == [r] + rest;
      forall u | u != r.owner
        ensures (u in next.lists <==> u in s.lists) && ListAt(next.lists, u) == ListAt(s.lists, u) {
        PushElsewhere(s, f, r.owner, r, limit, u);
      }
      forall x | x in rest ensures x.owner != r.owner && RowInFront(s.lists, after, x.owner, x, limit) {
        assert ListAt(next.lists, x.owner) == ListAt(s.lists, x.owner);
      }
    }
  }
}

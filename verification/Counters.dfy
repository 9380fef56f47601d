/** The like and comment counts of tweets: rows, a denormalized count in the database, and a cached count in Redis. */
module Counters {
  import opened Outcomes
  import opened RedisCache

  datatype Kind = TweetKind | CommentKind

  datatype Like = Like(user: int, kind: Kind, target: int)

  datatype Comment = Comment(user: int, tweet: int, content: string)

  datatype Counter = LikesOf(tweet: int) | CommentsOf(tweet: int)

  type Counts = map<Counter, int>

  // ---------- the Redis side ----------

  datatype Store = Store(counts: Counts, calls: nat)

  /** INCR and DECR take a missing count for zero. */
  function Added(counts: Counts, c: Counter, delta: int): int {
    if c in counts then counts[c] + delta else delta
  }

  /** incr_count and decr_count, when the database says `truth`: the store after them and the answer. */
  function Bump(s: Store, f: Faults, c: Counter, delta: int, truth: int): (Store, int) {
    var n := s.calls;
    var seen := Held(s.counts, c, f.lapses(n));
    if !f.outcome(n).Done? then (Store(seen, n + 1), truth)
    else if c in seen then
      var found := Held(seen, c, f.lapses(n + 1));
      var added := Added(found, c, delta);
      match f.outcome(n + 1)
      case Done => (Store(found[c := added], n + 2), added)
      case RequestLost => (Store(found, n + 2), truth)
      case ReplyLost => (Store(found[c := added], n + 2), truth)
    else
      (Store(if f.outcome(n + 1).RequestLost? then seen else seen[c := truth], n + 2), truth)
  }

  /** The cached count is absent or what the database says. */
  predicate Right(counts: Counts, c: Counter, truth: int) {
    c in counts ==> counts[c] == truth
  }

  /**
    There was no cached count; or the INCR or DECR took effect on it; or it expired in between and
    the command was lost as well, or counted from zero to the right number.
   */
  predicate BumpKept(s: Store, f: Faults, c: Counter, delta: int, truth: int) {
    var n := s.calls;
    || c !in Held(s.counts, c, f.lapses(n))
    || (&& f.outcome(n).Done?
        && if f.lapses(n + 1) then f.outcome(n + 1).RequestLost? || truth == delta else !f.outcome(n + 1).RequestLost?)
  }

  /** The count was seen and expired before the INCR or DECR, which was answered from zero. */
  predicate CountedFromZero(s: Store, f: Faults, c: Counter) {
    var n := s.calls;
    && c in Held(s.counts, c, f.lapses(n))
    && f.outcome(n).Done? && f.outcome(n + 1).Done? && f.lapses(n + 1)
  }

  /**
    After the database count moved to `truth`, the cached count is right again exactly when no
    INCR or DECR of a cached count was dropped or met an expired one; and the answer is right
    exactly when it was not counted from zero, or rightly so.
   */
  lemma BumpRight(s: Store, f: Faults, c: Counter, delta: int, truth: int)
    requires Right(s.counts, c, truth - delta) && delta != 0
    ensures Right(Bump(s, f, c, delta, truth).0.counts, c, truth) <==> BumpKept(s, f, c, delta, truth)
    ensures Bump(s, f, c, delta, truth).1 == truth <==> CountedFromZero(s, f, c) ==> truth == delta
    ensures forall d :: d != c ==>
      (d in Bump(s, f, c, delta, truth).0.counts <==> d in s.counts)
      && (d in s.counts ==> Bump(s, f, c, delta, truth).0.counts[d] == s.counts[d])
  {
  }

  /** Without faults a cached count is moved, a missing one is read anew, and either way it is cached afterwards. */
  lemma BumpHarmless(s: Store, f: Faults, c: Counter, delta: int, truth: int)
    requires Harmless(f)
    ensures var (after, answer) := Bump(s, f, c, delta, truth);
      && answer == (if c in s.counts then s.counts[c] + delta else truth)
      && after.counts == s.counts[c := answer] && after.calls == s.calls + 2
  {
  }

  /** The store after k writers have called incr_count, one after the other, when the database says `truth`. */
  function Bumps(s: Store, f: Faults, c: Counter, truth: int, k: nat): Store {
    if k == 0 then s else Bump(Bumps(s, f, c, truth, k - 1), f, c, 1, truth).0
  }

  /**
    When k writers have all updated the database before the first of them finds the cached count
    missing, that one stores the final count and each of the others adds one more: the cached
    count is right exactly when there was no second writer.
   */
  lemma {:induction false} CountedTwice(s: Store, f: Faults, c: Counter, truth: int, k: nat)
    requires c !in s.counts && k > 0 && Harmless(f)
    ensures c in Bumps(s, f, c, truth, k).counts
    ensures Bumps(s, f, c, truth, k).counts[c] == truth + k - 1
    ensures Right(Bumps(s, f, c, truth, k).counts, c, truth) <==> k == 1
  {
    if k > 1 {
      CountedTwice(s, f, c, truth, k - 1);
    }
  }

  class CountCache {
    const faults: Faults
    var calls: nat
    var counts: Counts

    ghost predicate Reliable() {
      Harmless(faults)
    }

    ghost function State(): Store
      reads this
    {
      Store(counts, calls)
    }

    constructor (faults: Faults)
      ensures this.faults == faults && counts == map[] && calls == 0
    {
      this.faults := faults;
      calls := 0;
      counts := map[];
    }

    /** What the next command on the key finds. */
    ghost function Found(c: Counter): Counts
      reads this
    {
      Held(counts, c, faults.lapses(calls))
    }

    method Exists(c: Counter) returns (r: Reply<bool>)
      modifies this
      ensures calls == old(calls) + 1 && counts == old(Found(c))
      ensures r == if faults.outcome(old(calls)).Done? then Reply(c in counts) else RedisError
    {
      counts := Held(counts, c, faults.lapses(calls));
      r := if faults.outcome(calls).Done? then Reply(c in counts) else RedisError;
      calls := calls + 1;
    }

    /** INCR and DECR */
    method IncrBy(c: Counter, delta: int) returns (r: Reply<int>)
      modifies this
      ensures calls == old(calls) + 1
      ensures var found := old(Found(c));
        counts == if faults.outcome(old(calls)).RequestLost? then found else found[c := Added(found, c, delta)]
      ensures r == if faults.outcome(old(calls)).Done? then Reply(Added(old(Found(c)), c, delta)) else RedisError
    {
      counts := Held(counts, c, faults.lapses(calls));
      var added := Added(counts, c, delta);
      if !faults.outcome(calls).RequestLost? {
        counts := counts[c := added];
      }
      r := if faults.outcome(calls).Done? then Reply(added) else RedisError;
      calls := calls + 1;
    }

    method Set(c: Counter, value: int) returns (r: Reply<()>)
      modifies this
      ensures calls == old(calls) + 1
      ensures counts == if faults.outcome(old(calls)).RequestLost? then old(Found(c)) else old(Found(c))[c := value]
      ensures r == if faults.outcome(old(calls)).Done? then Reply(()) else RedisError
    {
      counts := Held(counts, c, faults.lapses(calls));
      if !faults.outcome(calls).RequestLost? {
        counts := counts[c := value];
      }
      r := if faults.outcome(calls).Done? then Reply(()) else RedisError;
      calls := calls + 1;
    }

    method Get(c: Counter) returns (r: Reply<Option<int>>)
      modifies this
      ensures calls == old(calls) + 1 && counts == old(Found(c))
      ensures r == if faults.outcome(old(calls)).Done? then Reply(if c in counts then Some(counts[c]) else None)
                   else RedisError
    {
      counts := Held(counts, c, faults.lapses(calls));
      r := if faults.outcome(calls).Done? then Reply(if c in counts then Some(counts[c]) else None) else RedisError;
      calls := calls + 1;
    }

    /** incr_count and decr_count differ in the sign only. */
    method BumpCount(c: Counter, delta: int, truth: int) returns (count: int)
      modifies this
      ensures (State(), count) == Bump(old(State()), faults, c, delta, truth)
    {
      var found := Exists(c);
      if found.RedisError? {
        return truth;
      }
      if found.value {
        var bumped := IncrBy(c, delta);
        return if bumped.Reply? then bumped.value else truth;
      }
      assert counts - {c} == counts;
      var stored := Set(c, truth);
      return truth;
    }

    /** get_count: on a right cache, the true count under any faults and expiries. */
    method GetCount(c: Counter, truth: int) returns (count: int)
      modifies this
      ensures old(Right(counts, c, truth)) ==> count == truth && Right(counts, c, truth)
      ensures forall d :: d != c ==>
        (d in counts <==> d in old(counts)) && (d in counts ==> counts[d] == old(counts)[d])
      ensures Reliable() ==> counts == old(counts)[c := count]
    {
      var cached := Get(c);
      if cached.RedisError? {
        return truth;
      }
      if cached.value.Some? {
        return cached.value.value;
      }
      var stored := Set(c, truth);
      return truth;
    }

    method Expire(c: Counter)
      modifies this`counts
      ensures counts == old(counts) - {c}
    {
      counts := counts - {c};
    }
  }

  // ---------- rows and counts ----------

  function LikesFor(likes: set<Like>, tweet: int): set<Like> {
    set l | l in likes && l.kind.TweetKind? && l.target == tweet
  }

  function CommentsFor(comments: map<int, Comment>, tweet: int): set<int> {
    set i | i in comments && comments[i].tweet == tweet
  }

  /** The number of rows that a counter stands for. */
  function Live(likes: set<Like>, comments: map<int, Comment>, c: Counter): nat {
    match c
    case LikesOf(tweet) => |LikesFor(likes, tweet)|
    case CommentsOf(tweet) => |CommentsFor(comments, tweet)|
  }

  /** Every database count is the number of its rows. */
  ghost predicate Counted(counts: Counts, likes: set<Like>, comments: map<int, Comment>) {
    forall c :: c in counts ==> counts[c] == Live(likes, comments, c)
  }

  function Moved(counts: Counts, c: Counter, delta: int): Counts {
    if c in counts then counts[c := counts[c] + delta] else counts
  }

  lemma LikeCounted(counts: Counts, likes: set<Like>, comments: map<int, Comment>, l: Like)
    requires Counted(counts, likes, comments) && l !in likes
    ensures Counted(if l.kind.TweetKind? then Moved(counts, LikesOf(l.target), 1) else counts, likes + {l}, comments)
  {
    var after := if l.kind.TweetKind? then Moved(counts, LikesOf(l.target), 1) else counts;
    forall c | c in after ensures after[c] == Live(likes + {l}, comments, c) {
      if c.LikesOf? {
        if l.kind.TweetKind? && l.target == c.tweet {
          assert LikesFor(likes + {l}, c.tweet) == LikesFor(likes, c.tweet) + {l};
        } else {
          assert LikesFor(likes + {l}, c.tweet) == LikesFor(likes, c.tweet);
        }
      }
    }
  }

  lemma CancelCounted(counts: Counts, likes: set<Like>, comments: map<int, Comment>, l: Like)
    requires Counted(counts, likes, comments) && l in likes
    ensures Counted(if l.kind.TweetKind? then Moved(counts, LikesOf(l.target), -1) else counts, likes - {l}, comments)
  {
    var after := if l.kind.TweetKind? then Moved(counts, LikesOf(l.target), -1) else counts;
    forall c | c in after ensures after[c] == Live(likes - {l}, comments, c) {
      if c.LikesOf? {
        if l.kind.TweetKind? && l.target == c.tweet {
          assert LikesFor(likes - {l}, c.tweet) == LikesFor(likes, c.tweet) - {l};
        } else {
          assert LikesFor(likes - {l}, c.tweet) == LikesFor(likes, c.tweet);
        }
      }
    }
  }

  lemma CommentCounted(counts: Counts, likes: set<Like>, comments: map<int, Comment>, id: int, comment: Comment)
    requires Counted(counts, likes, comments) && id !in comments
    ensures Counted(Moved(counts, CommentsOf(comment.tweet), 1), likes, comments[id := comment])
  {
    var after, grown := Moved(counts, CommentsOf(comment.tweet), 1), comments[id := comment];
    forall c | c in after ensures after[c] == Live(likes, grown, c) {
      if c.CommentsOf? {
        if comment.tweet == c.tweet {
          assert CommentsFor(grown, c.tweet) == CommentsFor(comments, c.tweet) + {id};
        } else {
          assert CommentsFor(grown, c.tweet) == CommentsFor(comments, c.tweet);
        }
      }
    }
  }

  lemma EditCounted(counts: Counts, likes: set<Like>, comments: map<int, Comment>, id: int, content: string)
    requires Counted(counts, likes, comments) && id in comments
    ensures Counted(counts, likes, comments[id := comments[id].(content := content)])
  {
    var edited := comments[id := comments[id].(content := content)];
    forall c | c in counts ensures counts[c] == Live(likes, edited, c) {
      if c.CommentsOf? {
        assert CommentsFor(edited, c.tweet) == CommentsFor(comments, c.tweet);
      }
    }
  }

  lemma DeleteCounted(counts: Counts, likes: set<Like>, comments: map<int, Comment>, id: int)
    requires Counted(counts, likes, comments) && id in comments
    ensures Counted(Moved(counts, CommentsOf(comments[id].tweet), -1), likes, comments - {id})
  {
    var after, fewer := Moved(counts, CommentsOf(comments[id].tweet), -1), comments - {id};
    forall c | c in after ensures after[c] == Live(likes, fewer, c) {
      if c.CommentsOf? {
        if comments[id].tweet == c.tweet {
          assert CommentsFor(fewer, c.tweet) == CommentsFor(comments, c.tweet) - {id};
        } else {
          assert CommentsFor(fewer, c.tweet) == CommentsFor(comments, c.tweet);
        }
      }
    }
  }

  /** Every cached count is the one in the database. */
  ghost predicate AllRight(cached: Counts, counts: Counts) {
    forall c :: c in counts ==> Right(cached, c, counts[c])
  }

  lemma StillAllRight(s: Store, f: Faults, counts: Counts, c: Counter, delta: int)
    requires AllRight(s.counts, counts) && c in counts && delta != 0 && Harmless(f)
    ensures AllRight(Bump(s, f, c, delta, counts[c] + delta).0.counts, Moved(counts, c, delta))
  {
    BumpRight(s, f, c, delta, counts[c] + delta);
  }

  class Engagement {
    const cache: CountCache
    var likes: set<Like>
    var comments: map<int, Comment>
    var counts: Counts
    var nextId: int

    /** Tweets have two counts each, and every count is the number of its rows. */
    ghost predicate Valid()
      reads this
    {
      && Counted(counts, likes, comments)
      && (forall t :: LikesOf(t) in counts <==> CommentsOf(t) in counts)
      && (forall i :: i in comments ==> i < nextId && CommentsOf(comments[i].tweet) in counts)
    }

    ghost function Rows(): Board
      reads this
    {
      Board(likes, comments, nextId)
    }

    ghost predicate CacheRight()
      reads this, cache
    {
      AllRight(cache.counts, counts)
    }

    constructor (tweets: set<int>, faults: Faults)
      ensures Valid() && CacheRight() && fresh(cache) && cache.faults == faults
      ensures likes == {} && comments == map[]
      ensures forall t :: LikesOf(t) in counts <==> t in tweets
    {
      likes, comments, nextId := {}, map[], 1;
      counts := (map t | t in tweets :: LikesOf(t) := 0) + (map t | t in tweets :: CommentsOf(t) := 0);
      cache := new CountCache(faults);
      new;
      forall c | c in counts ensures counts[c] == Live(likes, comments, c) {
        assert LikesFor({}, c.tweet) == {} && CommentsFor(map[], c.tweet) == {};
      }
    }

    /** The Redis store after a counter has moved, when the database already has the new count. */
    ghost function Bumped(s: Store, c: Counter, delta: int): Store
      reads this
      requires c in counts
    {
      Bump(s, cache.faults, c, delta, counts[c]).0
    }

    /** The body of all four listeners: UPDATE ... SET count = count + delta, then the cached count. */
    method Count(c: Counter, delta: int)
      requires c in counts && delta != 0
      modifies this`counts, cache
      ensures counts == Moved(old(counts), c, delta)
      ensures cache.State() == Bumped(old(cache.State()), c, delta)
      ensures old(CacheRight()) ==>
        (Right(cache.counts, c, counts[c]) <==> BumpKept(old(cache.State()), cache.faults, c, delta, counts[c]))
      ensures cache.Reliable() && old(CacheRight()) ==> CacheRight()
    {
      ghost var s, before := cache.State(), counts;
      counts := Moved(counts, c, delta);
      var _ := cache.BumpCount(c, delta, counts[c]);
      if AllRight(s.counts, before) {
        BumpRight(s, cache.faults, c, delta, counts[c]);
        if cache.Reliable() {
          StillAllRight(s, cache.faults, before, c, delta);
        }
      }
    }

    /** post_save of a like: only likes of tweets are counted. */
    method IncrLikesCount(l: Like, created: bool)
      requires l.kind.TweetKind? ==> LikesOf(l.target) in counts
      modifies this`counts, cache
      ensures counts == if created && l.kind.TweetKind? then Moved(old(counts), LikesOf(l.target), 1) else old(counts)
      ensures cache.State() == if !created || !l.kind.TweetKind? then old(cache.State())
                               else Bumped(old(cache.State()), LikesOf(l.target), 1)
      ensures cache.Reliable() && old(CacheRight()) ==> CacheRight()
    {
      if !created {
        return;
      }
      if !l.kind.TweetKind? {
        return;
      }
      Count(LikesOf(l.target), 1);
    }

    /** pre_delete of a like */
    method DecrLikesCount(l: Like)
      requires l.kind.TweetKind? ==> LikesOf(l.target) in counts
      modifies this`counts, cache
      ensures counts == if l.kind.TweetKind? then Moved(old(counts), LikesOf(l.target), -1) else old(counts)
      ensures cache.State() == if !l.kind.TweetKind? then old(cache.State())
                               else Bumped(old(cache.State()), LikesOf(l.target), -1)
      ensures cache.Reliable() && old(CacheRight()) ==> CacheRight()
    {
      if !l.kind.TweetKind? {
        return;
      }
      Count(LikesOf(l.target), -1);
    }

    method IncrCommentsCount(tweet: int, created: bool)
      requires CommentsOf(tweet) in counts
      modifies this`counts, cache
      ensures counts == if created then Moved(old(counts), CommentsOf(tweet), 1) else old(counts)
      ensures cache.State() == if !created then old(cache.State()) else Bumped(old(cache.State()), CommentsOf(tweet), 1)
      ensures cache.Reliable() && old(CacheRight()) ==> CacheRight()
    {
      if !created {
        return;
      }
      Count(CommentsOf(tweet), 1);
    }

    method DecrCommentsCount(tweet: int)
      requires CommentsOf(tweet) in counts
      modifies this`counts, cache
      ensures counts == Moved(old(counts), CommentsOf(tweet), -1)
      ensures cache.State() == Bumped(old(cache.State()), CommentsOf(tweet), -1)
      ensures cache.Reliable() && old(CacheRight()) ==> CacheRight()
    {
      Count(CommentsOf(tweet), -1);
    }

    /** The object of a like exists. */
    predicate Exists(l: Like)
      reads this
    {
      if l.kind.TweetKind? then LikesOf(l.target) in counts else l.target in comments
    }

    /** get_or_create of a like, after validation. */
    method LikeObject(l: Like) returns (created: bool)
      requires Valid()
      modifies this`likes, this`counts, cache
      ensures Valid()
      ensures created == (old(Exists(l)) && l !in old(likes))
      ensures likes == if created then old(likes) + {l} else old(likes)
      ensures created && l.kind.TweetKind? ==>
        LikesOf(l.target) in counts && cache.State() == Bumped(old(cache.State()), LikesOf(l.target), 1)
      ensures !created || l.kind.CommentKind? ==> cache.State() == old(cache.State())
      ensures counts.Keys == old(counts).Keys
      ensures cache.Reliable() && old(CacheRight()) ==> CacheRight()
    {
      if !Exists(l) || l in likes {
        return false;
      }
      LikeCounted(counts, likes, comments, l);
      likes := likes + {l};
      IncrLikesCount(l, true);
      return true;
    }

    /** filter(...).delete(): the listener runs before the row goes. */
    method CancelLike(l: Like) returns (deleted: nat)
      requires Valid()
      modifies this`likes, this`counts, cache
      ensures Valid()
      ensures deleted == if old(Exists(l)) && l in old(likes) then 1 else 0
      ensures likes == if deleted == 1 then old(likes) - {l} else old(likes)
      ensures deleted == 1 && l.kind.TweetKind? ==>
        LikesOf(l.target) in counts && cache.State() == Bumped(old(cache.State()), LikesOf(l.target), -1)
      ensures deleted == 0 || l.kind.CommentKind? ==> cache.State() == old(cache.State())
      ensures counts.Keys == old(counts).Keys
      ensures cache.Reliable() && old(CacheRight()) ==> CacheRight()
    {
      if !Exists(l) || l !in likes {
        return 0;
      }
      CancelCounted(counts, likes, comments, l);
      DecrLikesCount(l);
      likes := likes - {l};
      return 1;
    }

    method CreateComment(comment: Comment) returns (id: Option<int>)
      requires Valid()
      modifies this`comments, this`counts, this`nextId, cache
      ensures Valid() && (id.Some? ==> id.value !in old(comments))
      ensures id == if CommentsOf(comment.tweet) in old(counts) then Some(old(nextId)) else None
      ensures comments == if id.Some? then old(comments)[id.value := comment] else old(comments)
      ensures nextId == if id.Some? then old(nextId) + 1 else old(nextId)
      ensures counts.Keys == old(counts).Keys
      ensures cache.State() == if id.None? then old(cache.State())
                               else Bumped(old(cache.State()), CommentsOf(comment.tweet), 1)
      ensures cache.Reliable() && old(CacheRight()) ==> CacheRight()
    {
      if CommentsOf(comment.tweet) !in counts {
        return None;
      }
      CommentCounted(counts, likes, comments, nextId, comment);
      id := Some(nextId);
      comments := comments[nextId := comment];
      nextId := nextId + 1;
      IncrCommentsCount(comment.tweet, true);
    }

    /** Saving an existing comment is no creation: the count stays. */
    method EditComment(id: int, content: string) returns (found: bool)
      requires Valid()
      modifies this`comments, this`counts, cache
      ensures Valid()
      ensures found == (id in old(comments))
      ensures comments == if found then old(comments)[id := old(comments)[id].(content := content)] else old(comments)
      ensures counts == old(counts) && cache.State() == old(cache.State())
      ensures cache.Reliable() && old(CacheRight()) ==> CacheRight()
    {
      if id !in comments {
        return false;
      }
      EditCounted(counts, likes, comments, id, content);
      comments := comments[id := comments[id].(content := content)];
      IncrCommentsCount(comments[id].tweet, false);
      return true;
    }

    method DeleteComment(id: int) returns (found: bool)
      requires Valid()
      modifies this`comments, this`counts, cache
      ensures Valid()
      ensures found == (id in old(comments))
      ensures comments == old(comments) - {id}
      ensures counts.Keys == old(counts).Keys
      ensures found ==>
        CommentsOf(old(comments)[id].tweet) in counts
        && cache.State() == Bumped(old(cache.State()), CommentsOf(old(comments)[id].tweet), -1)
      ensures !found ==> cache.State() == old(cache.State())
      ensures cache.Reliable() && old(CacheRight()) ==> CacheRight()
    {
      if id !in comments {
        return false;
      }
      DeleteCounted(counts, likes, comments, id);
      DecrCommentsCount(comments[id].tweet);
      comments := comments - {id};
      return true;
    }

    /** A count as the serializers show it: on a right cache, the number of live rows, under any faults. */
    method ReadCount(c: Counter) returns (n: int)
      requires Valid() && c in counts
      modifies cache
      ensures old(CacheRight()) ==> n == Live(likes, comments, c) && CacheRight()
      ensures cache.Reliable() ==> cache.counts == old(cache.counts)[c := n]
    {
      n := cache.GetCount(c, counts[c]);
    }
  }

  // ---------- runs ----------

  /** The rows alone, without any stored count. */
  datatype Board = Board(likes: set<Like>, comments: map<int, Comment>, nextId: int)

  datatype Action =
    | DoLike(like: Like)
    | Cancel(like: Like)
    | Write(comment: Comment)
    | Edit(id: int, content: string)
    | Erase(id: int)
    | Read(counter: Counter)
    | ExpireCount(counter: Counter)

  predicate Known(counters: set<Counter>, b: Board, l: Like) {
    if l.kind.TweetKind? then LikesOf(l.target) in counters else l.target in b.comments
  }

  /** What an action does to the rows; `counters` are those of the existing tweets. */
  function Effect(counters: set<Counter>, b: Board, a: Action): Board {
    match a
    case DoLike(l) => if Known(counters, b, l) then b.(likes := b.likes + {l}) else b
    case Cancel(l) => if Known(counters, b, l) then b.(likes := b.likes - {l}) else b
    case Write(comment) =>
      if CommentsOf(comment.tweet) in counters
      then b.(comments := b.comments[b.nextId := comment], nextId := b.nextId + 1) else b
    case Edit(id, content) =>
      if id in b.comments then b.(comments := b.comments[id := b.comments[id].(content := content)]) else b
    case Erase(id) => b.(comments := b.comments - {id})
    case _ => b
  }

  /** What an action answers: rows created or deleted, the id of a new comment, or a counted number of rows. */
  function Answer(counters: set<Counter>, b: Board, a: Action): Option<int> {
    match a
    case DoLike(l) => Some(if Known(counters, b, l) && l !in b.likes then 1 else 0)
    case Cancel(l) => Some(if Known(counters, b, l) && l in b.likes then 1 else 0)
    case Write(comment) => if CommentsOf(comment.tweet) in counters then Some(b.nextId) else None
    case Edit(id, _) => Some(if id in b.comments then 1 else 0)
    case Erase(id) => Some(if id in b.comments then 1 else 0)
    case Read(c) => if c in counters then Some(Live(b.likes, b.comments, c)) else None
    case ExpireCount(_) => None
  }

  /** The counters cached after an action, when nothing fails: the moved or read one is, the expired one is not. */
  function Kept(counters: set<Counter>, b: Board, cached: set<Counter>, a: Action): set<Counter> {
    match a
    case DoLike(l) =>
      if l.kind.TweetKind? && Known(counters, b, l) && l !in b.likes then cached + {LikesOf(l.target)} else cached
    case Cancel(l) =>
      if l.kind.TweetKind? && Known(counters, b, l) && l in b.likes then cached + {LikesOf(l.target)} else cached
    case Write(comment) =>
      if CommentsOf(comment.tweet) in counters then cached + {CommentsOf(comment.tweet)} else cached
    case Edit(_, _) => cached
    case Erase(id) => if id in b.comments then cached + {CommentsOf(b.comments[id].tweet)} else cached
    case Read(c) => if c in counters then cached + {c} else cached
    case ExpireCount(c) => cached - {c}
  }

  function KeptAfter(counters: set<Counter>, b: Board, cached: set<Counter>, actions: seq<Action>): set<Counter>
    decreases |actions|
  {
    if actions == [] then cached
    else KeptAfter(counters, Effect(counters, b, actions[0]), Kept(counters, b, cached, actions[0]), actions[1..])
  }

  function BoardAfter(counters: set<Counter>, b: Board, actions: seq<Action>): Board
    decreases |actions|
  {
    if actions == [] then b else BoardAfter(counters, Effect(counters, b, actions[0]), actions[1..])
  }

  function Answers(counters: set<Counter>, b: Board, actions: seq<Action>): (answers: seq<Option<int>>)
    ensures |answers| == |actions|
    decreases |actions|
  {
    if actions == [] then []
    else [Answer(counters, b, actions[0])] + Answers(counters, Effect(counters, b, actions[0]), actions[1..])
  }

  lemma NextAnswer(counters: set<Counter>, b: Board, actions: seq<Action>, k: nat)
    requires k < |actions|
    ensures BoardAfter(counters, b, actions[k..])
        == BoardAfter(counters, Effect(counters, b, actions[k]), actions[k + 1..])
    ensures Answers(counters, b, actions[k..])
        == [Answer(counters, b, actions[k])] + Answers(counters, Effect(counters, b, actions[k]), actions[k + 1..])
    ensures forall cached ::
      KeptAfter(counters, b, cached, actions[k..])
        == KeptAfter(counters, Effect(counters, b, actions[k]), Kept(counters, b, cached, actions[k]), actions[k + 1..])
  {
    assert actions[k..][1..] == actions[k + 1..];
  }

  lemma AllBumpsHarmless(s: Store, f: Faults)
    requires Harmless(f)
    ensures forall c, delta, truth {:trigger Bump(s, f, c, delta, truth)} ::
      Bump(s, f, c, delta, truth).0.counts.Keys == s.counts.Keys + {c}
  {
    forall c, delta, truth ensures Bump(s, f, c, delta, truth).0.counts.Keys == s.counts.Keys + {c} {
      BumpHarmless(s, f, c, delta, truth);
    }
  }

  method Perform(e: Engagement, a: Action) returns (answer: Option<int>)
    requires e.Valid()
    modifies e, e.cache
    ensures e.Valid() && e.counts.Keys == old(e.counts).Keys
    ensures e.Rows() == Effect(old(e.counts).Keys, old(e.Rows()), a)
    ensures e.cache.Reliable() && old(e.CacheRight()) ==>
      e.CacheRight() && answer == Answer(old(e.counts).Keys, old(e.Rows()), a)
    ensures e.cache.Reliable() ==>
      e.cache.counts.Keys == Kept(old(e.counts).Keys, old(e.Rows()), old(e.cache.counts).Keys, a)
  {
    ghost var s := e.cache.State();
    if e.cache.Reliable() {
      AllBumpsHarmless(s, e.cache.faults);
    }
    match a {
      case DoLike(l) =>
        assert e.Exists(l) == Known(e.counts.Keys, e.Rows(), l);
        var created := e.LikeObject(l);
        answer := Some(if created then 1 else 0);
      case Cancel(l) =>
        assert e.Exists(l) == Known(e.counts.Keys, e.Rows(), l);
        var deleted := e.CancelLike(l);
        answer := Some(deleted);
      case Write(comment) =>
        answer := e.CreateComment(comment);
      case Edit(id, content) =>
        var found := e.EditComment(id, content);
        answer := Some(if found then 1 else 0);
      case Erase(id) =>
        var found := e.DeleteComment(id);
        answer := Some(if found then 1 else 0);
      case Read(c) =>
        if c in e.counts {
          var n := e.ReadCount(c);
          answer := Some(n);
        } else {
          answer := None;
        }
      case ExpireCount(c) =>
        e.cache.Expire(c);
        answer := None;
    }
  }

  /**
    Any sequential run: the database counts are those of the rows, whatever Redis does, and without
    Redis errors every count that is shown is the number of live rows at that moment.
   */
  method Run(e: Engagement, actions: seq<Action>) returns (answers: seq<Option<int>>)
    requires e.Valid()
    modifies e, e.cache
    ensures e.Valid() && e.counts.Keys == old(e.counts).Keys
    ensures e.Rows() == BoardAfter(old(e.counts).Keys, old(e.Rows()), actions)
    ensures e.cache.Reliable() && old(e.CacheRight()) ==>
      e.CacheRight() && answers == Answers(old(e.counts).Keys, old(e.Rows()), actions)
    ensures e.cache.Reliable() ==>
      e.cache.counts.Keys == KeptAfter(old(e.counts).Keys, old(e.Rows()), old(e.cache.counts).Keys, actions)
  {
    answers := [];
    ghost var counters, rows, cached := e.counts.Keys, e.Rows(), e.cache.counts.Keys;
    assert actions[0..] == actions;
    for k := 0 to |actions|
      invariant e.Valid() && e.counts.Keys == counters
      invariant BoardAfter(counters, e.Rows(), actions[k..]) == BoardAfter(counters, rows, actions)
      invariant e.cache.Reliable() && old(e.CacheRight()) ==>
        e.CacheRight() && answers + Answers(counters, e.Rows(), actions[k..]) == Answers(counters, rows, actions)
      invariant e.cache.Reliable() ==>
        KeptAfter(counters, e.Rows(), e.cache.counts.Keys, actions[k..]) == KeptAfter(counters, rows, cached, actions)
    {
      NextAnswer(counters, e.Rows(), actions, k);
      var answer := Perform(e, actions[k]);
      answers := answers + [answer];
    }
  }
}

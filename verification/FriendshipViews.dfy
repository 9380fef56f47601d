/**
  The actions on the follow graph, run one after the other: the two HBase tables and the cache
  behave as one set of (source, target) pairs.
 */
module FriendshipViews {
  import opened Feed
  import opened OwnerRows
  import opened OwnerTables
  import opened Friendships

  datatype Action =
    | Follow(source: int, target: int, now: int)
    | Unfollow(source: int, target: int)
    | HasFollowed(source: int, target: int)
    | CountFollowings(user: int)
    | CountFollowers(user: int)
    | Expire(user: int)

  datatype Reply =
    | NotFound                        // 404: no user has the id in the address
    | Duplicate                       // 201, nothing written
    | Refused                         // 400
    | Created                         // 201
    | Deleted(n: nat)                 // 200
    | Answer(b: bool)
    | Count(n: nat)
    | Done

  // ---------- what the actions mean ----------

  function PairsFrom(pairs: set<Pair>, u: int): set<Pair> {
    set p | p in pairs && p.source == u
  }

  function PairsTo(pairs: set<Pair>, u: int): set<Pair> {
    set p | p in pairs && p.target == u
  }

  function Effect(users: set<int>, pairs: set<Pair>, a: Action): set<Pair> {
    match a
    case Follow(source, target, _) =>
      if target in users && source != target then pairs + {Pair(source, target)} else pairs
    case Unfollow(source, target) => if target in users then pairs - {Pair(source, target)} else pairs
    case _ => pairs
  }

  ghost function ReplyTo(users: set<int>, pairs: set<Pair>, a: Action): Reply {
    match a
    case Follow(source, target, _) =>
      if target !in users then NotFound
      else if Pair(source, target) in pairs then Duplicate
      else if source == target then Refused
      else Created
    case Unfollow(source, target) =>
      if target !in users then NotFound
      else if source == target then Refused
      else Deleted(if Pair(source, target) in pairs then 1 else 0)
    case HasFollowed(source, target) => Answer(Pair(source, target) in pairs)
    case CountFollowings(user) => Count(|PairsFrom(pairs, user)|)
    case CountFollowers(user) => Count(|PairsTo(pairs, user)|)
    case Expire(_) => Done
  }

  /** The pairs after a run, and the replies given on the way. */
  function PairsAfter(users: set<int>, pairs: set<Pair>, actions: seq<Action>): set<Pair>
    decreases |actions|
  {
    if actions == [] then pairs else PairsAfter(users, Effect(users, pairs, actions[0]), actions[1..])
  }

  ghost function Replies(users: set<int>, pairs: set<Pair>, actions: seq<Action>): (replies: seq<Reply>)
    ensures |replies| == |actions|
    decreases |actions|
  {
    if actions == [] then []
    else [ReplyTo(users, pairs, actions[0])] + Replies(users, Effect(users, pairs, actions[0]), actions[1..])
  }

  /** One more action at the end of a run. */
  lemma {:induction false} LastReply(users: set<int>, pairs: set<Pair>, actions: seq<Action>, a: Action)
    ensures PairsAfter(users, pairs, actions + [a]) == Effect(users, PairsAfter(users, pairs, actions), a)
    ensures Replies(users, pairs, actions + [a])
        == Replies(users, pairs, actions) + [ReplyTo(users, PairsAfter(users, pairs, actions), a)]
    decreases |actions|
  {
    if actions == [] {
      assert [] + [a] == [a] && [a][1..] == [];
    } else {
      assert (actions + [a])[1..] == actions[1..] + [a];
      LastReply(users, Effect(users, pairs, actions[0]), actions[1..], a);
    }
  }

  predicate Touches(users: set<int>, a: Action, p: Pair) {
    (a.Follow? || a.Unfollow?) && p == Pair(a.source, a.target) && p.target in users
  }

  lemma {:induction false} Untouched(users: set<int>, pairs: set<Pair>, actions: seq<Action>, p: Pair)
    requires forall a :: a in actions ==> !Touches(users, a, p)
    ensures p in PairsAfter(users, pairs, actions) <==> p in pairs
    decreases |actions|
  {
    if actions != [] {
      assert actions[0] in actions;
      Untouched(users, Effect(users, pairs, actions[0]), actions[1..], p);
    }
  }

  /** The last follow or unfollow of a pair decides: followed after a follow, not after an unfollow. */
  lemma {:induction false} LastTouch(users: set<int>, pairs: set<Pair>, actions: seq<Action>, p: Pair, i: nat)
    requires i < |actions| && Touches(users, actions[i], p) && p.source != p.target
    requires forall a :: a in actions[i + 1..] ==> !Touches(users, a, p)
    ensures p in PairsAfter(users, pairs, actions) <==> actions[i].Follow?
    decreases |actions|
  {
    var next := Effect(users, pairs, actions[0]);
    if i == 0 {
      Untouched(users, next, actions[1..], p);
    } else {
      assert actions[1..][i..] == actions[i + 1..];
      LastTouch(users, next, actions[1..], p, i - 1);
    }
  }

  // ---------- what the replies mean ----------

  /** p is followed after the first k actions: by the last word on it, or from before when there was none. */
  ghost predicate Followed(users: set<int>, pairs: set<Pair>, actions: seq<Action>, k: nat, p: Pair)
    requires k <= |actions|
  {
    || (p in pairs && forall j :: 0 <= j < k ==> !Touches(users, actions[j], p))
    || (p.source != p.target
        && exists i :: 0 <= i < k && Touches(users, actions[i], p) && actions[i].Follow?
             && forall j :: i < j < k ==> !Touches(users, actions[j], p))
  }

  ghost predicate NoSelfPairs(pairs: set<Pair>) {
    forall p :: p in pairs ==> p.source != p.target
  }

  lemma {:induction false} FollowedExactly(users: set<int>, pairs: set<Pair>, actions: seq<Action>, k: nat, p: Pair)
    requires k <= |actions| && NoSelfPairs(pairs)
    ensures p in PairsAfter(users, pairs, actions[..k]) <==> Followed(users, pairs, actions, k, p)
    decreases k
  {
    if k == 0 {
      assert actions[..0] == [];
    } else {
      FollowedExactly(users, pairs, actions, k - 1, p);
      LastReply(users, pairs, actions[..k - 1], actions[k - 1]);
      assert actions[..k - 1] + [actions[k - 1]] == actions[..k];
      FollowedNext(users, pairs, actions, k - 1, p);
    }
  }

  lemma FollowedNext(users: set<int>, pairs: set<Pair>, actions: seq<Action>, k: nat, p: Pair)
    requires k < |actions| && NoSelfPairs(pairs)
    ensures Followed(users, pairs, actions, k + 1, p) <==>
      if Touches(users, actions[k], p) then p.source != p.target && actions[k].Follow?
      else Followed(users, pairs, actions, k, p)
  {
  }

  lemma {:induction false} ReplyInTurn(users: set<int>, pairs: set<Pair>, actions: seq<Action>, k: nat)
    requires k < |actions|
    ensures Replies(users, pairs, actions)[k] == ReplyTo(users, PairsAfter(users, pairs, actions[..k]), actions[k])
    decreases k
  {
    var next := Effect(users, pairs, actions[0]);
    if k > 0 {
      ReplyInTurn(users, next, actions[1..], k - 1);
      assert actions[..k][1..] == actions[1..][..k - 1];
    }
  }

  /** These are the pairs followed after k actions that go from the user, or to the user. */
  ghost predicate FollowedFrom(users: set<int>, pairs: set<Pair>, actions: seq<Action>, k: nat, user: int,
                               own: set<Pair>)
    requires k <= |actions|
  {
    forall p :: p in own <==> p.source == user && Followed(users, pairs, actions, k, p)
  }

  ghost predicate FollowedTo(users: set<int>, pairs: set<Pair>, actions: seq<Action>, k: nat, user: int,
                             own: set<Pair>)
    requires k <= |actions|
  {
    forall p :: p in own <==> p.target == user && Followed(users, pairs, actions, k, p)
  }

  /** What a run replies to its k-th action, told from the actions before it. */
  ghost predicate RightReply(users: set<int>, pairs: set<Pair>, actions: seq<Action>, k: nat, reply: Reply)
    requires k < |actions|
  {
    match actions[k]
    case Follow(source, target, _) =>
      var followed := Followed(users, pairs, actions, k, Pair(source, target));
      && (reply.NotFound? <==> target !in users)
      && (reply.Duplicate? <==> target in users && followed)
      && (reply.Refused? <==> target in users && source == target)
      && (reply.Created? <==> target in users && source != target && !followed)
    case Unfollow(source, target) =>
      var followed := Followed(users, pairs, actions, k, Pair(source, target));
      && (reply.NotFound? <==> target !in users)
      && (reply.Refused? <==> target in users && source == target)
      && (reply == Deleted(1) <==> target in users && source != target && followed)
      && (reply == Deleted(0) <==> target in users && source != target && !followed)
    case HasFollowed(source, target) =>
      (reply == Answer(true) || reply == Answer(false))
      && (reply == Answer(true) <==> Followed(users, pairs, actions, k, Pair(source, target)))
    case CountFollowings(user) =>
      exists own :: FollowedFrom(users, pairs, actions, k, user, own) && reply == Count(|own|)
    case CountFollowers(user) =>
      exists own :: FollowedTo(users, pairs, actions, k, user, own) && reply == Count(|own|)
    case Expire(_) => reply == Done
  }

  /**
    Every reply of a run: a follow is a duplicate exactly after a last word that was a follow, a
    self-follow is refused, an unknown target is not found; an unfollow deletes exactly a followed
    pair; questions and counts are about the pairs so followed.
   */
  lemma RepliesMean(users: set<int>, pairs: set<Pair>, actions: seq<Action>, k: nat)
    requires k < |actions| && NoSelfPairs(pairs)
    ensures RightReply(users, pairs, actions, k, Replies(users, pairs, actions)[k])
  {
    var now := PairsAfter(users, pairs, actions[..k]);
    ReplyInTurn(users, pairs, actions, k);
    forall p ensures p in now <==> Followed(users, pairs, actions, k, p) {
      FollowedExactly(users, pairs, actions, k, p);
    }
    match actions[k]
    case CountFollowings(user) => assert FollowedFrom(users, pairs, actions, k, user, PairsFrom(now, user));
    case CountFollowers(user) => assert FollowedTo(users, pairs, actions, k, user, PairsTo(now, user));
    case _ =>
  }

  predicate ValidAction(a: Action) {
    match a
    case Follow(source, _, now) => UserId(source) && now >= 0
    case Unfollow(source, _) => UserId(source)
    case HasFollowed(source, target) => UserId(source)
    case CountFollowings(user) => UserId(user)
    case CountFollowers(user) => UserId(user)
    case Expire(_) => true
  }

  /** Two follows that share a user on the same side do not share their time. */
  ghost predicate FreshTimes(actions: seq<Action>, before: set<Row>) {
    forall i :: 0 <= i < |actions| && actions[i].Follow? ==>
      && (forall x :: x in before ==> !Shares(x, actions[i]))
      && (forall j :: 0 <= j < i && actions[j].Follow? ==>
            !Shares(Row(actions[j].source, actions[j].now, actions[j].target), actions[i]))
  }

  predicate Shares(x: Row, a: Action)
    requires a.Follow?
  {
    x.createdAt == a.now && (x.owner == a.source || x.item == a.target)
  }

  // ---------- rows and pairs ----------

  ghost predicate NoSelf(stored: set<Row>) {
    forall x :: x in stored ==> x.owner != x.item
  }

  lemma PairsAdded(stored: set<Row>, r: Row)
    requires Fresh(stored, r) && PairsUnique(stored) && NoSelf(stored) && r.owner != r.item
    requires Pair(r.owner, r.item) !in Pairs(stored)
    ensures Pairs(Written(stored, r)) == Pairs(stored) + {Pair(r.owner, r.item)}
    ensures PairsUnique(Written(stored, r)) && NoSelf(Written(stored, r))
  {
    assert forall x :: x in stored && SameKey(x, r) ==> x == r by {
      forall x | x in stored && SameKey(x, r) ensures x == r {
        assert !Clash(x, r);
      }
    }
    assert Written(stored, r) == stored + {r};
    assert Pairs(stored + {r}) == Pairs(stored) + {Pair(r.owner, r.item)};
    forall x, y | x in stored + {r} && y in stored + {r} && SamePair(x, y) ensures x == y {
      assert x in stored ==> Pair(x.owner, x.item) in Pairs(stored);
      assert y in stored ==> Pair(y.owner, y.item) in Pairs(stored);
    }
  }

  lemma PairsRemoved(stored: set<Row>, r: Row)
    requires PairsUnique(stored) && NoSelf(stored) && r in stored
    ensures Pairs(stored - {r}) == Pairs(stored) - {Pair(r.owner, r.item)}
    ensures PairsUnique(stored - {r}) && NoSelf(stored - {r})
  {
    forall p ensures p in Pairs(stored - {r}) <==> p in Pairs(stored) - {Pair(r.owner, r.item)} {
      if p in Pairs(stored - {r}) {
        var x :| x in stored - {r} && p == Pair(x.owner, x.item);
        assert SamePair(x, r) ==> x == r;
      }
      if p in Pairs(stored) - {Pair(r.owner, r.item)} {
        var x :| x in stored && p == Pair(x.owner, x.item);
        assert x in stored - {r};
      }
    }
  }

  lemma {:induction false} SameSize<A, B>(xs: set<A>, ys: set<B>, f: A -> B)
    requires forall x :: x in xs ==> f(x) in ys
    requires forall x, y :: x in xs && y in xs && f(x) == f(y) ==> x == y
    requires forall y :: y in ys ==> exists x :: x in xs && f(x) == y
    ensures |xs| == |ys|
  {
    if x :| x in xs {
      forall y | y in ys - {f(x)} ensures exists z :: z in xs - {x} && f(z) == y {
        var z :| z in xs && f(z) == y;
      }
      SameSize(xs - {x}, ys - {f(x)}, f);
    } else {
      assert xs == {} && ys == {};
    }
  }

  /** The number of targets of a user is the number of its pairs. */
  lemma SourcePairs(ids: set<int>, pairs: set<Pair>, u: int)
    requires forall x :: x in ids <==> Pair(u, x) in pairs
    ensures |PairsFrom(pairs, u)| == |ids|
  {
    var f := (x: int) => Pair(u, x);
    forall p | p in PairsFrom(pairs, u) ensures exists x :: x in ids && f(x) == p {
      assert f(p.target) == p;
    }
    SameSize(ids, PairsFrom(pairs, u), f);
  }

  lemma TargetPairs(ids: set<int>, pairs: set<Pair>, u: int)
    requires forall x :: x in ids <==> Pair(x, u) in pairs
    ensures |PairsTo(pairs, u)| == |ids|
  {
    var f := (x: int) => Pair(x, u);
    forall p | p in PairsTo(pairs, u) ensures exists x :: x in ids && f(x) == p {
      assert f(p.source) == p;
    }
    SameSize(ids, PairsTo(pairs, u), f);
  }

  lemma TargetsArePairs(stored: set<Row>, u: int)
    ensures forall x :: x in Targets(stored, u) <==> Pair(u, x) in Pairs(stored)
  {
  }

  class FriendshipViewSet {
    const service: FriendshipService
    const users: set<int>

    ghost predicate Valid()
      reads service, service.following, service.following.model, service.follower, service.follower.model
    {
      service.Valid() && forall u :: u in users ==> UserId(u)
    }

    /** The tables mirror each other, hold one row per pair and no self-follow, and the cache is right. */
    ghost predicate Good()
      reads service, service.following, service.following.model, service.follower, service.follower.model
    {
      && Valid() && service.Mirrored()
      && PairsUnique(service.following.Contents()) && NoSelf(service.following.Contents())
      && CacheRight(service.cache, service.following.Contents())
    }

    ghost function Graph(): set<Pair>
      reads service, service.following
    {
      Pairs(service.following.Contents())
    }

    constructor (users: set<int>)
      requires forall u :: u in users ==> UserId(u)
      ensures Good() && Graph() == {} && this.users == users && fresh(service)
      ensures fresh(service.following) && fresh(service.following.model)
      ensures fresh(service.follower) && fresh(service.follower.model)
    {
      var s := new FriendshipService();
      this.service := s;
      this.users := users;
    }

    /** POST /friendships/<to>/follow/: a created follow keeps the tables good exactly when its row is fresh. */
    method FollowUser(from: int, to: int, now: int) returns (reply: Reply)
      requires Valid() && UserId(from) && now >= 0
      modifies service`cache, service.following`rows, service.following.model
      modifies service.follower`rows, service.follower.model
      ensures Valid()
      ensures service.following.Contents()
          == if reply.Created? then Written(old(service.following.Contents()), Row(from, now, to))
             else old(service.following.Contents())
      ensures reply.Created? ==> service.cache.Keys == old(service.cache).Keys - {from}
      ensures !reply.Created? ==> old(service.cache).Keys <= service.cache.Keys <= old(service.cache).Keys + {from}
      ensures old(Good()) ==> reply == ReplyTo(users, old(Graph()), Follow(from, to, now))
      ensures old(Good()) ==>
        && (reply.NotFound? <==> to !in users)
        && (reply.Duplicate? <==> to in users && Pair(from, to) in old(Graph()))
        && (reply.Refused? <==> to in users && from == to)
      ensures old(Good()) ==>
        (Good() <==> reply.Created? ==> Fresh(old(service.following.Contents()), Row(from, now, to)))
      ensures old(Good()) && Good() ==> Graph() == Effect(users, old(Graph()), Follow(from, to, now))
    {
      if to !in users {
        return NotFound;
      }
      var followed := AlreadyFollows(from, to);
      if followed {
        assert Pair(from, to) in Graph() ==> Graph() == Graph() + {Pair(from, to)};
        return Duplicate;
      }
      if from == to {
        return Refused;
      }
      Record(from, to, now);
      return Created;
    }

    method AlreadyFollows(from: int, to: int) returns (b: bool)
      requires Valid() && UserId(from)
      modifies service`cache
      ensures Valid() && (old(Good()) ==> Good() && b == (Pair(from, to) in Graph()))
      ensures service.cache.Keys == old(service.cache).Keys + if from == to then {} else {from}
    {
      b := service.HasFollowed(from, to);
    }

    /** serializer.save */
    method Record(from: int, to: int, now: int)
      requires Valid() && UserId(from) && UserId(to) && now >= 0 && from != to
      modifies service`cache, service.following`rows, service.following.model
      modifies service.follower`rows, service.follower.model
      ensures Valid()
      ensures service.following.Contents() == Written(old(service.following.Contents()), Row(from, now, to))
      ensures service.cache == old(service.cache) - {from}
      ensures old(Good()) && Pair(from, to) !in old(Graph()) ==>
        (Good() <==> Fresh(old(service.following.Contents()), Row(from, now, to)))
      ensures old(Good()) && Pair(from, to) !in old(Graph()) && Good() ==> Graph() == old(Graph()) + {Pair(from, to)}
    {
      if Good() && Pair(from, to) !in Graph() && Fresh(service.following.Contents(), Row(from, now, to)) {
        PairsAdded(service.following.Contents(), Row(from, now, to));
      }
      var _ := service.Follow(from, to, now);
    }

    /** POST /friendships/<to>/unfollow/ */
    method UnfollowUser(from: int, to: int) returns (reply: Reply)
      requires Valid() && UserId(from)
      modifies service`cache, service.following`rows, service.following.model
      modifies service.follower`rows, service.follower.model
      ensures Valid() && service.following.Contents() <= old(service.following.Contents())
      ensures old(Good()) ==> Good()
      ensures service.cache == if reply == Deleted(1) then old(service.cache) - {from} else old(service.cache)
      ensures old(Good()) ==> reply == ReplyTo(users, old(Graph()), Unfollow(from, to))
      ensures old(Good()) ==>
        && (reply.NotFound? <==> to !in users)
        && (reply.Refused? <==> to in users && from == to)
        && (reply == Deleted(1) <==> to in users && Pair(from, to) in old(Graph()))
      ensures old(Good()) ==> Graph() == Effect(users, old(Graph()), Unfollow(from, to))
    {
      if to !in users {
        return NotFound;
      }
      if from == to {
        assert old(Good()) ==> Pair(from, to) !in Graph();
        return Refused;
      }
      var deleted := service.Unfollow(from, to);
      if old(Good()) {
        UnfollowedPair(old(service.following.Contents()), service.following.Contents(),
                       old(service.follower.Contents()), service.follower.Contents(), from, to, deleted);
      }
      return Deleted(deleted);
    }

    /** A question or an expiry, none of which touches a table. */
    method Ask(a: Action) returns (reply: Reply)
      requires Valid() && ValidAction(a) && !a.Follow? && !a.Unfollow?
      modifies service`cache
      ensures Valid() && (old(Good()) ==> Good() && reply == ReplyTo(users, Graph(), a))
      ensures a.Expire? ==> service.cache == old(service.cache) - {a.user}
      ensures a.CountFollowings? ==> service.cache.Keys == old(service.cache).Keys + {a.user}
      ensures a.CountFollowers? ==> service.cache == old(service.cache)
      ensures a.HasFollowed? && a.source != a.target ==> service.cache.Keys == old(service.cache).Keys + {a.source}
    {
      match a {
        case HasFollowed(source, target) =>
          var b := AlreadyFollows(source, target);
          reply := Answer(b);
        case CountFollowings(user) =>
          TargetsArePairs(service.following.Contents(), user);
          SourcePairs(Targets(service.following.Contents(), user), Graph(), user);
          var n := service.GetFollowingCount(user);
          reply := Count(n);
        case CountFollowers(user) =>
          if service.Mirrored() {
            SourcesAreTargets(service.following.Contents(), service.follower.Contents(), user);
            TargetPairs(Targets(service.follower.Contents(), user), Graph(), user);
          }
          var n := service.GetFollowersCount(user);
          reply := Count(n);
        case Expire(user) =>
          service.InvalidateFollowingCache(user);
          reply := Done;
      }
    }

    method Perform(a: Action) returns (reply: Reply)
      requires Valid() && ValidAction(a)
      modifies service`cache, service.following`rows, service.following.model
      modifies service.follower`rows, service.follower.model
      ensures Valid() && OnlyFrom(old(service.following.Contents()), service.following.Contents(), a)
      ensures old(Good()) && Timely(old(service.following.Contents()), a) ==>
        Good() && reply == ReplyTo(users, old(Graph()), a) && Graph() == Effect(users, old(Graph()), a)
    {
      match a {
        case Follow(source, target, now) =>
          TimelyFresh(service.following.Contents(), source, target, now);
          reply := FollowUser(source, target, now);
        case Unfollow(source, target) =>
          reply := UnfollowUser(source, target);
        case _ =>
          reply := Ask(a);
      }
    }

    /**
      Any sequential run, up to the first follow that shares its time and a user on the same side
      with an earlier one: every action is answered as a plain set of pairs would answer it.
     */
    method Run(actions: seq<Action>) returns (replies: seq<Reply>)
      requires Valid() && forall i :: 0 <= i < |actions| ==> ValidAction(actions[i])
      modifies service`cache, service.following`rows, service.following.model
      modifies service.follower`rows, service.follower.model
      ensures Valid() && |replies| == |actions|
      ensures old(Good()) ==>
        ExactUntilClash(users, old(Graph()), old(service.following.Contents()), actions, replies)
      ensures old(Good()) && FreshTimes(actions, old(service.following.Contents())) ==>
        Good() && Graph() == PairsAfter(users, old(Graph()), actions)
    {
      replies := [];
      ghost var before, pairs, good := service.following.Contents(), Graph(), Good();
      assert actions[..0] == [];
      for k := 0 to |actions|
        invariant |replies| == k && Standing(actions, replies, before, pairs, good)
      {
        replies := PerformNext(actions, replies, before, pairs, good);
      }
      assert actions[..|actions|] == actions;
    }

    /**
      Where a run stands: good, with the pairs due, as long as the times are fresh, and with exact
      replies up to there.
     */
    ghost predicate Standing(actions: seq<Action>, replies: seq<Reply>, before: set<Row>, pairs: set<Pair>, good: bool)
      reads service, service.following, service.following.model, service.follower, service.follower.model
    {
      && Valid() && |replies| <= |actions| && AllFrom(service.following.Contents(), before, actions[..|replies|])
      && (good && FreshTimes(actions[..|replies|], before) ==>
            Good() && Graph() == PairsAfter(users, pairs, actions[..|replies|]))
      && (good ==> ExactUntilClash(users, pairs, before, actions, replies))
    }

    method PerformNext(actions: seq<Action>, replies: seq<Reply>, ghost before: set<Row>, ghost pairs: set<Pair>,
                       ghost good: bool) returns (more: seq<Reply>)
      requires |replies| < |actions| && ValidAction(actions[|replies|])
      requires Standing(actions, replies, before, pairs, good)
      modifies service`cache, service.following`rows, service.following.model
      modifies service.follower`rows, service.follower.model
      ensures |more| == |replies| + 1 && Standing(actions, more, before, pairs, good)
    {
      ghost var stored := service.following.Contents();
      var k := |replies|;
      if FreshTimes(actions[..k + 1], before) {
        TimesApart(actions, before, stored, k);
        LastReply(users, pairs, actions[..k], actions[k]);
        assert actions[..k] + [actions[k]] == actions[..k + 1];
      }
      var reply := Perform(actions[k]);
      FromNext(stored, service.following.Contents(), before, actions, k);
      if good {
        ExactNext(users, pairs, before, actions, replies, reply);
      }
      more := replies + [reply];
    }
  }

  /** No stored row shares its time and a user on the same side with a follow. */
  ghost predicate Timely(stored: set<Row>, a: Action) {
    a.Follow? ==> forall x :: x in stored ==> !Shares(x, a)
  }

  lemma TimelyFresh(stored: set<Row>, source: int, target: int, now: int)
    ensures Timely(stored, Follow(source, target, now)) ==> Fresh(stored, Row(source, now, target))
    ensures OnlyFrom(stored, Written(stored, Row(source, now, target)), Follow(source, target, now))
  {
  }

  /** An action stores no other row than that of a follow. */
  ghost predicate OnlyFrom(before: set<Row>, after: set<Row>, a: Action) {
    forall x :: x in after ==> x in before || (a.Follow? && x == Row(a.source, a.now, a.target))
  }

  /** As long as the times of follows are fresh, the replies are those of the set of pairs. */
  ghost predicate ExactUntilClash(users: set<int>, pairs: set<Pair>, before: set<Row>, actions: seq<Action>,
                                  replies: seq<Reply>)
  {
    && |replies| <= |actions|
    && forall n :: 0 <= n <= |replies| && FreshTimes(actions[..n], before) ==>
         replies[..n] == Replies(users, pairs, actions[..n])
  }

  lemma ExactNext(users: set<int>, pairs: set<Pair>, before: set<Row>, actions: seq<Action>, replies: seq<Reply>,
                  reply: Reply)
    requires ExactUntilClash(users, pairs, before, actions, replies) && |replies| < |actions|
    requires FreshTimes(actions[..|replies| + 1], before) ==>
      reply == ReplyTo(users, PairsAfter(users, pairs, actions[..|replies|]), actions[|replies|])
    ensures ExactUntilClash(users, pairs, before, actions, replies + [reply])
  {
    var k := |replies|;
    forall n | 0 <= n <= k + 1 && FreshTimes(actions[..n], before)
      ensures (replies + [reply])[..n] == Replies(users, pairs, actions[..n])
    {
      if n <= k {
        assert (replies + [reply])[..n] == replies[..n];
      } else {
        FewerFresh(actions, before, k);
        LastReply(users, pairs, actions[..k], actions[k]);
        assert actions[..k] + [actions[k]] == actions[..k + 1];
        assert replies[..k] == replies && (replies + [reply])[..n] == replies + [reply];
      }
    }
  }

  lemma FewerFresh(actions: seq<Action>, before: set<Row>, k: nat)
    requires k < |actions| && FreshTimes(actions[..k + 1], before)
    ensures FreshTimes(actions[..k], before)
  {
    var some := actions[..k + 1];
    assert forall i :: 0 <= i < k ==> actions[..k][i] == some[i];
  }

  /** A row was there before the run or was written by one of the follows. */
  ghost predicate From(x: Row, before: set<Row>, actions: seq<Action>) {
    x in before || Follow(x.owner, x.item, x.createdAt) in actions
  }

  ghost predicate AllFrom(stored: set<Row>, before: set<Row>, actions: seq<Action>) {
    forall x :: x in stored ==> From(x, before, actions)
  }

  lemma FromNext(stored: set<Row>, after: set<Row>, before: set<Row>, actions: seq<Action>, k: nat)
    requires k < |actions| && AllFrom(stored, before, actions[..k]) && OnlyFrom(stored, after, actions[k])
    ensures AllFrom(after, before, actions[..k + 1])
  {
    assert actions[..k + 1] == actions[..k] + [actions[k]];
  }

  lemma TimesApart(actions: seq<Action>, before: set<Row>, stored: set<Row>, k: nat)
    requires k < |actions| && FreshTimes(actions[..k + 1], before)
    requires AllFrom(stored, before, actions[..k])
    ensures FreshTimes(actions[..k], before) && Timely(stored, actions[k])
  {
    FewerFresh(actions, before, k);
    var some := actions[..k + 1];
    assert some[k] == actions[k];
    if actions[k].Follow? {
      forall x | x in stored ensures !Shares(x, actions[k]) {
        if x !in before {
          var j :| 0 <= j < k && actions[j] == Follow(x.owner, x.item, x.createdAt);
          assert some[j] == actions[j];
        }
      }
    }
  }

  lemma UnfollowedPair(before: set<Row>, after: set<Row>, followers: set<Row>, followersAfter: set<Row>,
                       from: int, to: int, deleted: nat)
    requires PairsUnique(before) && NoSelf(before)
    requires deleted == if Pair(from, to) in Pairs(before) then 1 else 0
    requires deleted == 0 ==> after == before
    requires deleted == 1 ==> OneLess(before, after, followers, followersAfter, from, to)
    ensures Pairs(after) == Pairs(before) - {Pair(from, to)} && PairsUnique(after) && NoSelf(after) && after <= before
  {
    if deleted == 1 {
      var r :| r in before && r.owner == from && r.item == to && after == before - {r}
        && followersAfter == followers - {Flip(r)};
      PairsRemoved(before, r);
    }
  }
}

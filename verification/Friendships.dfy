/**
  The follow graph: two HBase tables that mirror each other and a cached set of followed ids.
  A row of the followings table is (from, time, to); its mirror in the followers table is (to, time, from).
 */
module Friendships {
  import opened Outcomes
  import opened Text
  import opened Feed
  import opened OwnerRows
  import opened OwnerTables

  datatype Pair = Pair(source: int, target: int)

  function Flip(r: Row): Row {
    Row(r.item, r.createdAt, r.owner)
  }

  predicate Fits(r: Row) {
    UserId(r.owner) && UserId(r.item) && r.createdAt >= 0
  }

  ghost predicate Mirror(followings: set<Row>, followers: set<Row>) {
    forall r :: r in followings <==> Flip(r) in followers
  }

  ghost predicate KeysUnique(stored: set<Row>) {
    forall x, y :: x in stored && y in stored && SameKey(x, y) ==> x == y
  }

  predicate SamePair(x: Row, y: Row) {
    x.owner == y.owner && x.item == y.item
  }

  ghost predicate PairsUnique(stored: set<Row>) {
    forall x, y :: x in stored && y in stored && SamePair(x, y) ==> x == y
  }

  ghost function Pairs(stored: set<Row>): set<Pair> {
    set r | r in stored :: Pair(r.owner, r.item)
  }

  ghost function Targets(stored: set<Row>, u: int): set<int> {
    set r | r in stored && r.owner == u :: r.item
  }

  /** Every cached set is the one the table holds. */
  ghost predicate CacheRight(cache: map<int, set<int>>, stored: set<Row>) {
    forall u :: u in cache ==> cache[u] == Targets(stored, u)
  }

  function Items(rows: seq<Row>): (items: seq<int>)
    ensures |items| == |rows| && forall i :: 0 <= i < |rows| ==> items[i] == rows[i].item
  {
    seq(|rows|, i requires 0 <= i < |rows| => rows[i].item)
  }

  // ---------- one write to each table ----------

  /** The row shares its time and one of its users with another stored row. */
  predicate Clash(x: Row, r: Row) {
    x != r && x.createdAt == r.createdAt && (x.owner == r.owner || x.item == r.item)
  }

  ghost predicate Fresh(stored: set<Row>, r: Row) {
    forall x :: x in stored ==> !Clash(x, r)
  }

  /** Following keeps the tables mirrored exactly when no stored row has the time and a user of the new one. */
  lemma MirrorAfterFollow(followings: set<Row>, followers: set<Row>, r: Row)
    requires Mirror(followings, followers)
    ensures Mirror(Written(followings, r), Written(followers, Flip(r))) <==> Fresh(followings, r)
  {
    var f, g := Written(followings, r), Written(followers, Flip(r));
    forall x ensures (x in f <==> Flip(x) in g) <==> !(x in followings && Clash(x, r)) {
      assert Flip(x) == Flip(r) <==> x == r;
      assert x in followings <==> Flip(x) in followers;
    }
  }

  /** One user following two others within the same microsecond leaves two rows of followers and one of followings. */
  lemma ClashBreaksMirror()
    ensures var followings, followers := {Row(1, 5, 2)}, {Row(2, 5, 1)};
      && Mirror(followings, followers)
      && Written(followings, Row(1, 5, 3)) == {Row(1, 5, 3)}
      && Written(followers, Row(3, 5, 1)) == {Row(2, 5, 1), Row(3, 5, 1)}
      && !Mirror(Written(followings, Row(1, 5, 3)), Written(followers, Row(3, 5, 1)))
  {
    var followings, followers := {Row(1, 5, 2)}, {Row(2, 5, 1)};
    assert forall r :: Flip(r) == Row(2, 5, 1) ==> r == Row(1, 5, 2);
    assert Clash(Row(1, 5, 2), Row(1, 5, 3));
    assert Flip(Row(1, 5, 3)) == Row(3, 5, 1);
    MirrorAfterFollow(followings, followers, Row(1, 5, 3));
  }

  lemma DeletedRow(stored: set<Row>, r: Row)
    requires KeysUnique(stored) && r in stored
    ensures Deleted(stored, r.owner, r.createdAt) == stored - {r}
  {
    forall x ensures x in Deleted(stored, r.owner, r.createdAt) <==> x in stored - {r} {
      assert x in stored && SameKey(x, r) ==> x == r;
    }
  }

  /** Deleting a row's key from one table and its mirror's key from the other removes these two rows only. */
  lemma DeletedPair(followings: set<Row>, followers: set<Row>, r: Row)
    requires Mirror(followings, followers) && KeysUnique(followings) && KeysUnique(followers) && r in followings
    ensures Deleted(followings, r.owner, r.createdAt) == followings - {r}
    ensures Deleted(followers, r.item, r.createdAt) == followers - {Flip(r)}
    ensures Mirror(followings - {r}, followers - {Flip(r)})
  {
    assert Flip(r) in followers;
    DeletedRow(followings, r);
    DeletedRow(followers, Flip(r));
    assert forall x :: Flip(x) == Flip(r) <==> x == r;
  }

  /** A write or a delete touches the targets of its own user only. */
  lemma TargetsElsewhere(before: set<Row>, after: set<Row>, owner: int, u: int)
    requires u != owner && forall x: Row :: x.owner != owner ==> (x in before <==> x in after)
    ensures Targets(after, u) == Targets(before, u)
  {
  }

  lemma StillRight(cache: map<int, set<int>>, before: set<Row>, after: set<Row>, owner: int)
    requires CacheRight(cache, before)
    requires forall x: Row :: x.owner != owner ==> (x in before <==> x in after)
    ensures CacheRight(cache - {owner}, after)
  {
    forall u | u in cache - {owner} ensures (cache - {owner})[u] == Targets(after, u) {
      TargetsElsewhere(before, after, owner, u);
    }
  }

  lemma RightAfterWrite(cache: map<int, set<int>>, stored: set<Row>, r: Row)
    requires CacheRight(cache, stored)
    ensures CacheRight(cache - {r.owner}, Written(stored, r))
  {
    StillRight(cache, stored, Written(stored, r), r.owner);
  }

  lemma RightAfterDelete(cache: map<int, set<int>>, stored: set<Row>, owner: int, createdAt: int)
    requires CacheRight(cache, stored)
    ensures CacheRight(cache - {owner}, Deleted(stored, owner, createdAt))
  {
    StillRight(cache, stored, Deleted(stored, owner, createdAt), owner);
  }

  /**
    save invalidates before it writes: a set that is read and cached in between stays right
    exactly when the write does not change the user's targets.
   */
  lemma RefillBetween(cache: map<int, set<int>>, stored: set<Row>, r: Row)
    requires CacheRight(cache, stored)
    requires forall x :: x in stored && SameKey(x, r) ==> x == r
    ensures var refilled := (cache - {r.owner})[r.owner := Targets(stored, r.owner)];
      CacheRight(refilled, Written(stored, r)) <==> r.item in Targets(stored, r.owner)
  {
    var after := Written(stored, r);
    StillRight(cache, stored, after, r.owner);
    assert forall x :: x in after <==> x in stored || x == r;
    assert Targets(after, r.owner) == Targets(stored, r.owner) + {r.item};
  }

  /**
    delete invalidates before it deletes, too: a set that is read and cached in between stays right
    exactly when another row of the pair remains, which the follow guard rules out.
   */
  lemma RefillBeforeDelete(cache: map<int, set<int>>, stored: set<Row>, r: Row)
    requires CacheRight(cache, stored) && r in stored
    ensures var refilled := (cache - {r.owner})[r.owner := Targets(stored, r.owner)];
      CacheRight(refilled, stored - {r}) <==> exists x :: x in stored && x != r && SamePair(x, r)
    ensures PairsUnique(stored) ==> !(exists x :: x in stored && x != r && SamePair(x, r))
  {
    var after := stored - {r};
    var refilled := (cache - {r.owner})[r.owner := Targets(stored, r.owner)];
    StillRight(cache, stored, after, r.owner);
    assert r.item in Targets(stored, r.owner);
    assert Targets(stored, r.owner) == Targets(after, r.owner) + {r.item};
    if CacheRight(refilled, after) {
      assert refilled[r.owner] == Targets(after, r.owner);
    }
  }

  // ---------- rows of the tables ----------

  lemma SameKeySameText(x: Row, y: Row)
    requires SameKey(x, y)
    ensures !Less(Key(x), Key(y))
  {
    LessIrreflexive(Key(x));
  }

  lemma SortedKeysUnique(rows: seq<Row>)
    requires KeySorted(rows)
    ensures KeysUnique(Elements(rows))
  {
    forall i, j | 0 <= i < j < |rows| ensures !SameKey(rows[i], rows[j]) {
      assert Less(Key(rows[i]), Key(rows[j]));
      if SameKey(rows[i], rows[j]) {
        SameKeySameText(rows[i], rows[j]);
      }
    }
    ApartUnique(rows);
  }

  lemma ApartUnique(rows: seq<Row>)
    requires forall i, j :: 0 <= i < j < |rows| ==> !SameKey(rows[i], rows[j])
    ensures KeysUnique(Elements(rows))
  {
  }

  predicate Distinct<T(==)>(s: seq<T>) {
    forall i, j :: 0 <= i < j < |s| ==> s[i] != s[j]
  }

  lemma FirstApart(rows: seq<Row>, x: Row)
    requires KeySorted(rows) && PairsUnique(Elements(rows)) && rows != [] && x in rows[1..]
    ensures !SamePair(x, rows[0])
  {
    var i :| 1 <= i < |rows| && rows[i] == x;
    assert Less(Key(rows[0]), Key(rows[i]));
    LessIrreflexive(Key(x));
    assert x in Elements(rows) && rows[0] in Elements(rows);
  }

  lemma TailPairsUnique(rows: seq<Row>)
    requires KeySorted(rows) && PairsUnique(Elements(rows)) && rows != []
    ensures KeySorted(rows[1..]) && PairsUnique(Elements(rows[1..]))
  {
    assert forall x :: x in Elements(rows[1..]) ==> x in Elements(rows);
  }

  lemma ItemsAfter(r: Row, rest: seq<Row>)
    requires Distinct(Items(rest)) && forall x :: x in rest ==> x.item != r.item
    ensures Distinct(Items([r] + rest))
  {
    assert Items([r] + rest) == [r.item] + Items(rest);
  }

  /** A user's rows in a table, one per pair, name distinct users. */
  lemma {:induction false} OwnedItemsDistinct(rows: seq<Row>, u: int)
    requires KeySorted(rows) && PairsUnique(Elements(rows))
    ensures Distinct(Items(Owned(rows, u)))
  {
    if rows != [] {
      var rest := Owned(rows[1..], u);
      TailPairsUnique(rows);
      OwnedItemsDistinct(rows[1..], u);
      if rows[0].owner == u {
        forall x | x in rest ensures x.item != rows[0].item {
          OwnedMembers(rows[1..], u, x);
          FirstApart(rows, x);
        }
        ItemsAfter(rows[0], rest);
      }
    }
  }

  lemma {:induction false} DistinctCount<T>(s: seq<T>, elements: set<T>)
    requires Distinct(s) && forall x :: x in elements <==> x in s
    ensures |elements| == |s|
  {
    if s == [] {
      assert elements == {};
    } else {
      forall x ensures x in elements - {s[0]} <==> x in s[1..] {
        assert s == [s[0]] + s[1..];
      }
      DistinctCount(s[1..], elements - {s[0]});
    }
  }

  lemma OwnedTargets(rows: seq<Row>, u: int)
    ensures forall x :: x in Targets(Elements(rows), u) <==> x in Items(Owned(rows, u))
  {
    var owned := Owned(rows, u);
    forall x ensures x in Targets(Elements(rows), u) <==> x in Items(owned) {
      if x in Targets(Elements(rows), u) {
        var r :| r in rows && r.owner == u && r.item == x;
        OwnedMembers(rows, u, r);
        var i :| 0 <= i < |owned| && owned[i] == r;
        assert Items(owned)[i] == x;
      }
      if x in Items(owned) {
        var i :| 0 <= i < |owned| && Items(owned)[i] == x;
        OwnedMembers(rows, u, owned[i]);
      }
    }
  }

  /** With one row per pair, a user has as many targets as rows. */
  lemma TargetsCount(rows: seq<Row>, u: int)
    requires KeySorted(rows) && PairsUnique(Elements(rows))
    ensures |Targets(Elements(rows), u)| == |Owned(rows, u)|
  {
    OwnedItemsDistinct(rows, u);
    OwnedTargets(rows, u);
    DistinctCount(Items(Owned(rows, u)), Targets(Elements(rows), u));
  }

  /** r is the first of the rows that carries the item. */
  ghost predicate FirstWith(rows: seq<Row>, item: int, r: Row) {
    exists i :: 0 <= i < |rows| && rows[i] == r && r.item == item && forall j :: 0 <= j < i ==> rows[j].item != item
  }

  /** One row of the pair has gone from each table, and nothing else. */
  ghost predicate OneLess(followings: set<Row>, followingsAfter: set<Row>, followers: set<Row>,
                          followersAfter: set<Row>,
                          from: int, to: int)
  {
    exists r :: r in followings && r.owner == from && r.item == to
      && followingsAfter == followings - {r} && followersAfter == followers - {Flip(r)}
  }

  /** A valid table of one of the two models, with ids that fit the padding. */
  ghost predicate Holds(table: OwnerTable, names: Names)
    reads table, table.model
  {
    table.Valid() && table.names == names && forall r :: r in table.rows ==> Fits(r)
  }

  class FriendshipService {
    const following: OwnerTable
    const follower: OwnerTable
    var cache: map<int, set<int>>

    ghost predicate Valid()
      reads following, following.model, follower, follower.model
    {
      && Holds(following, FOLLOWING) && Holds(follower, FOLLOWER)
      && following != follower && following.model != follower.model
    }

    ghost predicate Mirrored()
      reads following, follower
    {
      Mirror(following.Contents(), follower.Contents())
    }

    constructor ()
      ensures Valid() && fresh(following) && fresh(following.model) && fresh(follower) && fresh(follower.model)
      ensures Mirrored() && following.Contents() == {} && cache == map[]
    {
      following := new OwnerTable(FOLLOWING);
      follower := new OwnerTable(FOLLOWER);
      cache := map[];
    }

    lemma Unique()
      requires Valid()
      ensures KeySorted(following.rows) && KeySorted(follower.rows)
      ensures KeysUnique(following.Contents()) && KeysUnique(follower.Contents())
    {
      EncodesSorted(FOLLOWING, following.rows, following.model.entries);
      EncodesSorted(FOLLOWER, follower.rows, follower.model.entries);
      SortedKeysUnique(following.rows);
      SortedKeysUnique(follower.rows);
    }

    method InvalidateFollowingCache(u: int)
      modifies this`cache
      ensures cache == old(cache) - {u}
    {
      cache := cache - {u};
    }

    /** get_follower_user_id_list */
    method GetFollowerUserIdList(to: int) returns (ids: seq<int>)
      requires Valid() && UserId(to)
      ensures ids == Items(Owned(follower.rows, to))
      ensures Mirrored() ==> forall x :: x in ids <==> Pair(x, to) in Pairs(following.Contents())
      ensures Mirrored() && PairsUnique(following.Contents()) ==> Distinct(ids)
    {
      var friendships := follower.FilterOwner(to, None, false);
      ids := Items(friendships.value);
      OwnedTargets(follower.rows, to);
      if Mirrored() {
        SourcesAreTargets(following.Contents(), follower.Contents(), to);
        if PairsUnique(following.Contents()) {
          Unique();
          MirrorPairsUnique(following.Contents(), follower.Contents());
          OwnedItemsDistinct(follower.rows, to);
        }
      }
    }

    /** get_following_user_id_set: answers from the cache, and fills it when there is no entry. */
    method GetFollowingUserIdSet(u: int) returns (ids: set<int>)
      requires Valid() && UserId(u)
      modifies this`cache
      ensures Valid()
      ensures ids == if u in old(cache) then old(cache)[u] else Targets(following.Contents(), u)
      ensures cache == old(cache)[u := ids]
    {
      if u in cache {
        ids := cache[u];
        assert cache[u := ids] == cache;
        return;
      }
      ids := ReadFollowings(u);
      cache := cache[u := ids];
    }

    method ReadFollowings(u: int) returns (ids: set<int>)
      requires Valid() && UserId(u)
      ensures ids == Targets(following.Contents(), u)
    {
      var friendships := following.FilterOwner(u, None, false);
      ids := set x | x in Items(friendships.value);
      OwnedTargets(following.rows, u);
    }

    /** get_follow_instance: the earliest row of the pair, if there is one. */
    method GetFollowInstance(from: int, to: int) returns (instance: Option<Row>)
      requires Valid() && UserId(from)
      ensures instance.None? ==> Pair(from, to) !in Pairs(following.Contents())
      ensures instance.Some? ==> instance.value in following.Contents()
      ensures instance.Some? ==> instance.value.owner == from && instance.value.item == to
      ensures instance.Some? ==> FirstWith(Owned(following.rows, from), to, instance.value)
    {
      var followings := following.FilterOwner(from, None, false);
      instance := FindTarget(followings.value, to);
      forall x | x in following.Contents() ensures x in followings.value <==> x.owner == from {
        OwnedMembers(following.rows, from, x);
      }
      if instance.Some? {
        OwnedMembers(following.rows, from, instance.value);
      }
    }

    static method FindTarget(followings: seq<Row>, to: int) returns (instance: Option<Row>)
      ensures instance.Some? ==> FirstWith(followings, to, instance.value)
      ensures instance.None? ==> forall x :: x in followings ==> x.item != to
    {
      for i := 0 to |followings|
        invariant forall j :: 0 <= j < i ==> followings[j].item != to
      {
        if followings[i].item == to {
          return Some(followings[i]);
        }
      }
      return None;
    }

    method HasFollowed(from: int, to: int) returns (b: bool)
      requires Valid() && UserId(from)
      modifies this`cache
      ensures Valid()
      ensures old(CacheRight(cache, following.Contents())) ==> CacheRight(cache, following.Contents())
      ensures old(CacheRight(cache, following.Contents())) ==>
          b == (from != to && Pair(from, to) in Pairs(following.Contents()))
      ensures cache.Keys == old(cache).Keys + if from == to then {} else {from}
    {
      if from == to {
        return false;
      }
      var ids := GetFollowingUserIdSet(from);
      return to in ids;
    }

    method GetFollowersCount(to: int) returns (n: nat)
      requires Valid() && UserId(to)
      ensures n == |Owned(follower.rows, to)|
      ensures Mirrored() && PairsUnique(following.Contents()) ==>
          n == |Targets(follower.Contents(), to)|
    {
      var ids := GetFollowerUserIdList(to);
      if Mirrored() && PairsUnique(following.Contents()) {
        Unique();
        MirrorPairsUnique(following.Contents(), follower.Contents());
        TargetsCount(follower.rows, to);
      }
      n := |ids|;
    }

    method GetFollowingCount(u: int) returns (n: nat)
      requires Valid() && UserId(u)
      modifies this`cache
      ensures Valid()
      ensures old(CacheRight(cache, following.Contents())) ==> CacheRight(cache, following.Contents())
      ensures old(CacheRight(cache, following.Contents())) ==> n == |Targets(following.Contents(), u)|
      ensures cache.Keys == old(cache).Keys + {u}
      ensures old(CacheRight(cache, following.Contents())) && PairsUnique(following.Contents()) ==>
          n == |Owned(following.rows, u)|
    {
      var ids := GetFollowingUserIdSet(u);
      n := |ids|;
      if PairsUnique(following.Contents()) {
        Unique();
        TargetsCount(following.rows, u);
      }
    }

    /** HBaseFollowing.save: the cache is invalidated and then the row is written. */
    method SaveFollowing(r: Row)
      requires Valid() && Fits(r)
      modifies this`cache, following`rows, following.model
      ensures Valid()
      ensures following.Contents() == Written(old(following.Contents()), r)
      ensures cache == old(cache) - {r.owner}
      ensures old(CacheRight(cache, following.Contents())) ==> CacheRight(cache, following.Contents())
    {
      InvalidateFollowingCache(r.owner);
      CreateIn(following, FOLLOWING, r);
      if old(CacheRight(cache, following.Contents())) {
        RightAfterWrite(old(cache), old(following.Contents()), r);
      }
    }

    /** HBaseFollowing.delete */
    method DeleteFollowing(from: int, createdAt: int)
      requires Valid() && from >= 0 && createdAt >= 0
      modifies this`cache, following`rows, following.model
      ensures Valid()
      ensures following.Contents() == Deleted(old(following.Contents()), from, createdAt)
      ensures cache == old(cache) - {from}
      ensures old(CacheRight(cache, following.Contents())) ==> CacheRight(cache, following.Contents())
    {
      InvalidateFollowingCache(from);
      DeleteIn(following, FOLLOWING, from, createdAt);
      if old(CacheRight(cache, following.Contents())) {
        RightAfterDelete(old(cache), old(following.Contents()), from, createdAt);
      }
    }

    /** The two writes of follow. */
    method WriteBoth(r: Row)
      requires Valid() && Fits(r)
      modifies this`cache, following`rows, following.model, follower`rows, follower.model
      ensures Valid() && cache == old(cache) - {r.owner}
      ensures following.Contents() == Written(old(following.Contents()), r)
      ensures follower.Contents() == Written(old(follower.Contents()), Flip(r))
      ensures old(CacheRight(cache, following.Contents())) ==> CacheRight(cache, following.Contents())
    {
      CreateIn(follower, FOLLOWER, Flip(r));
      SaveFollowing(r);
    }

    /** follow, with the time of the call */
    method Follow(from: int, to: int, now: int) returns (instance: Option<Row>)
      requires Valid() && UserId(from) && UserId(to) && now >= 0
      modifies this`cache, following`rows, following.model, follower`rows, follower.model
      ensures Valid()
      ensures instance == if from == to then None else Some(Row(from, now, to))
      ensures from == to ==> cache == old(cache) && following.rows == old(following.rows)
                             && follower.rows == old(follower.rows)
      ensures from != to ==> following.Contents() == Written(old(following.Contents()), Row(from, now, to))
      ensures from != to ==> follower.Contents() == Written(old(follower.Contents()), Row(to, now, from))
      ensures from != to ==> cache == old(cache) - {from}
      ensures old(Mirrored()) ==>
          (Mirrored() <==> from == to || Fresh(old(following.Contents()), Row(from, now, to)))
      ensures old(CacheRight(cache, following.Contents())) ==> CacheRight(cache, following.Contents())
    {
      if from == to {
        return None;
      }
      var r := Row(from, now, to);
      WriteBoth(r);
      if old(Mirrored()) {
        MirrorAfterFollow(old(following.Contents()), old(follower.Contents()), r);
      }
      return Some(r);
    }

    /** The two deletes of unfollow. */
    method DeleteBoth(r: Row)
      requires Valid() && r in following.Contents()
      modifies this`cache, following`rows, following.model, follower`rows, follower.model
      ensures Valid() && cache == old(cache) - {r.owner}
      ensures following.Contents() == old(following.Contents()) - {r}
      ensures follower.Contents() == Deleted(old(follower.Contents()), r.item, r.createdAt)
      ensures old(Mirrored()) ==> Mirrored() && follower.Contents() == old(follower.Contents()) - {Flip(r)}
      ensures old(CacheRight(cache, following.Contents())) ==> CacheRight(cache, following.Contents())
    {
      Unique();
      DeletedRow(following.Contents(), r);
      if Mirrored() {
        DeletedPair(following.Contents(), follower.Contents(), r);
      }
      DeleteFollowing(r.owner, r.createdAt);
      DeleteIn(follower, FOLLOWER, r.item, r.createdAt);
    }

    method Unfollow(from: int, to: int) returns (deleted: nat)
      requires Valid() && UserId(from) && UserId(to)
      modifies this`cache, following`rows, following.model, follower`rows, follower.model
      ensures Valid() && (old(Mirrored()) ==> Mirrored())
      ensures following.Contents() <= old(following.Contents())
      ensures deleted == if from != to && Pair(from, to) in Pairs(old(following.Contents())) then 1 else 0
      ensures deleted == 0 ==> cache == old(cache) && following.rows == old(following.rows)
                               && follower.rows == old(follower.rows)
      ensures deleted == 1 ==> cache == old(cache) - {from}
      ensures deleted == 1 && old(Mirrored()) ==>
        OneLess(old(following.Contents()), following.Contents(),
                old(follower.Contents()), follower.Contents(), from, to)
      ensures old(CacheRight(cache, following.Contents())) ==> CacheRight(cache, following.Contents())
    {
      if from == to {
        return 0;
      }
      var instance := GetFollowInstance(from, to);
      if instance.None? {
        return 0;
      }
      DeleteBoth(instance.value);
      return 1;
    }
  }

  lemma StillFit(before: seq<Row>, after: seq<Row>, r: Row)
    requires Fits(r) && Elements(after) == Written(Elements(before), r) && forall x :: x in before ==> Fits(x)
    ensures forall x :: x in after ==> Fits(x)
  {
    forall x | x in after ensures Fits(x) {
      assert x in Elements(after);
    }
  }

  lemma StillFitDeleted(before: seq<Row>, after: seq<Row>, owner: int, createdAt: int)
    requires Elements(after) == Deleted(Elements(before), owner, createdAt) && forall x :: x in before ==> Fits(x)
    ensures forall x :: x in after ==> Fits(x)
  {
    forall x | x in after ensures Fits(x) {
      assert x in Elements(after);
    }
  }

  method CreateIn(table: OwnerTable, names: Names, r: Row)
    requires Holds(table, names) && Fits(r)
    modifies table`rows, table.model
    ensures Holds(table, names) && table.Contents() == Written(old(table.Contents()), r)
  {
    table.Create(r);
    StillFit(old(table.rows), table.rows, r);
  }

  method DeleteIn(table: OwnerTable, names: Names, owner: int, createdAt: int)
    requires Holds(table, names) && owner >= 0 && createdAt >= 0
    modifies table`rows, table.model
    ensures Holds(table, names) && table.Contents() == Deleted(old(table.Contents()), owner, createdAt)
  {
    table.Delete(owner, createdAt);
    StillFitDeleted(old(table.rows), table.rows, owner, createdAt);
  }

  lemma SourcesAreTargets(followings: set<Row>, followers: set<Row>, to: int)
    requires Mirror(followings, followers)
    ensures forall x :: x in Targets(followers, to) <==> Pair(x, to) in Pairs(followings)
  {
    forall x ensures x in Targets(followers, to) <==> Pair(x, to) in Pairs(followings) {
      if x in Targets(followers, to) {
        var g :| g in followers && g.owner == to && g.item == x;
        assert Flip(Flip(g)) == g;
        assert Flip(g) in followings;
      }
      if Pair(x, to) in Pairs(followings) {
        var f :| f in followings && f.owner == x && f.item == to;
        assert Flip(f) in followers;
      }
    }
  }

  lemma MirrorPairsUnique(followings: set<Row>, followers: set<Row>)
    requires Mirror(followings, followers) && PairsUnique(followings)
    ensures PairsUnique(followers)
  {
    forall x, y | x in followers && y in followers && SamePair(x, y) ensures x == y {
      assert Flip(Flip(x)) == x && Flip(Flip(y)) == y;
      assert Flip(x) in followings && Flip(y) in followings;
      assert SamePair(Flip(x), Flip(y));
    }
  }
}

/**
  Exactly when a step that writes the list leaves it right: for every run, however its steps
  interleave and whatever the times of the rows.
 */
module CacheExact {
  import opened Feed
  import opened CacheProtocol
  import opened CacheSafety

  // ---------- rebuilds ----------

  /**
    Rows that were the newest of an earlier database are those of a later one exactly when each
    row inserted since is older than all of them and there is no room for it.
   */
  lemma RebuildExact(before: set<Row>, now: set<Row>, limit: nat, rows: seq<Row>)
    requires Newest(before, limit, rows) && before <= now
    ensures Newest(now, limit, rows) <==>
      forall r :: r in now && r !in before ==> |rows| == limit && forall x :: x in rows ==> r.createdAt < x.createdAt
  {
  }

  lemma {:induction false} DbGrowsUntil(limit: nat, steps: seq<Step>, i: nat, k: nat)
    requires i <= k <= |steps|
    ensures Db(After(limit, INITIAL, steps, i)) <= Db(After(limit, INITIAL, steps, k))
  {
    if i < k {
      DbGrowsUntil(limit, steps, i, k - 1);
      DbGrows(limit, After(limit, INITIAL, steps, k - 1), steps[k - 1]);
    }
  }

  /** The step in which a reader read the snapshot it holds. */
  lemma {:induction false} HeldSince(limit: nat, steps: seq<Step>, k: nat, id: int) returns (i: nat)
    requires k <= |steps| && Run(limit, INITIAL, steps)
    requires var s := After(limit, INITIAL, steps, k); id in s.readers && s.readers[id].Holding?
    ensures i < k && steps[i] == Snapshot(id, After(limit, INITIAL, steps, k).readers[id].snapshot)
    ensures Newest(Db(After(limit, INITIAL, steps, i)), limit, steps[i].rows)
  {
    var s := After(limit, INITIAL, steps, k - 1);
    RunStep(limit, INITIAL, steps, k);
    if steps[k - 1].Snapshot? && steps[k - 1].id == id {
      i := k - 1;
    } else {
      HeldBefore(limit, s, steps[k - 1], id);
      i := HeldSince(limit, steps, k - 1, id);
    }
  }

  /** No row is older than one inserted before it. */
  ghost predicate InOrder(limit: nat, steps: seq<Step>) {
    forall k {:trigger steps[k]} :: 0 <= k < |steps| && steps[k].Insert? ==>
      NewerThanAll(steps[k].row, Db(After(limit, INITIAL, steps, k)))
  }

  /**
    In every run a rebuild stores what its own reader read in an earlier step, and that is right
    exactly when every row inserted in between is older than all of it and there is no room.
   */
  lemma RebuildExactly(limit: nat, steps: seq<Step>, k: nat) returns (i: nat)
    requires k < |steps| && Run(limit, INITIAL, steps) && steps[k].Rebuild?
    ensures i < k && steps[i] == Snapshot(steps[k].id, After(limit, INITIAL, steps, k + 1).list)
    ensures var t := After(limit, INITIAL, steps, k + 1);
      Newest(Db(t), limit, t.list) <==>
      forall r :: r in Db(t) && r !in Db(After(limit, INITIAL, steps, i)) ==>
        |t.list| == limit && forall x :: x in t.list ==> r.createdAt < x.createdAt
    ensures limit > 0 && InOrder(limit, steps) ==>
      var t := After(limit, INITIAL, steps, k + 1);
      (Newest(Db(t), limit, t.list) <==> Db(t) == Db(After(limit, INITIAL, steps, i)))
  {
    var s, t := After(limit, INITIAL, steps, k), After(limit, INITIAL, steps, k + 1);
    RunStep(limit, INITIAL, steps, k + 1);
    i := HeldSince(limit, steps, k, steps[k].id);
    DbGrowsUntil(limit, steps, i, k + 1);
    RebuildExact(Db(After(limit, INITIAL, steps, i)), Db(t), limit, t.list);
    if limit > 0 && InOrder(limit, steps) {
      forall r | r in Db(t) && r !in Db(After(limit, INITIAL, steps, i))
        ensures NewerThanAll(r, Db(After(limit, INITIAL, steps, i))) {
        InsertedLater(limit, steps, i, k + 1, r);
      }
      UnchangedExactly(Db(After(limit, INITIAL, steps, i)), Db(t), limit, t.list);
    }
  }

  lemma {:induction false} InsertedLater(limit: nat, steps: seq<Step>, i: nat, k: nat, r: Row)
    requires i <= k <= |steps| && Run(limit, INITIAL, steps) && InOrder(limit, steps)
    requires r in Db(After(limit, INITIAL, steps, k)) && r !in Db(After(limit, INITIAL, steps, i))
    ensures NewerThanAll(r, Db(After(limit, INITIAL, steps, i)))
  {
    var s := After(limit, INITIAL, steps, k - 1);
    if r in Db(s) {
      InsertedLater(limit, steps, i, k - 1, r);
    } else {
      DbGrowsUntil(limit, steps, i, k - 1);
      RunStep(limit, INITIAL, steps, k);
      OnlyInsertAdds(limit, s, steps[k - 1], r);
    }
  }

  lemma OnlyInsertAdds(limit: nat, s: State, step: Step, r: Row)
    requires Enabled(limit, s, step) && r !in Db(s) && r in Db(Apply(limit, s, step))
    ensures step == Insert(r)
  {
  }

  lemma UnchangedExactly(before: set<Row>, now: set<Row>, limit: nat, rows: seq<Row>)
    requires Newest(before, limit, rows) && before <= now && limit > 0
    requires forall r :: r in now && r !in before ==> NewerThanAll(r, before)
    ensures Newest(now, limit, rows) <==> now == before
  {
    if r :| r in now && r !in before {
      assert r !in rows && forall x :: x in rows ==> x.createdAt < r.createdAt;
      assert rows != [] ==> rows[0] in rows;
    } else {
      assert now == before;
    }
  }

  // ---------- pushes ----------

  lemma PushedIsRight(db: set<Row>, limit: nat, row: Row, list: seq<Row>)
    requires limit > 0 && row in db && NewerThanAll(row, db - {row})
    requires Newest(db - {row}, limit - 1, Take(list, limit - 1))
    ensures Newest(db, limit, Take([row] + list, limit))
  {
    var rest := Take(list, limit - 1);
    assert Take([row] + list, limit) == [row] + rest;
    assert forall r :: r in db && r != row ==> r in db - {row};
  }

  lemma RightWasPushed(db: set<Row>, limit: nat, row: Row, list: seq<Row>)
    requires limit > 0 && row in db && Newest(db, limit, Take([row] + list, limit))
    ensures NewerThanAll(row, db - {row}) && Newest(db - {row}, limit - 1, Take(list, limit - 1))
  {
    assert Take([row] + list, limit) == [row] + Take(list, limit - 1);
    RightTail(db, limit, row, Take(list, limit - 1));
  }

  lemma RightTail(db: set<Row>, limit: nat, row: Row, rest: seq<Row>)
    requires limit > 0 && row in db && Newest(db, limit, [row] + rest)
    ensures NewerThanAll(row, db - {row}) && Newest(db - {row}, limit - 1, rest)
  {
    TailDescends(row, rest);
    forall r | r in db - {row} && r !in rest
      ensures |rest| == limit - 1 && r.createdAt < row.createdAt && forall x :: x in rest ==>
        r.createdAt < x.createdAt {
      assert r !in [row] + rest;
    }
  }

  lemma TailDescends(row: Row, rest: seq<Row>)
    requires Descending([row] + rest)
    ensures Descending(rest) && forall x :: x in rest ==> x.createdAt < row.createdAt
  {
    var all := [row] + rest;
    assert all[0] == row && forall i :: 0 <= i < |rest| ==> all[i + 1] == rest[i];
  }

  /**
    LPUSH and LTRIM leave the newest rows exactly when the row is newer than all others stored and
    the list held the newest of these, but for the room the row takes. So a row cached already, a
    list that lost rows, a disorder or a late row each spoil it, and nothing else does.
   */
  lemma PushExact(db: set<Row>, limit: nat, row: Row, list: seq<Row>)
    requires limit > 0 && row in db
    ensures Newest(db, limit, Take([row] + list, limit)) <==>
      NewerThanAll(row, db - {row}) && Newest(db - {row}, limit - 1, Take(list, limit - 1))
  {
    if Newest(db, limit, Take([row] + list, limit)) {
      RightWasPushed(db, limit, row, list);
    } else if NewerThanAll(row, db - {row}) && Newest(db - {row}, limit - 1, Take(list, limit - 1)) {
      PushedIsRight(db, limit, row, list);
    }
  }

  lemma PushExactly(limit: nat, steps: seq<Step>, k: nat)
    requires k < |steps| && Run(limit, INITIAL, steps) && steps[k].LPush? && limit > 0
    ensures var s, t, row := After(limit, INITIAL, steps, k), After(limit, INITIAL, steps, k + 1), steps[k].row;
      Newest(Db(t), limit, Take(t.list, limit)) <==>
      NewerThanAll(row, Db(s) - {row}) && Newest(Db(s) - {row}, limit - 1, Take(s.list, limit - 1))
  {
    RunStep(limit, INITIAL, steps, k + 1);
    var s, t := After(limit, INITIAL, steps, k), After(limit, INITIAL, steps, k + 1);
    assert Db(t) == Db(s);
    PushExact(Db(s), limit, steps[k].row, s.list);
  }

  // ---------- duplicates ----------

  /**
    A push caches a row twice exactly when it is cached already, behind the pushed rows; and then
    some reader has read the database between the row's insert and its push.
   */
  lemma DuplicateExactly(limit: nat, steps: seq<Step>, k: nat)
    requires k < |steps| && Run(limit, INITIAL, steps) && steps[k].LPush?
    ensures var s, t, row := After(limit, INITIAL, steps, k), After(limit, INITIAL, steps, k + 1), steps[k].row;
      && s.pushed <= |s.list|
      && (multiset(t.list)[row] == 2 <==> row in s.list)
      && (row in s.list <==> row in s.list[s.pushed..])
    ensures steps[k].row in After(limit, INITIAL, steps, k).list ==>
      exists i :: 0 <= i < k && steps[i].Snapshot? && steps[k].row in steps[i].rows
        && steps[k].row in Db(After(limit, INITIAL, steps, i))
  {
    var s, t, row := After(limit, INITIAL, steps, k), After(limit, INITIAL, steps, k + 1), steps[k].row;
    RunStep(limit, INITIAL, steps, k + 1);
    ContentAlways(limit, steps, k);
    CachedAtMostTwice(limit, steps, k, row);
    PushCounts(s.list, row);
    NotPushedYet(s, row);
    if row in s.list {
      var i := NoGaps(limit, steps, k);
      assert row in steps[i].rows;
    }
  }

  lemma PushCounts(list: seq<Row>, row: Row)
    ensures multiset([row] + list)[row] == 1 + multiset(list)[row]
    ensures multiset(list)[row] > 0 <==> row in list
  {
  }

  lemma NotPushedYet(s: State, row: Row)
    requires Shape(s.list, s.pushed, s.writers) && WriterAt(s, row, Hot)
    ensures row in s.list <==> row in s.list[s.pushed..]
  {
    assert s.list == s.list[..s.pushed] + s.list[s.pushed..];
  }

  /** The push that made a row cached twice. */
  lemma {:induction false} TwiceSince(limit: nat, steps: seq<Step>, k: nat, row: Row) returns (j: nat)
    requires k <= |steps| && Run(limit, INITIAL, steps)
    requires multiset(After(limit, INITIAL, steps, k).list)[row] >= 2
    ensures j < k && steps[j] == LPush(row) && row in After(limit, INITIAL, steps, j).list
  {
    var s := After(limit, INITIAL, steps, k - 1);
    RunStep(limit, INITIAL, steps, k);
    ContentAlways(limit, steps, k - 1);
    if multiset(s.list)[row] >= 2 {
      j := TwiceSince(limit, steps, k - 1, row);
    } else {
      j := k - 1;
      OnlyPushDoubles(limit, s, steps[k - 1], row);
    }
  }

  lemma OnlyPushDoubles(limit: nat, s: State, step: Step, row: Row)
    requires Enabled(limit, s, step) && ContentInv(s, limit)
    requires multiset(s.list)[row] < 2 <= multiset(Apply(limit, s, step).list)[row]
    ensures step == LPush(row) && row in s.list
  {
    match step
    case Rebuild(id) => OnceWithoutRepeats(s.readers[id].snapshot, row);
    case LPush(r) => OnePushCounts(s.list, r, row);
    case LTrim(r) => TrimCounts(s.list, limit, row);
    case _ =>
  }

  lemma OnePushCounts(list: seq<Row>, r: Row, row: Row)
    ensures multiset([r] + list)[row] == multiset(list)[row] + if r == row then 1 else 0
    ensures multiset(list)[row] > 0 <==> row in list
  {
  }

  lemma TrimCounts(list: seq<Row>, limit: nat, row: Row)
    ensures multiset(Take(list, limit))[row] <= multiset(list)[row]
  {
    if |list| >= limit {
      assert list == list[..limit] + list[limit..];
    }
  }

  /** A run never caches a row twice exactly when none of its pushes finds its row cached already. */
  lemma NeverTwice(limit: nat, steps: seq<Step>)
    requires Run(limit, INITIAL, steps)
    ensures (forall k, row :: 0 <= k <= |steps| ==> multiset(After(limit, INITIAL, steps, k).list)[row] <= 1) <==>
      forall k {:trigger steps[k]} :: 0 <= k < |steps| && steps[k].LPush? ==>
        steps[k].row !in After(limit, INITIAL, steps, k).list
  {
    if k :| 0 <= k < |steps| && steps[k].LPush? && steps[k].row in After(limit, INITIAL, steps, k).list {
      DuplicateExactly(limit, steps, k);
      assert multiset(After(limit, INITIAL, steps, k + 1).list)[steps[k].row] == 2;
    }
    if k, row :| 0 <= k <= |steps| && multiset(After(limit, INITIAL, steps, k).list)[row] > 1 {
      var j := TwiceSince(limit, steps, k, row);
      assert steps[j].LPush?;
    }
  }
}

/**
  The two models of the list cache agree: whatever faults and expiries a whole operation of
  RedisCache meets, it is a run of CacheProtocol, with the same list and the same answer.
 */
module CacheLink {
  import opened Outcomes
  import opened Feed
  import opened CacheProtocol
  import RC = RedisCache

  ghost predicate Reaches(limit: nat, s: State, t: State) {
    exists steps :: Leads(limit, s, steps, t)
  }

  lemma Nowhere(limit: nat, s: State)
    ensures Reaches(limit, s, s)
  {
    assert Leads(limit, s, [], s);
  }

  lemma Then(limit: nat, s: State, t: State, step: Step) returns (u: State)
    requires Reaches(limit, s, t) && Enabled(limit, t, step)
    ensures Reaches(limit, s, u) && u == Apply(limit, t, step)
  {
    u := Apply(limit, t, step);
    var steps :| Leads(limit, s, steps, t);
    LeadsOn(limit, s, steps, t, step);
  }

  /** The key may expire before the next command. */
  lemma Lapse(limit: nat, s: State, t: State, lapsed: bool) returns (u: State)
    requires Reaches(limit, s, t)
    ensures Reaches(limit, s, u)
    ensures u.readers == t.readers && u.writers == t.writers && u.lock == t.lock
    ensures u.list == if lapsed then [] else t.list
  {
    u := t;
    if lapsed {
      u := Then(limit, s, t, KeyExpires);
    }
  }

  // ---------- what the protocol sees of a server ----------

  ghost predicate NoEmptyLists(lists: RC.Lists) {
    forall k :: k in lists ==> lists[k] != []
  }

  /** The state's list is the key's. */
  ghost predicate Shows(s: State, server: RC.Server, key: int) {
    NoEmptyLists(server.lists) && s.list == RC.ListAt(server.lists, key)
  }

  /** The reader stands at r, and the database is that of s. */
  ghost predicate Stands(limit: nat, s: State, t: State, id: int, r: Reader, lock: Option<int>) {
    Reaches(limit, s, t) && ReaderAt(t, id, r) && t.writers == s.writers && t.lock == lock
  }

  /** The load is over: the reader has its answer and the list is what the server holds. */
  ghost predicate Loaded(limit: nat, s: State, t: State, id: int, loaded: (RC.Server, seq<Row>), key: int) {
    && Reaches(limit, s, t) && t.writers == s.writers
    && Shows(t, loaded.0, key) && ReaderAt(t, id, Finished(loaded.1))
  }

  // ---------- load_objects ----------

  /** A failed command before the lock, and the fallback. */
  lemma FallBack(limit: nat, s: State, t: State, id: int, rows: seq<Row>) returns (u: State)
    requires Reaches(limit, s, t) && t.writers == s.writers && Newest(Db(s), limit, rows)
    requires id in t.readers && (t.readers[id].Start? || t.readers[id].Hitting? || t.readers[id].Fallen?)
    ensures Reaches(limit, s, u) && u.writers == s.writers && u.list == t.list && ReaderAt(u, id, Finished(rows))
  {
    u := t;
    if !t.readers[id].Fallen? {
      u := Then(limit, s, u, Abort(id));
    }
    u := Then(limit, s, u, Fallback(id, rows));
  }

  /** A reader in the section gives the lock back, or loses its way there, and has its answer. */
  lemma GiveBack(limit: nat, s: State, t: State, id: int, r: Reader, o: RC.Outcome, rows: seq<Row>)
    returns (u: State)
    requires Stands(limit, s, t, id, r, Some(id)) && (r.Releasing? || r.Failing?) && Newest(Db(s), limit, rows)
    ensures Reaches(limit, s, u) && u.writers == s.writers && u.list == t.list
    ensures ReaderAt(u, id, Finished(if o.Done? && r.Releasing? then r.answer else rows))
  {
    if o.Done? {
      u := Then(limit, s, t, Release(id));
    } else {
      u := Then(limit, s, t, LoseRelease(id, o.ReplyLost?));
    }
    if !(o.Done? && r.Releasing?) {
      u := FallBack(limit, s, u, id, rows);
    }
  }

  /** The LRANGE of a hit outside the lock. */
  lemma HitIsRun(limit: nat, s: State, t: State, id: int, server: RC.Server, f: RC.Faults, key: int, rows: seq<Row>)
    returns (u: State)
    requires Stands(limit, s, t, id, Hitting, s.lock) && Shows(t, server, key) && Newest(Db(s), limit, rows)
    ensures Loaded(limit, s, u, id, RC.Hit(server, f, key, rows), key)
  {
    u := Lapse(limit, s, t, f.lapses(server.calls));
    if f.outcome(server.calls).Done? {
      u := Then(limit, s, u, Read(id));
    } else {
      u := FallBack(limit, s, u, id, rows);
    }
  }

  /** The section up to the release: with the lock held, an answer or a failure. */
  ghost predicate Leaving(limit: nat, s: State, t: State, id: int, left: (RC.Server, seq<Row>), key: int,
                          rows: seq<Row>) {
    && Shows(t, left.0, key)
    && (Stands(limit, s, t, id, Releasing(left.1), Some(id))
        || (left.1 == rows && Stands(limit, s, t, id, Failing, Some(id))))
  }

  lemma LockedHitIsRun(limit: nat, s: State, t: State, id: int, server: RC.Server, f: RC.Faults, key: int,
                       rows: seq<Row>) returns (u: State)
    requires Stands(limit, s, t, id, HitLocked, Some(id)) && Shows(t, server, key)
    ensures Leaving(limit, s, u, id, RC.Hit(server, f, key, rows), key, rows)
  {
    u := Lapse(limit, s, t, f.lapses(server.calls));
    if f.outcome(server.calls).Done? {
      u := Then(limit, s, u, ReadLocked(id));
    } else {
      u := Then(limit, s, u, Abort(id));
    }
  }

  /** Reading the database and storing what it holds. */
  lemma RebuildIsRun(limit: nat, s: State, t: State, id: int, server: RC.Server, o: RC.Outcome, key: int,
                     rows: seq<Row>) returns (u: State)
    requires Stands(limit, s, t, id, Checked, Some(id)) && Shows(t, server, key) && Newest(Db(s), limit, rows)
    requires key !in server.lists
    ensures var lists := if o.RequestLost? then server.lists else RC.Stored(server.lists, key, rows);
      Leaving(limit, s, u, id, (RC.Server(lists, server.calls + 1), rows), key, rows)
  {
    u := Then(limit, s, t, Snapshot(id, rows));
    if !o.RequestLost? {
      u := Then(limit, s, u, Rebuild(id));
    }
    if !o.Done? {
      u := Then(limit, s, u, Abort(id));
    }
  }

  lemma LockedIsRun(limit: nat, s: State, t: State, id: int, server: RC.Server, f: RC.Faults, key: int, rows: seq<Row>)
    returns (u: State)
    requires Stands(limit, s, t, id, CacheProtocol.Locked, Some(id)) && Shows(t, server, key)
    requires Newest(Db(s), limit, rows)
    ensures Leaving(limit, s, u, id, RC.Locked(server, f, key, rows), key, rows)
  {
    var c := server.calls;
    var seen := RC.Server(RC.Held(server.lists, key, f.lapses(c)), c + 1);
    u := Lapse(limit, s, t, f.lapses(c));
    if !f.outcome(c).Done? {
      u := Then(limit, s, u, Abort(id));
      return;
    }
    u := Then(limit, s, u, Recheck(id));
    if key in seen.lists {
      u := LockedHitIsRun(limit, s, u, id, seen, f, key, rows);
    } else {
      u := RebuildIsRun(limit, s, u, id, seen, f.outcome(c + 1), key, rows);
    }
  }

  /** The lock was asked for: it was not granted, or it was granted and its reply lost, or the section follows. */
  lemma MissIsRun(limit: nat, s: State, t: State, id: int, server: RC.Server, f: RC.Faults, key: int, rows: seq<Row>)
    returns (u: State)
    requires Stands(limit, s, t, id, Missed, None) && Shows(t, server, key) && Newest(Db(s), limit, rows)
    requires server.calls > 0
    ensures var o := f.outcome(server.calls - 1);
      o.Done? ==>
        var (left, objects) := RC.Locked(server, f, key, rows);
        Loaded(limit, s, u, id, (RC.Server(left.lists, left.calls + 1),
                                 if f.outcome(left.calls).Done? then objects else rows), key)
    ensures !f.outcome(server.calls - 1).Done? ==> Loaded(limit, s, u, id, (server, rows), key)
  {
    var o := f.outcome(server.calls - 1);
    if o.Done? {
      var locked := Then(limit, s, t, Lock(id));
      var left := RC.Locked(server, f, key, rows);
      var leaving := LockedIsRun(limit, s, locked, id, server, f, key, rows);
      u := GiveBack(limit, s, leaving, id, leaving.readers[id], f.outcome(left.0.calls), rows);
    } else {
      u := Then(limit, s, t, if o.RequestLost? then Abort(id) else LoseLock(id));
      u := FallBack(limit, s, u, id, rows);
    }
  }

  /** The first EXISTS, which may fail. */
  lemma ExistsIsRun(limit: nat, s: State, id: int, server: RC.Server, f: RC.Faults, key: int) returns (u: State)
    requires id !in s.readers && Shows(s, server, key)
    ensures var seen := RC.Held(server.lists, key, f.lapses(server.calls));
      && Shows(u, RC.Server(seen, server.calls + 1), key)
      && Stands(limit, s, u, id,
                if !f.outcome(server.calls).Done? then Start else if key in seen then Hitting else Missed, s.lock)
  {
    Nowhere(limit, s);
    u := Then(limit, s, s, Arrive(id));
    u := Lapse(limit, s, u, f.lapses(server.calls));
    if f.outcome(server.calls).Done? {
      u := Then(limit, s, u, Exists(id));
    }
  }

  /**
    A whole load_objects, whatever its commands meet, is a run of the protocol: a new reader ends
    with the same answer, and the key with the same list.
   */
  lemma LoadIsRun(limit: nat, s: State, id: int, server: RC.Server, f: RC.Faults, key: int, rows: seq<Row>)
    returns (u: State)
    requires id !in s.readers && s.lock.None? && Shows(s, server, key) && Newest(Db(s), limit, rows)
    ensures Loaded(limit, s, u, id, RC.Load(server, f, key, rows, []), key)
  {
    var c := server.calls;
    var seen := RC.Server(RC.Held(server.lists, key, f.lapses(c)), c + 1);
    u := ExistsIsRun(limit, s, id, server, f, key);
    if !f.outcome(c).Done? {
      u := FallBack(limit, s, u, id, rows);
    } else if key in seen.lists {
      u := HitIsRun(limit, s, u, id, seen, f, key, rows);
    } else {
      assert RC.Stored(seen.lists, key, []) == seen.lists;
      u := MissIsRun(limit, s, u, id, RC.Server(seen.lists, c + 2), f, key, rows);
    }
  }

  // ---------- push_objects ----------

  /** The writer stands at w, and nothing but the list and its own place has changed. */
  ghost predicate Writes(limit: nat, s: State, t: State, row: Row, w: Writer) {
    && Reaches(limit, s, t) && WriterAt(t, row, w) && t.readers == s.readers && t.lock == s.lock && Db(t) == Db(s)
  }

  lemma CheckIsRun(limit: nat, s: State, row: Row, server: RC.Server, f: RC.Faults, key: int) returns (u: State)
    requires WriterAt(s, row, Inserted) && Shows(s, server, key)
    ensures var seen := RC.Held(server.lists, key, f.lapses(server.calls));
      && Shows(u, RC.Server(seen, server.calls + 1), key)
      && Writes(limit, s, u, row,
                if !f.outcome(server.calls).Done? then Inserted else if key in seen then Hot else Skipped)
  {
    Nowhere(limit, s);
    u := Lapse(limit, s, s, f.lapses(server.calls));
    if f.outcome(server.calls).Done? {
      u := Then(limit, s, u, Check(row));
    }
  }

  lemma LPushIsRun(limit: nat, s: State, t: State, row: Row, server: RC.Server, f: RC.Faults, key: int)
    returns (u: State)
    requires Writes(limit, s, t, row, Hot) && Shows(t, server, key)
    ensures var found, lost := RC.Held(server.lists, key, f.lapses(server.calls)), f.outcome(server.calls).RequestLost?;
      && Shows(u, RC.Server(if lost then found else found[key := [row] + RC.ListAt(found, key)], server.calls + 1), key)
      && Writes(limit, s, u, row, if lost then Hot else Pushed)
  {
    u := Lapse(limit, s, t, f.lapses(server.calls));
    if !f.outcome(server.calls).RequestLost? {
      u := Then(limit, s, u, LPush(row));
    }
  }

  lemma LTrimIsRun(limit: nat, s: State, t: State, row: Row, server: RC.Server, f: RC.Faults, key: int)
    returns (u: State)
    requires Writes(limit, s, t, row, Pushed) && Shows(t, server, key) && limit > 0
    ensures var kept := RC.Held(server.lists, key, f.lapses(server.calls));
      var trimmed := if key in kept then kept[key := Take(kept[key], limit)] else kept;
      var lost := f.outcome(server.calls).RequestLost?;
      && Shows(u, RC.Server(if lost then kept else trimmed, server.calls + 1), key)
      && Writes(limit, s, u, row, if lost then Pushed else Trimmed)
  {
    u := Lapse(limit, s, t, f.lapses(server.calls));
    if !f.outcome(server.calls).RequestLost? {
      u := Then(limit, s, u, LTrim(row));
    }
  }

  /** A whole push_objects is a run as well: the writer takes its steps up to the first error. */
  lemma PushIsRun(limit: nat, s: State, row: Row, server: RC.Server, f: RC.Faults, key: int) returns (u: State)
    requires WriterAt(s, row, Inserted) && Shows(s, server, key) && limit > 0
    ensures Reaches(limit, s, u) && u.readers == s.readers && u.lock == s.lock && Db(u) == Db(s)
    ensures Shows(u, RC.Push(server, f, key, row, limit), key)
  {
    var c := server.calls;
    var seen := RC.Held(server.lists, key, f.lapses(c));
    u := CheckIsRun(limit, s, row, server, f, key);
    if f.outcome(c).Done? && key in seen {
      var found := RC.Held(seen, key, f.lapses(c + 1));
      u := LPushIsRun(limit, s, u, row, RC.Server(seen, c + 1), f, key);
      if f.outcome(c + 1).Done? {
        var pushed := found[key := [row] + RC.ListAt(found, key)];
        u := LTrimIsRun(limit, s, u, row, RC.Server(pushed, c + 2), f, key);
      }
    }
  }
}

/**
  Where the answers of the list cache come from, in every interleaving, and when a reader is told
  that there is nothing.
 */
module CacheAnswers {
  import opened Outcomes
  import opened Feed
  import opened CacheProtocol
  import CacheSafety

  // ---------- where an answer comes from ----------

  /** The rows a reader has got so far. */
  function Got(r: Reader): Option<seq<Row>> {
    match r
    case Holding(snapshot) => Some(snapshot)
    case Releasing(answer) => Some(answer)
    case Finished(result) => Some(result)
    case _ => None
  }

  /** The step reads rows for this reader: by LRANGE, or from the database. */
  predicate Asks(step: Step, id: int) {
    || step == Read(id) || step == ReadLocked(id)
    || (step.Snapshot? && step.id == id) || (step.Fallback? && step.id == id)
  }

  /** These are the rows it reads: the whole list as it stands, or the newest rows of the database. */
  ghost predicate Gives(limit: nat, s: State, step: Step, id: int, rows: seq<Row>) {
    || ((step == Read(id) || step == ReadLocked(id)) && rows == s.list)
    || ((step == Snapshot(id, rows) || step == Fallback(id, rows)) && Newest(Db(s), limit, rows))
  }

  lemma GotStep(limit: nat, s: State, step: Step, id: int)
    requires Enabled(limit, s, step)
    requires id in Apply(limit, s, step).readers && Got(Apply(limit, s, step).readers[id]).Some?
    ensures var got := Got(Apply(limit, s, step).readers[id]);
      if Asks(step, id) then Gives(limit, s, step, id, got.value)
      else id in s.readers && Got(s.readers[id]) == got
  {
  }

  /**
    In every run, what a reader has got is what its last reading step gave it: the whole list as it
    stood at that step, in order, or the newest rows of the database at that step.
   */
  lemma {:induction false} AnswerHistory(limit: nat, steps: seq<Step>, k: nat, id: int) returns (j: nat)
    requires k <= |steps| && Run(limit, INITIAL, steps)
    requires var s := After(limit, INITIAL, steps, k); id in s.readers && Got(s.readers[id]).Some?
    ensures j < k && Asks(steps[j], id) && forall i :: j < i < k ==> !Asks(steps[i], id)
    ensures var rows := Got(After(limit, INITIAL, steps, k).readers[id]).value;
      Gives(limit, After(limit, INITIAL, steps, j), steps[j], id, rows)
  {
    assert k > 0;
    RunStep(limit, INITIAL, steps, k);
    GotStep(limit, After(limit, INITIAL, steps, k - 1), steps[k - 1], id);
    if Asks(steps[k - 1], id) {
      j := k - 1;
    } else {
      j := AnswerHistory(limit, steps, k - 1, id);
    }
  }

  lemma NewestNothing(db: set<Row>, limit: nat, rows: seq<Row>)
    requires limit > 0 && Newest(db, limit, rows)
    ensures rows == [] <==> db == {}
  {
    if rows != [] {
      assert rows[0] in db;
    }
  }

  /** So an answer is empty exactly if the key was absent when it was read, or the database was empty. */
  lemma EmptyAnswer(limit: nat, steps: seq<Step>, k: nat, id: int, rows: seq<Row>) returns (j: nat)
    requires k <= |steps| && Run(limit, INITIAL, steps) && limit > 0
    requires ReaderAt(After(limit, INITIAL, steps, k), id, Finished(rows))
    ensures j < k && Asks(steps[j], id)
    ensures var s := After(limit, INITIAL, steps, j);
      rows == [] <==> if steps[j] == Read(id) || steps[j] == ReadLocked(id) then s.list == [] else Db(s) == {}
  {
    j := AnswerHistory(limit, steps, k, id);
    if steps[j] != Read(id) && steps[j] != ReadLocked(id) {
      NewestNothing(Db(After(limit, INITIAL, steps, j)), limit, rows);
    }
  }

  // ---------- no empty answers ----------

  /** The step stores an old empty snapshot over a list. */
  predicate Drops(s: State, step: Step) {
    step.Rebuild? && ReaderAt(s, step.id, Holding([])) && s.list != []
  }

  /** A list goes in two ways only. */
  lemma GoneBy(limit: nat, s: State, step: Step)
    requires limit > 0 && Enabled(limit, s, step) && s.list != []
    ensures Apply(limit, s, step).list == [] <==> step == KeyExpires || Drops(s, step)
  {
  }

  /** A reader past its EXISTS that will not be told that there is nothing. */
  ghost predicate Served(s: State, id: int) {
    && Db(s) != {} && id in s.readers && !s.readers[id].Start?
    && (s.readers[id].Hitting? || s.readers[id].HitLocked? ==> s.list != [])
    && Got(s.readers[id]) != Some([])
  }

  lemma ServedStep(limit: nat, s: State, step: Step, id: int)
    requires limit > 0 && Enabled(limit, s, step) && Served(s, id) && step != KeyExpires && !Drops(s, step)
    ensures Served(Apply(limit, s, step), id)
  {
    CacheSafety.DbGrows(limit, s, step);
    if s.list != [] {
      GoneBy(limit, s, step);
    }
    if step.Snapshot? || step.Fallback? {
      NewestNothing(Db(s), limit, step.rows);
    }
  }

  /**
    A reader that sent its EXISTS when a row was stored is not told that there is nothing, unless
    the key expires after that or a list is replaced by an older empty snapshot.
   */
  lemma {:induction false} AnswerUnlessDropped(limit: nat, steps: seq<Step>, e: nat, k: nat, id: int)
    requires e < k <= |steps| && Run(limit, INITIAL, steps) && limit > 0
    requires steps[e] == Exists(id) && Db(After(limit, INITIAL, steps, e)) != {}
    requires forall i {:trigger steps[i]} :: e < i < k ==>
      steps[i] != KeyExpires && !Drops(After(limit, INITIAL, steps, i), steps[i])
    ensures Served(After(limit, INITIAL, steps, k), id)
    decreases k
  {
    RunStep(limit, INITIAL, steps, k);
    if k > e + 1 {
      AnswerUnlessDropped(limit, steps, e, k - 1, id);
      ServedStep(limit, After(limit, INITIAL, steps, k - 1), steps[k - 1], id);
    }
  }

  /** While a reader holds an empty snapshot, there is no list and nobody is about to push. */
  ghost predicate EmptyHeld(s: State) {
    (exists id :: ReaderAt(s, id, Holding([]))) ==>
      s.list == [] && forall r :: r in s.writers ==> !s.writers[r].Hot?
  }

  lemma EmptyHeldStep(limit: nat, s: State, step: Step)
    requires limit > 0 && Enabled(limit, s, step)
    requires EmptyHeld(s) && CacheSafety.LockInv(s) && CacheSafety.ContentInv(s, limit)
    ensures EmptyHeld(Apply(limit, s, step))
  {
    var t := Apply(limit, s, step);
    if id :| ReaderAt(t, id, Holding([])) {
      if step == Snapshot(id, []) {
        NewestNothing(Db(s), limit, []);
        if s.list != [] {
          CacheSafety.ShapeBound(s.list, s.pushed, s.writers, s.list[0]);
        }
      } else {
        StillHeld(limit, s, step, id);
      }
    }
  }

  lemma StillHeld(limit: nat, s: State, step: Step, id: int)
    requires Enabled(limit, s, step) && EmptyHeld(s) && CacheSafety.LockInv(s)
    requires ReaderAt(Apply(limit, s, step), id, Holding([])) && step != Snapshot(id, [])
    ensures ReaderAt(s, id, Holding([])) && EmptyHeld(Apply(limit, s, step))
  {
    CacheSafety.HeldBefore(limit, s, step, id);
    assert ReaderAt(s, id, Holding([]));
    assert forall i :: i in s.readers && InSection(s.readers[i]) ==> i == id;
  }

  lemma {:induction false} EmptyHeldAlways(limit: nat, steps: seq<Step>, k: nat)
    requires k <= |steps| && Run(limit, INITIAL, steps) && limit > 0 && LockTimesOut !in steps
    ensures EmptyHeld(After(limit, INITIAL, steps, k))
  {
    if k > 0 {
      EmptyHeldAlways(limit, steps, k - 1);
      EmptyHeldNext(limit, steps, k - 1);
    }
  }

  lemma EmptyHeldNext(limit: nat, steps: seq<Step>, k: nat)
    requires k < |steps| && Run(limit, INITIAL, steps) && limit > 0 && LockTimesOut !in steps
    requires EmptyHeld(After(limit, INITIAL, steps, k))
    ensures EmptyHeld(After(limit, INITIAL, steps, k + 1))
  {
    CacheSafety.LockAlways(limit, steps, k);
    CacheSafety.ContentAlways(limit, steps, k);
    RunStep(limit, INITIAL, steps, k + 1);
    EmptyHeldStep(limit, After(limit, INITIAL, steps, k), steps[k]);
  }

  /** Unless the lock times out, no list is ever replaced by an older empty snapshot. */
  lemma NeverDrops(limit: nat, steps: seq<Step>, k: nat)
    requires k < |steps| && Run(limit, INITIAL, steps) && limit > 0 && LockTimesOut !in steps
    ensures !Drops(After(limit, INITIAL, steps, k), steps[k])
  {
    EmptyHeldAlways(limit, steps, k);
  }

  /**
    Unless the lock times out, a reader that sent its EXISTS when a row was stored, and does not
    meet an expiry after that, is not told that there is nothing.
   */
  lemma NoEmptyAnswer(limit: nat, steps: seq<Step>, e: nat, k: nat, id: int, rows: seq<Row>)
    requires e < k <= |steps| && Run(limit, INITIAL, steps) && limit > 0 && LockTimesOut !in steps
    requires steps[e] == Exists(id) && Db(After(limit, INITIAL, steps, e)) != {}
    requires KeyExpires !in steps[e..k]
    requires ReaderAt(After(limit, INITIAL, steps, k), id, Finished(rows))
    ensures rows != []
  {
    forall i | e < i < k ensures steps[i] != KeyExpires && !Drops(After(limit, INITIAL, steps, i), steps[i]) {
      NeverDrops(limit, steps, i);
      assert steps[e..k][i - e] == steps[i];
    }
    AnswerUnlessDropped(limit, steps, e, k, id);
  }

  // ---------- an empty answer after a lock timeout ----------

  const A := Row(1, 1, 1)

  const HELD := [Arrive(1), Exists(1), Lock(1), Recheck(1), Snapshot(1, [])]
  const STORED := HELD + [LockTimesOut, Insert(A), Arrive(2), Exists(2), Lock(2)]
  const REBUILT := STORED + [Recheck(2), Snapshot(2, [A]), Rebuild(2), Arrive(3)]

  lemma Led(steps: seq<Step>, s: State, step: Step) returns (more: seq<Step>, t: State)
    requires Leads(1, INITIAL, steps, s) && Enabled(1, s, step)
    ensures more == steps + [step] && Leads(1, INITIAL, more, t) && t == Apply(1, s, step)
  {
    LeadsOn(1, INITIAL, steps, s, step);
    more, t := steps + [step], Apply(1, s, step);
  }

  /** Reader 1 reads the empty database. */
  lemma HeldLeads()
    ensures Leads(1, INITIAL, HELD, State([], Some(1), map[1 := Holding([])], map[], 0, true))
  {
    assert Leads(1, INITIAL, [], INITIAL);
    var p, s := Led([], INITIAL, Arrive(1));
    p, s := Led(p, s, Exists(1));
    p, s := Led(p, s, Lock(1));
    p, s := Led(p, s, Recheck(1));
    p, s := Led(p, s, Snapshot(1, []));
    assert p == HELD && s.readers == map[1 := Holding([])];
  }

  /** It loses its lock; then the first row is stored, and reader 2 takes the lock. */
  lemma StoredLeads()
    ensures Leads(1, INITIAL, STORED,
                  State([], Some(2), map[1 := Holding([]), 2 := Locked], map[A := Inserted], 0, true))
  {
    HeldLeads();
    var p, s := Led(HELD, State([], Some(1), map[1 := Holding([])], map[], 0, true), LockTimesOut);
    p, s := Led(p, s, Insert(A));
    p, s := Led(p, s, Arrive(2));
    p, s := Led(p, s, Exists(2));
    p, s := Led(p, s, Lock(2));
    assert p == STORED && s.readers == map[1 := Holding([]), 2 := Locked];
  }

  /** Reader 2 caches the row, and reader 3 arrives. */
  lemma RebuiltLeads()
    ensures Leads(1, INITIAL, REBUILT,
                  State([A], Some(2), map[1 := Holding([]), 2 := Releasing([A]), 3 := Start], map[A := Inserted],
                        0, false))
  {
    StoredLeads();
    var stored := State([], Some(2), map[1 := Holding([]), 2 := Locked], map[A := Inserted], 0, true);
    var p, s := Led(STORED, stored, Recheck(2));
    assert Db(s) == {A};
    p, s := Led(p, s, Snapshot(2, [A]));
    p, s := Led(p, s, Rebuild(2));
    p, s := Led(p, s, Arrive(3));
    assert p == REBUILT && s.readers == map[1 := Holding([]), 2 := Releasing([A]), 3 := Start];
  }

  /**
    The lock matters: after a lock timeout a reader that sent its EXISTS when a row was stored and
    cached is told that there is nothing, though the key never expires.
   */
  lemma TimeoutEmptyAnswer() returns (s: State, t: State)
    ensures Leads(1, INITIAL, REBUILT, s) && Db(s) == {A} && s.list == [A]
    ensures var steps := REBUILT + [Exists(3), Rebuild(1), Read(3)];
      KeyExpires !in steps && Leads(1, INITIAL, steps, t) && ReaderAt(t, 3, Finished([]))
  {
    RebuiltLeads();
    s := State([A], Some(2), map[1 := Holding([]), 2 := Releasing([A]), 3 := Start], map[A := Inserted], 0, false);
    var p;
    p, t := Led(REBUILT, s, Exists(3));
    p, t := Led(p, t, Rebuild(1));
    p, t := Led(p, t, Read(3));
    assert p == REBUILT + [Exists(3), Rebuild(1), Read(3)];
  }
}

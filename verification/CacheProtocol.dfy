/**
  The list cache of one key as a state machine: readers, writers, expiry and lock timeout take
  their Redis and database commands one at a time, in any interleaving.
 */
module CacheProtocol {
  import opened Outcomes
  import opened Feed

  /** Where a reader stands in load_objects. */
  datatype Reader =
    | Start
    | Hitting                         // EXISTS said yes, LRANGE not yet sent
    | Missed                          // EXISTS said no, waiting for the lock
    | Locked                          // has taken the lock
    | HitLocked                       // the double-check said yes
    | Checked                         // the double-check said no
    | Holding(snapshot: seq<Row>)     // has read the database
    | Releasing(answer: seq<Row>)     // about to give the lock back
    | Failing                         // a command failed, about to give the lock back
    | Fallen                          // a command failed, about to read the database instead
    | Finished(result: seq<Row>)

  /** Where the one writer of a row stands: the row is in the database from Inserted on. */
  datatype Writer =
    | Inserted                        // EXISTS not yet sent
    | Hot                             // EXISTS said yes
    | Pushed                          // LPUSH done, LTRIM not yet
    | Trimmed                         // LTRIM done
    | Skipped                         // EXISTS said no

  /**
    `pushed` and `vanished` are history: how many leading entries of the list came from LPUSH
    since it was last rebuilt, and whether the key has been absent since then.
   */
  datatype State = State(list: seq<Row>, lock: Option<int>, readers: map<int, Reader>, writers: map<Row, Writer>,
                         pushed: nat, vanished: bool)

  /**
    A failing command is an Abort, also when it took effect and only its reply was lost; taking
    the lock and giving it back have steps of their own for that.
   */
  datatype Step =
    | Arrive(id: int)
    | Exists(id: int)
    | Read(id: int)
    | Lock(id: int)
    | Recheck(id: int)
    | ReadLocked(id: int)
    | Snapshot(id: int, rows: seq<Row>)
    | Rebuild(id: int)
    | Abort(id: int)
    | Release(id: int)
    | LoseLock(id: int)
    | LoseRelease(id: int, freed: bool)
    | Fallback(id: int, rows: seq<Row>)
    | LockTimesOut
    | KeyExpires
    | Insert(row: Row)
    | Check(row: Row)
    | LPush(row: Row)
    | LTrim(row: Row)

  const INITIAL := State([], None, map[], map[], 0, true)

  /** The database: the rows whose writers have begun. */
  function Db(s: State): set<Row> {
    s.writers.Keys
  }

  /** rows are the newest of the database, up to the limit, newest first. */
  ghost predicate Newest(db: set<Row>, limit: nat, rows: seq<Row>) {
    && Descending(rows) && |rows| <= limit
    && (forall r :: r in rows ==> r in db)
    && (forall r :: r in db && r !in rows ==> |rows| == limit && forall x :: x in rows ==> r.createdAt < x.createdAt)
  }

  ghost predicate NewerThanAll(row: Row, db: set<Row>) {
    forall x :: x in db ==> x.createdAt < row.createdAt
  }

  predicate ReaderAt(s: State, id: int, r: Reader) {
    id in s.readers && s.readers[id] == r
  }

  predicate WriterAt(s: State, row: Row, w: Writer) {
    row in s.writers && s.writers[row] == w
  }

  /** A reader inside `with conn.lock(...)`. */
  predicate InSection(r: Reader) {
    r.Locked? || r.HitLocked? || r.Checked? || r.Holding? || r.Releasing? || r.Failing?
  }

  ghost predicate Enabled(limit: nat, s: State, step: Step) {
    match step
    case Arrive(id) => id !in s.readers
    case Exists(id) => ReaderAt(s, id, Start)
    case Read(id) => ReaderAt(s, id, Hitting)
    case Lock(id) => ReaderAt(s, id, Missed) && s.lock.None?
    case Recheck(id) => ReaderAt(s, id, Locked)
    case ReadLocked(id) => ReaderAt(s, id, HitLocked)
    case Snapshot(id, rows) => ReaderAt(s, id, Checked) && Newest(Db(s), limit, rows)
    case Rebuild(id) => id in s.readers && s.readers[id].Holding?
    case Abort(id) => id in s.readers && !s.readers[id].Failing? && !s.readers[id].Fallen? && !s.readers[id].Finished?
    case Release(id) => id in s.readers && (s.readers[id].Releasing? || s.readers[id].Failing?)
    case LoseLock(id) => ReaderAt(s, id, Missed) && s.lock.None?
    case LoseRelease(id, _) => id in s.readers && (s.readers[id].Releasing? || s.readers[id].Failing?)
    case Fallback(id, rows) => ReaderAt(s, id, Fallen) && Newest(Db(s), limit, rows)
    case LockTimesOut => s.lock.Some?
    case KeyExpires => true
    case Insert(row) => row !in s.writers
    case Check(row) => WriterAt(s, row, Inserted)
    case LPush(row) => WriterAt(s, row, Hot)
    case LTrim(row) => WriterAt(s, row, Pushed)
  }

  /** The lock after its holder gives it back; another's lock stays. */
  function Freed(lock: Option<int>, id: int): Option<int> {
    if lock == Some(id) then None else lock
  }

  function Min(a: nat, b: nat): nat {
    if a < b then a else b
  }

  function Apply(limit: nat, s: State, step: Step): State {
    match step
    case Arrive(id) => s.(readers := s.readers[id := Start])
    case Exists(id) => s.(readers := s.readers[id := if s.list == [] then Missed else Hitting])
    case Read(id) => s.(readers := s.readers[id := Finished(s.list)])
    case Lock(id) => s.(readers := s.readers[id := Locked], lock := Some(id))
    case Recheck(id) => s.(readers := s.readers[id := if s.list == [] then Checked else HitLocked])
    case ReadLocked(id) => s.(readers := s.readers[id := Releasing(s.list)])
    case Snapshot(id, rows) => s.(readers := s.readers[id := Holding(rows)])
    case Rebuild(id) =>
      if id in s.readers && s.readers[id].Holding? then
        var rows := s.readers[id].snapshot;
        s.(list := rows, readers := s.readers[id := Releasing(rows)], pushed := 0, vanished := rows == [])
      else s
    case Abort(id) =>
      s.(readers := s.readers[id := if id in s.readers && InSection(s.readers[id]) then Failing else Fallen])
    case Release(id) =>
      if id in s.readers && s.readers[id].Releasing? && s.lock == Some(id) then
        s.(readers := s.readers[id := Finished(s.readers[id].answer)], lock := None)
      else s.(readers := s.readers[id := Fallen], lock := Freed(s.lock, id))
    case LoseLock(id) => s.(readers := s.readers[id := Fallen], lock := Some(id))
    case LoseRelease(id, freed) =>
      s.(readers := s.readers[id := Fallen], lock := if freed then Freed(s.lock, id) else s.lock)
    case Fallback(id, rows) => s.(readers := s.readers[id := Finished(rows)])
    case LockTimesOut => s.(lock := None)
    case KeyExpires => s.(list := [], pushed := 0, vanished := true)
    case Insert(row) => s.(writers := s.writers[row := Inserted])
    case Check(row) => s.(writers := s.writers[row := if s.list == [] then Skipped else Hot])
    case LPush(row) => s.(writers := s.writers[row := Pushed], list := [row] + s.list, pushed := s.pushed + 1)
    case LTrim(row) =>
      s.(writers := s.writers[row := Trimmed], list := Take(s.list, limit), pushed := Min(s.pushed, limit))
  }

  /** The state after the first k steps. */
  function After(limit: nat, s: State, steps: seq<Step>, k: nat): State
    requires k <= |steps|
  {
    if k == 0 then s else Apply(limit, After(limit, s, steps, k - 1), steps[k - 1])
  }

  ghost predicate Run(limit: nat, s: State, steps: seq<Step>) {
    forall k {:trigger Enabled(limit, After(limit, s, steps, k), steps[k])} :: 0 <= k < |steps| ==>
      Enabled(limit, After(limit, s, steps, k), steps[k])
  }

  lemma RunStep(limit: nat, s: State, steps: seq<Step>, k: nat)
    requires 0 < k <= |steps| && Run(limit, s, steps)
    ensures Enabled(limit, After(limit, s, steps, k - 1), steps[k - 1])
    ensures After(limit, s, steps, k) == Apply(limit, After(limit, s, steps, k - 1), steps[k - 1])
  {
  }

  /** The steps lead from s to t. */
  ghost predicate Leads(limit: nat, s: State, steps: seq<Step>, t: State) {
    Run(limit, s, steps) && After(limit, s, steps, |steps|) == t
  }

  lemma {:induction false} AfterFront(limit: nat, s: State, steps: seq<Step>, step: Step, k: nat)
    requires k <= |steps|
    ensures After(limit, s, steps + [step], k) == After(limit, s, steps, k)
  {
    if k > 0 {
      AfterFront(limit, s, steps, step, k - 1);
    }
  }

  lemma LeadsOn(limit: nat, s: State, steps: seq<Step>, t: State, step: Step)
    requires Leads(limit, s, steps, t) && Enabled(limit, t, step)
    ensures Leads(limit, s, steps + [step], Apply(limit, t, step))
  {
    var more := steps + [step];
    forall k | 0 <= k <= |steps| ensures After(limit, s, more, k) == After(limit, s, steps, k) {
      AfterFront(limit, s, steps, step, k);
    }
    assert forall k :: 0 <= k < |steps| ==> more[k] == steps[k];
  }
}

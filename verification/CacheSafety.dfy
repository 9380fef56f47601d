/** What every interleaving of the list cache keeps. */
module CacheSafety {
  import opened Outcomes
  import opened Feed
  import opened CacheProtocol

  // ---------- contents ----------

  predicate Landed(w: Writer) {
    w.Pushed? || w.Trimmed?
  }

  ghost predicate NoRepeats(s: seq<Row>) {
    forall i, j :: 0 <= i < j < |s| ==> s[i] != s[j]
  }

  /** Stored rows, newest first. */
  ghost predicate FromSnapshot(rows: seq<Row>, db: set<Row>) {
    Descending(rows) && forall r :: r in rows ==> r in db
  }

  /** Distinct pushed rows in front of stored rows, newest first. */
  ghost predicate Shape(list: seq<Row>, pushed: nat, writers: map<Row, Writer>) {
    && pushed <= |list|
    && NoRepeats(list[..pushed])
    && (forall r :: r in list[..pushed] ==> r in writers && Landed(writers[r]))
    && FromSnapshot(list[pushed..], writers.Keys)
  }

  ghost predicate Snapshots(s: State, limit: nat) {
    forall id :: id in s.readers && s.readers[id].Holding? ==>
      FromSnapshot(s.readers[id].snapshot, Db(s)) && |s.readers[id].snapshot| <= limit
  }

  ghost predicate ContentInv(s: State, limit: nat) {
    Shape(s.list, s.pushed, s.writers) && Snapshots(s, limit)
  }

  lemma PushedSlices<T>(x: T, s: seq<T>, n: nat)
    requires n <= |s|
    ensures ([x] + s)[..n + 1] == [x] + s[..n] && ([x] + s)[n + 1..] == s[n..]
  {
  }

  lemma ShapeAfterPush(s: State, row: Row)
    requires Shape(s.list, s.pushed, s.writers) && WriterAt(s, row, Hot)
    ensures Shape([row] + s.list, s.pushed + 1, s.writers[row := Pushed])
  {
    var list := [row] + s.list;
    PushedSlices(row, s.list, s.pushed);
    assert row !in s.list[..s.pushed];
  }

  lemma ShapeAfterTrim(list: seq<Row>, pushed: nat, writers: map<Row, Writer>, limit: nat)
    requires Shape(list, pushed, writers)
    ensures Shape(Take(list, limit), Min(pushed, limit), writers)
  {
    var short, n := Take(list, limit), Min(pushed, limit);
    assert short[..n] == list[..pushed][..n];
    if pushed <= |short| {
      assert short[n..] == list[pushed..][..|short| - pushed];
    } else {
      assert short[n..] == [];
    }
  }

  lemma ShapeKept(list: seq<Row>, pushed: nat, before: map<Row, Writer>, after: map<Row, Writer>)
    requires Shape(list, pushed, before)
    requires forall r :: r in before ==> r in after && (Landed(before[r]) ==> Landed(after[r]))
    ensures Shape(list, pushed, after)
  {
  }

  lemma ContentStep(limit: nat, s: State, step: Step)
    requires ContentInv(s, limit) && Enabled(limit, s, step)
    ensures ContentInv(Apply(limit, s, step), limit)
  {
    var t := Apply(limit, s, step);
    match step
    case Insert(row) => ShapeKept(s.list, s.pushed, s.writers, t.writers);
    case Check(row) => ShapeKept(s.list, s.pushed, s.writers, t.writers);
    case LPush(row) => ShapeAfterPush(s, row);
    case LTrim(row) =>
      ShapeAfterTrim(s.list, s.pushed, s.writers, limit);
      ShapeKept(t.list, t.pushed, s.writers, t.writers);
    case _ =>
  }

  /** In every run, however the steps of readers, writers, expiries and lock timeouts interleave. */
  lemma {:induction false} ContentAlways(limit: nat, steps: seq<Step>, k: nat)
    requires k <= |steps| && Run(limit, INITIAL, steps)
    ensures ContentInv(After(limit, INITIAL, steps, k), limit)
  {
    if k > 0 {
      ContentAlways(limit, steps, k - 1);
      RunStep(limit, INITIAL, steps, k);
      ContentStep(limit, After(limit, INITIAL, steps, k - 1), steps[k - 1]);
    }
  }

  // ---------- one snapshot ----------

  /** The rows were read from the database by one of the first k steps: its newest rows at that time. */
  ghost predicate Taken(limit: nat, steps: seq<Step>, k: nat, rows: seq<Row>)
    requires k <= |steps|
  {
    exists i :: 0 <= i < k && steps[i].Snapshot? && steps[i].rows == rows
      && Newest(Db(After(limit, INITIAL, steps, i)), limit, rows)
  }

  /** Nothing, or the beginning of one snapshot. */
  ghost predicate OfOneSnapshot(limit: nat, steps: seq<Step>, k: nat, rest: seq<Row>)
    requires k <= |steps|
  {
    rest == [] || exists rows :: Taken(limit, steps, k, rows) && rest <= rows
  }

  ghost predicate HoldsSnapshots(limit: nat, steps: seq<Step>, k: nat, readers: map<int, Reader>)
    requires k <= |steps|
  {
    forall id :: id in readers && readers[id].Holding? ==> Taken(limit, steps, k, readers[id].snapshot)
  }

  lemma StillTaken(limit: nat, steps: seq<Step>, k: nat, rows: seq<Row>)
    requires k < |steps| && Taken(limit, steps, k, rows)
    ensures Taken(limit, steps, k + 1, rows)
  {
  }

  lemma RestStill(limit: nat, steps: seq<Step>, k: nat, rest: seq<Row>, less: seq<Row>)
    requires k < |steps| && OfOneSnapshot(limit, steps, k, rest) && less <= rest
    ensures OfOneSnapshot(limit, steps, k + 1, less)
  {
    if less != [] {
      var rows :| Taken(limit, steps, k, rows) && rest <= rows;
      StillTaken(limit, steps, k, rows);
      assert less <= rows;
    }
  }

  lemma RestAfterTrim(list: seq<Row>, pushed: nat, limit: nat)
    requires pushed <= |list|
    ensures Take(list, limit)[Min(pushed, limit)..] <= list[pushed..]
  {
  }

  /** What a step leaves of the rows behind the pushed ones, unless it rebuilds. */
  lemma RestStep(limit: nat, s: State, step: Step)
    requires s.pushed <= |s.list| && Enabled(limit, s, step) && !step.Rebuild?
    ensures var t := Apply(limit, s, step);
      t.pushed <= |t.list| && t.list[t.pushed..] <= s.list[s.pushed..]
  {
    if step.LTrim? {
      RestAfterTrim(s.list, s.pushed, limit);
    }
  }

  lemma HoldStep(limit: nat, steps: seq<Step>, k: nat)
    requires k < |steps| && Run(limit, INITIAL, steps)
    requires HoldsSnapshots(limit, steps, k, After(limit, INITIAL, steps, k).readers)
    ensures HoldsSnapshots(limit, steps, k + 1, After(limit, INITIAL, steps, k + 1).readers)
  {
    var s, t := After(limit, INITIAL, steps, k), After(limit, INITIAL, steps, k + 1);
    RunStep(limit, INITIAL, steps, k + 1);
    forall id | id in t.readers && t.readers[id].Holding? ensures Taken(limit, steps, k + 1, t.readers[id].snapshot) {
      if steps[k].Snapshot? && steps[k].id == id {
        assert Newest(Db(s), limit, steps[k].rows);
      } else {
        HeldBefore(limit, s, steps[k], id);
        StillTaken(limit, steps, k, t.readers[id].snapshot);
      }
    }
  }

  lemma HeldBefore(limit: nat, s: State, step: Step, id: int)
    requires Enabled(limit, s, step) && !(step.Snapshot? && step.id == id)
    requires id in Apply(limit, s, step).readers && Apply(limit, s, step).readers[id].Holding?
    ensures id in s.readers && s.readers[id] == Apply(limit, s, step).readers[id]
  {
  }

  /**
    In every run the rows behind the pushed ones are the beginning of one snapshot, read by one
    step of the run: snapshots are never spliced.
   */
  lemma {:induction false} OneSnapshot(limit: nat, steps: seq<Step>, k: nat)
    requires k <= |steps| && Run(limit, INITIAL, steps)
    ensures var s := After(limit, INITIAL, steps, k);
      && s.pushed <= |s.list| && OfOneSnapshot(limit, steps, k, s.list[s.pushed..])
      && HoldsSnapshots(limit, steps, k, s.readers)
  {
    if k > 0 {
      OneSnapshot(limit, steps, k - 1);
      RunStep(limit, INITIAL, steps, k);
      HoldStep(limit, steps, k - 1);
      NextSnapshot(limit, steps, k - 1);
    }
  }

  lemma NextSnapshot(limit: nat, steps: seq<Step>, k: nat)
    requires k < |steps| && Run(limit, INITIAL, steps)
    requires var s := After(limit, INITIAL, steps, k);
      && s.pushed <= |s.list| && OfOneSnapshot(limit, steps, k, s.list[s.pushed..])
      && HoldsSnapshots(limit, steps, k, s.readers)
    ensures var t := After(limit, INITIAL, steps, k + 1);
      t.pushed <= |t.list| && OfOneSnapshot(limit, steps, k + 1, t.list[t.pushed..])
  {
    var s, t := After(limit, INITIAL, steps, k), After(limit, INITIAL, steps, k + 1);
    RunStep(limit, INITIAL, steps, k + 1);
    if steps[k].Rebuild? {
      var rows := s.readers[steps[k].id].snapshot;
      StillTaken(limit, steps, k, rows);
      assert t.list == rows && t.list[0..] == rows;
    } else {
      RestStep(limit, s, steps[k]);
      RestStill(limit, steps, k, s.list[s.pushed..], t.list[t.pushed..]);
    }
  }

  /**
    So the list has no gaps behind its pushed rows: a row that was in the database when that
    snapshot was read, and is not among them, is older than all of them.
   */
  lemma NoGaps(limit: nat, steps: seq<Step>, k: nat) returns (i: nat)
    requires k <= |steps| && Run(limit, INITIAL, steps)
    requires var s := After(limit, INITIAL, steps, k); s.pushed < |s.list|
    ensures var s := After(limit, INITIAL, steps, k);
      && i < k && steps[i].Snapshot?
      && s.list[s.pushed..] <= steps[i].rows && Newest(Db(After(limit, INITIAL, steps, i)), limit, steps[i].rows)
      && forall r, x ::
           r in Db(After(limit, INITIAL, steps, i)) && r !in s.list[s.pushed..] && x in s.list[s.pushed..] ==>
           r.createdAt < x.createdAt
  {
    OneSnapshot(limit, steps, k);
    var s := After(limit, INITIAL, steps, k);
    var rest := s.list[s.pushed..];
    var rows :| Taken(limit, steps, k, rows) && rest <= rows;
    i :| 0 <= i < k && steps[i].Snapshot? && steps[i].rows == rows
      && Newest(Db(After(limit, INITIAL, steps, i)), limit, rows);
    BeginningIsNewest(Db(After(limit, INITIAL, steps, i)), limit, rows, rest);
  }

  lemma BeginningIsNewest(db: set<Row>, limit: nat, rows: seq<Row>, rest: seq<Row>)
    requires Newest(db, limit, rows) && rest <= rows
    ensures forall r, x :: r in db && r !in rest && x in rest ==> r.createdAt < x.createdAt
  {
    forall r, x | r in db && r !in rest && x in rest ensures r.createdAt < x.createdAt {
      if r in rows {
        var i, j :| 0 <= i < |rows| && rows[i] == r && 0 <= j < |rest| && rest[j] == x;
        assert forall m :: 0 <= m < |rest| ==> rows[m] == rest[m];
        assert rows[j] == x;
      }
    }
  }

  // ---------- copies ----------

  lemma {:induction false} OnceWithoutRepeats(rows: seq<Row>, r: Row)
    requires NoRepeats(rows)
    ensures multiset(rows)[r] <= 1
  {
    if rows != [] {
      OnceWithoutRepeats(rows[1..], r);
      assert rows == [rows[0]] + rows[1..];
      if r == rows[0] {
        assert r !in rows[1..];
      }
    }
  }

  lemma ShapeBound(list: seq<Row>, pushed: nat, writers: map<Row, Writer>, r: Row)
    requires Shape(list, pushed, writers)
    ensures r in list ==> r in writers
    ensures multiset(list)[r] <= 2
    ensures r !in writers || !Landed(writers[r]) ==> multiset(list)[r] <= 1
  {
    var front, rest := list[..pushed], list[pushed..];
    assert list == front + rest;
    OnceWithoutRepeats(front, r);
    OnceWithoutRepeats(rest, r);
    if r !in front {
      assert multiset(front)[r] == 0;
    }
  }

  /**
    Every cached row is in the database; it is cached at most twice, and at most once unless its
    own push has landed.
   */
  lemma CachedAtMostTwice(limit: nat, steps: seq<Step>, k: nat, r: Row)
    requires k <= |steps| && Run(limit, INITIAL, steps)
    ensures var s := After(limit, INITIAL, steps, k);
      && (r in s.list ==> r in Db(s))
      && multiset(s.list)[r] <= 2
      && (r !in s.writers || !Landed(s.writers[r]) ==> multiset(s.list)[r] <= 1)
  {
    ContentAlways(limit, steps, k);
    var s := After(limit, INITIAL, steps, k);
    ShapeBound(s.list, s.pushed, s.writers, r);
  }

  /** Rows of the database, none more than twice. */
  ghost predicate Answerable(rows: seq<Row>, db: set<Row>) {
    forall r :: r in rows ==> r in db && multiset(rows)[r] <= 2
  }

  function AnswerOf(r: Reader): seq<Row> {
    match r
    case Releasing(answer) => answer
    case Finished(result) => result
    case _ => []
  }

  ghost predicate AnswerInv(s: State) {
    forall id :: id in s.readers ==> Answerable(AnswerOf(s.readers[id]), Db(s))
  }

  /** An answer is what the reader had, the list, a snapshot, or what a fallback read. */
  lemma AnswerSource(limit: nat, s: State, step: Step, id: int)
    requires Enabled(limit, s, step) && id in Apply(limit, s, step).readers
    ensures var answer := AnswerOf(Apply(limit, s, step).readers[id]);
      || answer == [] || answer == s.list || (id in s.readers && answer == AnswerOf(s.readers[id]))
      || (step.Rebuild? && answer == s.readers[step.id].snapshot) || (step.Fallback? && answer == step.rows)
  {
  }

  lemma DbGrows(limit: nat, s: State, step: Step)
    ensures Db(s) <= Db(Apply(limit, s, step))
  {
  }

  lemma AnswerStep(limit: nat, s: State, step: Step)
    requires AnswerInv(s) && ContentInv(s, limit) && Enabled(limit, s, step)
    ensures AnswerInv(Apply(limit, s, step))
  {
    ListAnswerable(s);
    if step.Rebuild? {
      SnapshotAnswer(s.readers[step.id].snapshot, Db(s));
    }
    if step.Fallback? {
      SnapshotAnswer(step.rows, Db(s));
    }
    DbGrows(limit, s, step);
    var t := Apply(limit, s, step);
    forall id | id in t.readers ensures Answerable(AnswerOf(t.readers[id]), Db(t)) {
      AnswerSource(limit, s, step, id);
      var answer := AnswerOf(t.readers[id]);
      assert Answerable(answer, Db(s));
    }
  }

  lemma ListAnswerable(s: State)
    requires Shape(s.list, s.pushed, s.writers)
    ensures Answerable(s.list, Db(s))
  {
    forall r | r in s.list ensures r in Db(s) && multiset(s.list)[r] <= 2 {
      ShapeBound(s.list, s.pushed, s.writers, r);
    }
  }

  lemma SnapshotAnswer(rows: seq<Row>, db: set<Row>)
    requires FromSnapshot(rows, db)
    ensures Answerable(rows, db)
  {
    forall r | r in rows ensures multiset(rows)[r] <= 2 {
      OnceWithoutRepeats(rows, r);
    }
  }

  /** What any reader returns in any run, from the cache or after an error: stored rows, none more than twice. */
  lemma {:induction false} AnswersAlways(limit: nat, steps: seq<Step>, k: nat)
    requires k <= |steps| && Run(limit, INITIAL, steps)
    ensures AnswerInv(After(limit, INITIAL, steps, k))
  {
    if k > 0 {
      AnswersAlways(limit, steps, k - 1);
      ContentAlways(limit, steps, k - 1);
      RunStep(limit, INITIAL, steps, k);
      AnswerStep(limit, After(limit, INITIAL, steps, k - 1), steps[k - 1]);
    }
  }

  // ---------- length ----------

  /** Writers between their LPUSH and their LTRIM. */
  function InFlight(writers: map<Row, Writer>): set<Row> {
    set r | r in writers && writers[r].Pushed?
  }

  ghost predicate LengthInv(s: State, limit: nat) {
    |s.list| <= limit + |InFlight(s.writers)|
  }

  lemma LengthStep(limit: nat, s: State, step: Step)
    requires LengthInv(s, limit) && ContentInv(s, limit) && Enabled(limit, s, step)
    ensures LengthInv(Apply(limit, s, step), limit)
  {
    if step.Insert? || step.Check? || step.LPush? || step.LTrim? {
      WriterLength(limit, s, step);
    } else if step.Rebuild? {
      assert |s.readers[step.id].snapshot| <= limit;
    } else {
      OtherLength(limit, s, step);
    }
  }

  lemma WriterLength(limit: nat, s: State, step: Step)
    requires LengthInv(s, limit) && Enabled(limit, s, step)
    requires step.Insert? || step.Check? || step.LPush? || step.LTrim?
    ensures LengthInv(Apply(limit, s, step), limit)
  {
    var t := Apply(limit, s, step);
    match step
    case Insert(row) => assert InFlight(t.writers) == InFlight(s.writers);
    case Check(row) => assert InFlight(t.writers) == InFlight(s.writers);
    case LPush(row) => assert InFlight(t.writers) == InFlight(s.writers) + {row};
    case LTrim(row) =>
  }

  lemma OtherLength(limit: nat, s: State, step: Step)
    requires LengthInv(s, limit) && !step.Insert? && !step.Check? && !step.LPush? && !step.LTrim? && !step.Rebuild?
    ensures LengthInv(Apply(limit, s, step), limit)
  {
  }

  /** In every run the cached list is at most the limit plus the number of writers about to trim. */
  lemma {:induction false} LengthBounded(limit: nat, steps: seq<Step>, k: nat)
    requires k <= |steps| && Run(limit, INITIAL, steps)
    ensures LengthInv(After(limit, INITIAL, steps, k), limit)
  {
    if k > 0 {
      LengthBounded(limit, steps, k - 1);
      ContentAlways(limit, steps, k - 1);
      RunStep(limit, INITIAL, steps, k);
      LengthStep(limit, After(limit, INITIAL, steps, k - 1), steps[k - 1]);
    }
  }

  // ---------- single flight ----------

  /** A reader in the locked section holds the lock; past its double-check, the key has been absent. */
  ghost predicate LockInv(s: State) {
    && (forall id :: id in s.readers && InSection(s.readers[id]) ==> s.lock == Some(id))
    && (forall id :: id in s.readers && (s.readers[id].Checked? || s.readers[id].Holding?) ==> s.vanished)
    && (s.list == [] ==> s.vanished)
  }

  lemma LockStep(limit: nat, s: State, step: Step)
    requires LockInv(s) && Enabled(limit, s, step) && step != LockTimesOut && limit > 0
    ensures LockInv(Apply(limit, s, step))
  {
  }

  lemma {:induction false} LockAlways(limit: nat, steps: seq<Step>, k: nat)
    requires k <= |steps| && Run(limit, INITIAL, steps) && limit > 0 && LockTimesOut !in steps
    ensures LockInv(After(limit, INITIAL, steps, k))
  {
    if k > 0 {
      LockAlways(limit, steps, k - 1);
      RunStep(limit, INITIAL, steps, k);
      LockStep(limit, After(limit, INITIAL, steps, k - 1), steps[k - 1]);
    }
  }

  /** Unless the lock times out, no two readers are ever in the rebuild section. */
  lemma SingleFlight(limit: nat, steps: seq<Step>, k: nat, a: int, b: int)
    requires k <= |steps| && Run(limit, INITIAL, steps) && limit > 0 && LockTimesOut !in steps
    requires var s := After(limit, INITIAL, steps, k);
      a in s.readers && b in s.readers && InSection(s.readers[a]) && InSection(s.readers[b])
    ensures a == b
  {
    LockAlways(limit, steps, k);
  }

  lemma {:induction false} VanishesBetween(limit: nat, steps: seq<Step>, i: nat, j: nat) returns (k: nat)
    requires i <= j <= |steps|
    requires !After(limit, INITIAL, steps, i).vanished && After(limit, INITIAL, steps, j).vanished
    ensures i < k <= j && After(limit, INITIAL, steps, k).list == []
  {
    var t := After(limit, INITIAL, steps, j);
    assert j > i && t == Apply(limit, After(limit, INITIAL, steps, j - 1), steps[j - 1]);
    if After(limit, INITIAL, steps, j - 1).vanished {
      k := VanishesBetween(limit, steps, i, j - 1);
    } else {
      k := j;
    }
  }

  /**
    Unless the lock times out, the key is rebuilt only after it has vanished: between a rebuild
    that stored something and any later rebuild there is a state without the key.
   */
  lemma RebuiltOnlyWhenGone(limit: nat, steps: seq<Step>, i: nat, j: nat) returns (k: nat)
    requires Run(limit, INITIAL, steps) && limit > 0 && LockTimesOut !in steps
    requires i < j < |steps| && steps[i].Rebuild? && steps[j].Rebuild?
    requires After(limit, INITIAL, steps, i + 1).list != []
    ensures i + 1 < k <= j && After(limit, INITIAL, steps, k).list == []
  {
    RebuildResets(limit, steps, i);
    RebuildFindsNothing(limit, steps, j);
    k := VanishesBetween(limit, steps, i + 1, j);
  }

  lemma RebuildResets(limit: nat, steps: seq<Step>, i: nat)
    requires i < |steps| && Run(limit, INITIAL, steps) && steps[i].Rebuild?
    ensures After(limit, INITIAL, steps, i + 1).list != [] ==> !After(limit, INITIAL, steps, i + 1).vanished
  {
    RunStep(limit, INITIAL, steps, i + 1);
  }

  lemma RebuildFindsNothing(limit: nat, steps: seq<Step>, j: nat)
    requires j < |steps| && Run(limit, INITIAL, steps) && steps[j].Rebuild?
    requires limit > 0 && LockTimesOut !in steps
    ensures After(limit, INITIAL, steps, j).vanished
  {
    LockAlways(limit, steps, j);
    RunStep(limit, INITIAL, steps, j + 1);
  }

  /** Two readers that both missed, the first of them in the section. */
  lemma TwoMissed(limit: nat, steps: seq<Step>)
    requires |steps| >= 5 && steps[..5] == [Arrive(1), Arrive(2), Exists(1), Exists(2), Lock(1)]
    ensures forall k :: 0 <= k < 5 ==> Enabled(limit, After(limit, INITIAL, steps, k), steps[k])
    ensures var s := After(limit, INITIAL, steps, 5);
      ReaderAt(s, 1, Locked) && ReaderAt(s, 2, Missed) && s.lock == Some(1)
  {
    assert forall k :: 0 <= k < 5 ==> steps[k] == steps[..5][k];
    var s2 := INITIAL.(readers := INITIAL.readers[1 := Start][2 := Start]);
    assert After(limit, INITIAL, steps, 1) == INITIAL.(readers := INITIAL.readers[1 := Start]);
    assert After(limit, INITIAL, steps, 2) == s2;
    assert After(limit, INITIAL, steps, 3) == s2.(readers := s2.readers[1 := Missed]);
    assert After(limit, INITIAL, steps, 4) == s2.(readers := s2.readers[1 := Missed][2 := Missed]);
  }

  /** With a lock timeout both readers can be in the section: the bound needs the lock to hold. */
  lemma TimeoutLetsTwoIn()
    ensures var steps := [Arrive(1), Arrive(2), Exists(1), Exists(2), Lock(1), LockTimesOut, Lock(2)];
      Run(1, INITIAL, steps) &&
      var s := After(1, INITIAL, steps, 7);
      1 in s.readers && 2 in s.readers && InSection(s.readers[1]) && InSection(s.readers[2])
  {
    var steps := [Arrive(1), Arrive(2), Exists(1), Exists(2), Lock(1), LockTimesOut, Lock(2)];
    assert steps[..5] == [Arrive(1), Arrive(2), Exists(1), Exists(2), Lock(1)];
    TwoMissed(1, steps);
    var s5 := After(1, INITIAL, steps, 5);
    assert After(1, INITIAL, steps, 6) == s5.(lock := None);
    assert After(1, INITIAL, steps, 7) == s5.(lock := Some(2), readers := s5.readers[2 := Locked]);
  }
}

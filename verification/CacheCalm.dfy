/**
  When the cached list equals the newest rows of the database.
  Interleavings are harmless as long as no rebuild and no expiry falls into a write and rows are
  written one after the other. Each of these conditions is needed: a run that breaks only one of
  them fails the exact condition of the step that writes the list (module CacheExact).
 */
module CacheCalm {
  import opened Outcomes
  import opened Feed
  import opened CacheProtocol
  import opened CacheSafety
  import opened CacheExact

  predicate Active(w: Writer) {
    w.Inserted? || w.Hot? || w.Pushed?
  }

  predicate WriterStep(step: Step) {
    step.Insert? || step.Check? || step.LPush? || step.LTrim?
  }

  ghost predicate Quiet(s: State) {
    forall r :: r in s.writers ==> !Active(s.writers[r])
  }

  ghost predicate NobodyHolds(s: State) {
    forall id :: id in s.readers ==> !s.readers[id].Holding?
  }

  /** A step that does not fall into somebody else's read-modify-write. */
  ghost predicate Calm(s: State, step: Step) {
    match step
    case Insert(row) => Quiet(s) && NobodyHolds(s) && NewerThanAll(row, Db(s))
    case Snapshot(id, rows) => Quiet(s)
    case KeyExpires => forall r :: r in s.writers ==> !s.writers[r].Hot?
    case _ => true
  }

  ghost predicate CalmRun(limit: nat, s: State, steps: seq<Step>) {
    && Run(limit, s, steps)
    && forall k {:trigger Calm(After(limit, s, steps, k), steps[k])} :: 0 <= k < |steps| ==>
         Calm(After(limit, s, steps, k), steps[k])
  }

  /** The list while a row is being written. */
  ghost predicate Writing(s: State, limit: nat, row: Row)
    requires row in s.writers
  {
    var older := Db(s) - {row};
    && NewerThanAll(row, older)
    && (forall r :: r in s.writers && r != row ==> !Active(s.writers[r]))
    && match s.writers[row]
       case Inserted => s.list == [] || Newest(older, limit, s.list)
       case Hot => s.list != [] && Newest(older, limit, s.list)
       case Pushed => s.list == [] || (s.list[0] == row && Newest(older, limit, s.list[1..]))
       case _ => true
  }

  ghost predicate CalmInv(s: State, limit: nat) {
    && (Quiet(s) ==> s.list == [] || Newest(Db(s), limit, s.list))
    && (forall row :: row in s.writers && Active(s.writers[row]) ==> Writing(s, limit, row))
    && (!NobodyHolds(s) ==> Quiet(s))
    && (forall id :: id in s.readers && s.readers[id].Holding? ==> Newest(Db(s), limit, s.readers[id].snapshot))
  }

  lemma NewestGrows(older: set<Row>, limit: nat, rows: seq<Row>, row: Row)
    requires limit > 0 && Newest(older, limit, rows) && NewerThanAll(row, older)
    ensures Newest(older + {row}, limit, Take([row] + rows, limit))
  {
    var grown := Take([row] + rows, limit);
    assert forall x :: x in grown ==> x == row || x in rows;
    if |rows| == limit {
      assert grown == [row] + rows[..limit - 1];
      assert rows == rows[..limit - 1] + [rows[limit - 1]];
    } else {
      assert grown == [row] + rows;
    }
  }

  lemma InsertStep(limit: nat, s: State, row: Row)
    requires CalmInv(s, limit) && row !in s.writers && Calm(s, Insert(row))
    ensures CalmInv(Apply(limit, s, Insert(row)), limit)
  {
    var t := Apply(limit, s, Insert(row));
    assert Db(t) - {row} == Db(s);
    assert t.writers[row] == Inserted;
  }

  lemma CheckStep(limit: nat, s: State, row: Row)
    requires CalmInv(s, limit) && WriterAt(s, row, Inserted)
    ensures CalmInv(Apply(limit, s, Check(row)), limit)
  {
    var t := Apply(limit, s, Check(row));
    assert Writing(s, limit, row);
    assert Db(t) == Db(s);
  }

  lemma LPushStep(limit: nat, s: State, row: Row)
    requires CalmInv(s, limit) && WriterAt(s, row, Hot)
    ensures CalmInv(Apply(limit, s, LPush(row)), limit)
  {
    var t := Apply(limit, s, LPush(row));
    assert Writing(s, limit, row);
    assert Db(t) == Db(s);
    assert t.list[1..] == s.list;
  }

  lemma TrimmedList(limit: nat, s: State, row: Row)
    requires row in s.writers && Writing(s, limit, row) && s.writers[row] == Pushed && limit > 0 && s.list != []
    ensures Newest(Db(s), limit, Take(s.list, limit))
  {
    var older := Db(s) - {row};
    NewestGrows(older, limit, s.list[1..], row);
    assert [row] + s.list[1..] == s.list;
    assert older + {row} == Db(s);
  }

  lemma LTrimStep(limit: nat, s: State, row: Row)
    requires CalmInv(s, limit) && WriterAt(s, row, Pushed) && limit > 0
    ensures CalmInv(Apply(limit, s, LTrim(row)), limit)
  {
    var t := Apply(limit, s, LTrim(row));
    QuietAfterTrim(limit, s, row);
    assert Db(t) == Db(s);
    if s.list != [] {
      assert Writing(s, limit, row);
      TrimmedList(limit, s, row);
    }
    QuietInv(t, limit);
  }

  lemma QuietAfterTrim(limit: nat, s: State, row: Row)
    requires CalmInv(s, limit) && WriterAt(s, row, Pushed)
    ensures Quiet(Apply(limit, s, LTrim(row))) && NobodyHolds(Apply(limit, s, LTrim(row)))
  {
    assert Writing(s, limit, row);
    assert Active(s.writers[row]);
  }

  lemma QuietInv(t: State, limit: nat)
    requires Quiet(t) && NobodyHolds(t) && (t.list == [] || Newest(Db(t), limit, t.list))
    ensures CalmInv(t, limit)
  {
  }

  lemma SnapshotStep(limit: nat, s: State, step: Step)
    requires CalmInv(s, limit) && Enabled(limit, s, step) && Calm(s, step) && step.Snapshot?
    ensures CalmInv(Apply(limit, s, step), limit)
  {
  }

  /** Rebuilding happens while nobody is writing. */
  lemma RebuildStep(limit: nat, s: State, step: Step)
    requires CalmInv(s, limit) && Enabled(limit, s, step) && step.Rebuild?
    ensures CalmInv(Apply(limit, s, step), limit)
  {
    assert !NobodyHolds(s);
  }

  lemma ExpiryStep(limit: nat, s: State)
    requires CalmInv(s, limit) && Calm(s, KeyExpires)
    ensures CalmInv(Apply(limit, s, KeyExpires), limit)
  {
    var t := Apply(limit, s, KeyExpires);
    forall row | row in t.writers && Active(t.writers[row]) ensures Writing(t, limit, row) {
      assert Writing(s, limit, row);
    }
  }

  /** Steps that touch neither the list nor the writers nor a snapshot. */
  lemma IdleStep(limit: nat, s: State, t: State)
    requires CalmInv(s, limit) && t.list == s.list && t.writers == s.writers
    requires forall id :: id in t.readers && t.readers[id].Holding? ==>
      id in s.readers && s.readers[id] == t.readers[id]
    ensures CalmInv(t, limit)
  {
    forall row | row in t.writers && Active(t.writers[row]) ensures Writing(t, limit, row) {
      assert Writing(s, limit, row);
    }
  }

  /** Steps of readers, of the lock and of the clock do not touch the writers. */
  lemma ReaderStep(limit: nat, s: State, step: Step)
    requires CalmInv(s, limit) && Enabled(limit, s, step) && Calm(s, step)
    requires !WriterStep(step)
    ensures CalmInv(Apply(limit, s, step), limit)
  {
    match step
    case Snapshot(_, _) => SnapshotStep(limit, s, step);
    case Rebuild(_) => RebuildStep(limit, s, step);
    case KeyExpires => ExpiryStep(limit, s);
    case _ => IdleStep(limit, s, Apply(limit, s, step));
  }

  lemma CalmStep(limit: nat, s: State, step: Step)
    requires CalmInv(s, limit) && Enabled(limit, s, step) && Calm(s, step) && limit > 0
    ensures CalmInv(Apply(limit, s, step), limit)
  {
    match step
    case Insert(row) => InsertStep(limit, s, row);
    case Check(row) => CheckStep(limit, s, row);
    case LPush(row) => LPushStep(limit, s, row);
    case LTrim(row) => LTrimStep(limit, s, row);
    case _ => ReaderStep(limit, s, step);
  }

  lemma {:induction false} CalmAlways(limit: nat, s: State, steps: seq<Step>, k: nat)
    requires k <= |steps| && CalmInv(s, limit) && CalmRun(limit, s, steps) && limit > 0
    ensures CalmInv(After(limit, s, steps, k), limit)
  {
    if k > 0 {
      CalmAlways(limit, s, steps, k - 1);
      RunStep(limit, s, steps, k);
      assert Calm(After(limit, s, steps, k - 1), steps[k - 1]);
      CalmStep(limit, After(limit, s, steps, k - 1), steps[k - 1]);
    }
  }

  /** In a calm run, whenever nobody is writing, the list is absent or exactly the newest rows. */
  lemma CalmCoherent(limit: nat, steps: seq<Step>, k: nat)
    requires k <= |steps| && CalmRun(limit, INITIAL, steps) && limit > 0
    requires Quiet(After(limit, INITIAL, steps, k))
    ensures var s := After(limit, INITIAL, steps, k);
      s.list == [] || Newest(Db(s), limit, s.list)
  {
    CalmAlways(limit, INITIAL, steps, k);
  }

  // ---------- reads after writes ----------

  ghost predicate Cold(s: State) {
    && s.list == [] && NobodyHolds(s)
    && forall r :: r in s.writers ==> s.writers[r].Inserted? || s.writers[r].Skipped?
  }

  lemma {:induction false} ColdWrites(limit: nat, s: State, steps: seq<Step>, k: nat)
    requires k <= |steps| && Cold(s) && Run(limit, s, steps)
    requires forall step :: step in steps ==> WriterStep(step)
    ensures Cold(After(limit, s, steps, k)) && After(limit, s, steps, k).readers == s.readers
  {
    if k > 0 {
      ColdWrites(limit, s, steps, k - 1);
      RunStep(limit, s, steps, k);
      assert steps[k - 1] in steps;
    }
  }

  /** The reader has its answer. */
  predicate Answered(r: Reader) {
    r.Releasing? || r.Finished?
  }

  /** Every answer given since `start` is empty or the newest rows of the database. */
  ghost predicate ExactAnswers(start: State, s: State, limit: nat) {
    forall id :: id in s.readers && Answered(s.readers[id]) ==>
      || (id in start.readers && Answered(start.readers[id]))
      || AnswerOf(s.readers[id]) == [] || Newest(Db(s), limit, AnswerOf(s.readers[id]))
  }

  /**
    If all writes happen first, on a cold key and in any interleaving and order, then whatever
    readers, expiries and lock timeouts do afterwards, the list is absent or exactly the newest
    rows, and so is what the readers return.
   */
  lemma ReadsAfterWrites(limit: nat, s: State, writes: seq<Step>, later: seq<Step>, k: nat)
    requires limit > 0 && Cold(s) && Run(limit, s, writes)
    requires forall step :: step in writes ==> WriterStep(step)
    requires Quiet(After(limit, s, writes, |writes|))
    requires Run(limit, After(limit, s, writes, |writes|), later) && k <= |later|
    requires forall step :: step in later ==> !WriterStep(step)
    ensures var t := After(limit, After(limit, s, writes, |writes|), later, k);
      && (t.list == [] || Newest(Db(t), limit, t.list))
      && ExactAnswers(s, t, limit)
  {
    var start := After(limit, s, writes, |writes|);
    ColdWrites(limit, s, writes, |writes|);
    ReadersOnly(limit, start, later, k);
    assert start.readers == s.readers;
  }

  lemma {:induction false} ReadersOnly(limit: nat, s: State, later: seq<Step>, k: nat)
    requires limit > 0 && Quiet(s) && CalmInv(s, limit) && Run(limit, s, later) && k <= |later|
    requires forall step :: step in later ==> !WriterStep(step)
    ensures Quiet(After(limit, s, later, k)) && CalmInv(After(limit, s, later, k), limit)
    ensures ExactAnswers(s, After(limit, s, later, k), limit)
  {
    if k > 0 {
      ReadersOnly(limit, s, later, k - 1);
      RunStep(limit, s, later, k);
      assert later[k - 1] in later;
      ReaderStep(limit, After(limit, s, later, k - 1), later[k - 1]);
      AnswersStep(limit, s, After(limit, s, later, k - 1), later[k - 1]);
    }
  }

  lemma AnswersStep(limit: nat, start: State, s: State, step: Step)
    requires ExactAnswers(start, s, limit) && Quiet(s) && CalmInv(s, limit)
    requires Enabled(limit, s, step) && !WriterStep(step)
    ensures ExactAnswers(start, Apply(limit, s, step), limit)
  {
    assert Db(Apply(limit, s, step)) == Db(s);
  }

  /** Every reader that saw a list will find one. */
  ghost predicate HitsHold(s: State) {
    forall id :: id in s.readers && (s.readers[id].Hitting? || s.readers[id].HitLocked?) ==> s.list != []
  }

  /** Every answer given since `start` is exactly the newest rows of the database. */
  ghost predicate NewestAnswers(start: State, s: State, limit: nat) {
    forall id :: id in s.readers && Answered(s.readers[id]) ==>
      || (id in start.readers && Answered(start.readers[id]))
      || Newest(Db(s), limit, AnswerOf(s.readers[id]))
  }

  /**
    With all writes done, some row stored, no reader in a hit of a list that has gone, and no
    expiry, reading is deterministic: whatever the interleaving, the faults and the lock timeouts,
    every further answer is exactly the newest rows.
   */
  lemma ReadsExact(limit: nat, s: State, writes: seq<Step>, later: seq<Step>, k: nat)
    requires limit > 0 && Cold(s) && Run(limit, s, writes)
    requires forall step :: step in writes ==> WriterStep(step)
    requires Quiet(After(limit, s, writes, |writes|)) && Db(After(limit, s, writes, |writes|)) != {}
    requires Run(limit, After(limit, s, writes, |writes|), later) && k <= |later|
    requires forall step :: step in later ==> !WriterStep(step) && !step.KeyExpires?
    requires forall id :: id in s.readers ==> !s.readers[id].Hitting? && !s.readers[id].HitLocked?
    ensures NewestAnswers(s, After(limit, After(limit, s, writes, |writes|), later, k), limit)
  {
    var start := After(limit, s, writes, |writes|);
    ColdWrites(limit, s, writes, |writes|);
    ReadersExact(limit, start, later, k);
    assert start.readers == s.readers;
  }

  lemma {:induction false} ReadersExact(limit: nat, s: State, later: seq<Step>, k: nat)
    requires limit > 0 && Quiet(s) && CalmInv(s, limit) && Db(s) != {} && Run(limit, s, later) && k <= |later|
    requires forall step :: step in later ==> !WriterStep(step) && !step.KeyExpires?
    requires HitsHold(s)
    ensures var t := After(limit, s, later, k); Db(t) == Db(s) && HitsHold(t) && NewestAnswers(s, t, limit)
  {
    if k > 0 {
      ReadersExact(limit, s, later, k - 1);
      ReadersOnly(limit, s, later, k - 1);
      RunStep(limit, s, later, k);
      assert later[k - 1] in later;
      ExactStep(limit, s, After(limit, s, later, k - 1), later[k - 1]);
    }
  }

  lemma ExactStep(limit: nat, start: State, s: State, step: Step)
    requires limit > 0 && Quiet(s) && CalmInv(s, limit) && Db(s) != {} && HitsHold(s) && NewestAnswers(start, s, limit)
    requires Enabled(limit, s, step) && !WriterStep(step) && !step.KeyExpires?
    ensures var t := Apply(limit, s, step); Db(t) == Db(s) && HitsHold(t) && NewestAnswers(start, t, limit)
  {
    var t := Apply(limit, s, step);
    ListStays(limit, s, step);
    assert Db(t) == Db(s);
    forall id | id in t.readers && Answered(t.readers[id])
      ensures (id in start.readers && Answered(start.readers[id])) || Newest(Db(s), limit, AnswerOf(t.readers[id])) {
      AnswerIsNewest(limit, s, step, id);
    }
  }

  lemma ListStays(limit: nat, s: State, step: Step)
    requires limit > 0 && CalmInv(s, limit) && Db(s) != {} && HitsHold(s)
    requires Enabled(limit, s, step) && !WriterStep(step) && !step.KeyExpires?
    ensures HitsHold(Apply(limit, s, step))
  {
    if step.Rebuild? {
      NewestSome(Db(s), limit, s.readers[step.id].snapshot);
    }
  }

  /** An answer was there before or is the newest rows. */
  lemma AnswerIsNewest(limit: nat, s: State, step: Step, id: int)
    requires Quiet(s) && CalmInv(s, limit) && HitsHold(s) && Enabled(limit, s, step) && !WriterStep(step)
    requires var t := Apply(limit, s, step); id in t.readers && Answered(t.readers[id])
    ensures var t := Apply(limit, s, step);
      || (id in s.readers && Answered(s.readers[id]) && AnswerOf(t.readers[id]) == AnswerOf(s.readers[id]))
      || Newest(Db(s), limit, AnswerOf(t.readers[id]))
  {
  }

  lemma NewestSome(db: set<Row>, limit: nat, rows: seq<Row>)
    requires Newest(db, limit, rows) && db != {} && limit > 0
    ensures rows != []
  {
    var r :| r in db;
    assert r in rows || |rows| == limit;
  }

  // ---------- runs from the beginning ----------

  /** All steps but the g-th are calm. */
  ghost predicate CalmBut(limit: nat, steps: seq<Step>, g: nat) {
    forall k {:trigger Calm(After(limit, INITIAL, steps, k), steps[k])} :: 0 <= k < |steps| ==>
      (Calm(After(limit, INITIAL, steps, k), steps[k]) <==> k != g)
  }

  /** From the initial state the steps lead to t, and all of them but the g-th are calm. */
  ghost predicate Path(limit: nat, steps: seq<Step>, g: nat, t: State) {
    Leads(limit, INITIAL, steps, t) && CalmBut(limit, steps, g)
  }

  lemma Extend(limit: nat, steps: seq<Step>, g: nat, s: State, step: Step)
    requires Path(limit, steps, g, s) && Enabled(limit, s, step) && (Calm(s, step) <==> |steps| != g)
    ensures Path(limit, steps + [step], g, Apply(limit, s, step))
  {
    LeadsOn(limit, INITIAL, steps, s, step);
    var more := steps + [step];
    forall k | 0 <= k <= |steps| ensures After(limit, INITIAL, more, k) == After(limit, INITIAL, steps, k) {
      AfterFront(limit, INITIAL, steps, step, k);
    }
    assert forall k :: 0 <= k < |steps| ==> more[k] == steps[k];
  }

  /** The steps make a run, all are calm but the g-th, and they end with nobody writing and a wrong list. */
  ghost predicate Spoils(limit: nat, steps: seq<Step>, g: nat) {
    && Run(limit, INITIAL, steps) && CalmBut(limit, steps, g) && g < |steps|
    && Wrong(limit, After(limit, INITIAL, steps, |steps|))
  }

  ghost predicate Wrong(limit: nat, t: State) {
    Quiet(t) && t.list != [] && !Newest(Db(t), limit, t.list)
  }

  /** A reader finds no list, takes the lock and finds none again. */
  lemma MissPath(limit: nat, steps: seq<Step>, g: nat, s: State, id: int)
    requires Path(limit, steps, g, s) && id !in s.readers && s.list == [] && s.lock.None?
    requires !(|steps| <= g < |steps| + 4)
    ensures Path(limit, steps + [Arrive(id), Exists(id), Lock(id), Recheck(id)], g,
                 s.(readers := s.readers[id := Checked], lock := Some(id)))
  {
    Extend(limit, steps, g, s, Arrive(id));
    var s1, p1 := Apply(limit, s, Arrive(id)), steps + [Arrive(id)];
    Extend(limit, p1, g, s1, Exists(id));
    var s2, p2 := Apply(limit, s1, Exists(id)), p1 + [Exists(id)];
    Extend(limit, p2, g, s2, Lock(id));
    var s3, p3 := Apply(limit, s2, Lock(id)), p2 + [Lock(id)];
    Extend(limit, p3, g, s3, Recheck(id));
    assert Apply(limit, s3, Recheck(id)).readers == s.readers[id := Checked];
    assert p3 + [Recheck(id)] == steps + [Arrive(id), Exists(id), Lock(id), Recheck(id)];
  }

  /** It reads the rows of the database; this is calm if nobody is writing. */
  lemma SnapshotPath(limit: nat, steps: seq<Step>, g: nat, s: State, id: int, rows: seq<Row>)
    requires Path(limit, steps, g, s) && ReaderAt(s, id, Checked) && Newest(Db(s), limit, rows)
    requires Quiet(s) <==> |steps| != g
    ensures Path(limit, steps + [Snapshot(id, rows)], g, s.(readers := s.readers[id := Holding(rows)]))
  {
    Extend(limit, steps, g, s, Snapshot(id, rows));
  }

  lemma RebuildPath(limit: nat, steps: seq<Step>, g: nat, s: State, id: int, rows: seq<Row>)
    requires Path(limit, steps, g, s) && ReaderAt(s, id, Holding(rows)) && |steps| != g
    ensures Path(limit, steps + [Rebuild(id)], g,
                 s.(list := rows, readers := s.readers[id := Releasing(rows)], pushed := 0, vanished := rows == []))
  {
    Extend(limit, steps, g, s, Rebuild(id));
  }

  lemma InsertPath(limit: nat, steps: seq<Step>, g: nat, s: State, row: Row)
    requires Path(limit, steps, g, s) && row !in s.writers
    requires Quiet(s) && NobodyHolds(s) && NewerThanAll(row, Db(s)) <==> |steps| != g
    ensures Path(limit, steps + [Insert(row)], g, s.(writers := s.writers[row := Inserted]))
  {
    Extend(limit, steps, g, s, Insert(row));
  }

  lemma CheckPath(limit: nat, steps: seq<Step>, g: nat, s: State, row: Row)
    requires Path(limit, steps, g, s) && WriterAt(s, row, Inserted) && |steps| != g
    ensures Path(limit, steps + [Check(row)], g, s.(writers := s.writers[row := if s.list == [] then Skipped else Hot]))
  {
    Extend(limit, steps, g, s, Check(row));
  }

  lemma PushPath(limit: nat, steps: seq<Step>, g: nat, s: State, row: Row)
    requires Path(limit, steps, g, s) && WriterAt(s, row, Hot) && |steps| != g
    ensures Path(limit, steps + [LPush(row)], g,
                 s.(writers := s.writers[row := Pushed], list := [row] + s.list, pushed := s.pushed + 1))
  {
    Extend(limit, steps, g, s, LPush(row));
  }

  lemma TrimPath(limit: nat, steps: seq<Step>, g: nat, s: State, row: Row)
    requires Path(limit, steps, g, s) && WriterAt(s, row, Pushed) && |s.list| <= limit && s.pushed <= limit
    requires |steps| != g
    ensures Path(limit, steps + [LTrim(row)], g, s.(writers := s.writers[row := Trimmed]))
  {
    Extend(limit, steps, g, s, LTrim(row));
  }

  lemma ExpiryPath(limit: nat, steps: seq<Step>, g: nat, s: State)
    requires Path(limit, steps, g, s)
    requires (forall r :: r in s.writers ==> !s.writers[r].Hot?) <==> |steps| != g
    ensures Path(limit, steps + [KeyExpires], g, s.(list := [], pushed := 0, vanished := true))
  {
    Extend(limit, steps, g, s, KeyExpires);
  }

  const A := Row(1, 1, 1)
  const B := Row(1, 2, 2)
  const C := Row(1, 3, 3)

  const READER := 7

  /** One row is stored and a reader holds its snapshot. */
  function HeldSteps(row: Row): seq<Step> {
    [Insert(row), Check(row)] + [Arrive(READER), Exists(READER), Lock(READER), Recheck(READER)]
    + [Snapshot(READER, [row])]
  }

  function Held(row: Row): State {
    State([], Some(READER), map[READER := Holding([row])], map[row := Skipped], 0, true)
  }

  lemma HeldPath(limit: nat, row: Row, g: nat)
    requires limit > 0 && g >= 7
    ensures Path(limit, HeldSteps(row), g, Held(row))
  {
    var s1 := INITIAL.(writers := INITIAL.writers[row := Inserted]);
    var s2 := s1.(writers := s1.writers[row := Skipped]);
    var s3 := s2.(readers := s2.readers[READER := Checked], lock := Some(READER));
    var p := [Insert(row), Check(row)];
    InsertPath(limit, [], g, INITIAL, row);
    CheckPath(limit, [] + [Insert(row)], g, s1, row);
    assert [] + [Insert(row)] + [Check(row)] == p;
    MissPath(limit, p, g, s2, READER);
    assert Db(s3) == {row};
    SnapshotPath(limit, p + [Arrive(READER), Exists(READER), Lock(READER), Recheck(READER)], g, s3, READER, [row]);
    assert s3.(readers := s3.readers[READER := Holding([row])]) == Held(row);
  }

  /** One row is stored and cached. */
  function WarmSteps(row: Row): seq<Step> {
    HeldSteps(row) + [Rebuild(READER), Release(READER)]
  }

  function Warm(row: Row): State {
    State([row], None, map[READER := Finished([row])], map[row := Skipped], 0, false)
  }

  lemma WarmPath(limit: nat, row: Row, g: nat)
    requires limit > 0 && g >= 9
    ensures Path(limit, WarmSteps(row), g, Warm(row))
  {
    HeldPath(limit, row, g);
    RebuildPath(limit, HeldSteps(row), g, Held(row), READER, [row]);
    var s, p := Apply(limit, Held(row), Rebuild(READER)), HeldSteps(row) + [Rebuild(READER)];
    Extend(limit, p, g, s, Release(READER));
    assert Apply(limit, s, Release(READER)) == Warm(row);
    assert p + [Release(READER)] == WarmSteps(row);
  }

  /** A row is written to a list that has room. */
  lemma WritePath(limit: nat, steps: seq<Step>, g: nat, s: State, row: Row)
    requires Path(limit, steps, g, s) && WriterAt(s, row, Inserted) && s.list != []
    requires |s.list| < limit && s.pushed < limit && !(|steps| <= g < |steps| + 3)
    ensures Path(limit, steps + [Check(row), LPush(row), LTrim(row)], g,
                 s.(writers := s.writers[row := Trimmed], list := [row] + s.list, pushed := s.pushed + 1))
  {
    var s1, p1 := s.(writers := s.writers[row := Hot]), steps + [Check(row)];
    var p2 := p1 + [LPush(row)];
    var s2 := s1.(writers := s1.writers[row := Pushed], list := [row] + s.list, pushed := s.pushed + 1);
    CheckPath(limit, steps, g, s, row);
    PushPath(limit, p1, g, s1, row);
    TrimPath(limit, p2, g, s2, row);
    assert s2.writers[row := Trimmed] == s.writers[row := Trimmed];
    assert p2 + [LTrim(row)] == steps + [Check(row), LPush(row), LTrim(row)];
  }

  // ---------- each condition is needed ----------

  /** A push that does not meet its exact condition ends wrong. */
  lemma PushSpoils(limit: nat, s: State, row: Row, t: State)
    requires limit > 0 && row in Db(s) && Db(t) == Db(s) && Quiet(t)
    requires t.list == [row] + s.list && |t.list| <= limit
    requires !(NewerThanAll(row, Db(s) - {row}) && Newest(Db(s) - {row}, limit - 1, Take(s.list, limit - 1)))
    ensures Wrong(limit, t)
  {
    PushExact(Db(s), limit, row, s.list);
    assert Take([row] + s.list, limit) == t.list;
  }

  /** A rebuild between a row's insert and its LPUSH caches the row twice. */
  lemma RebuildDuringWrite()
    ensures Spoils(2, [Arrive(READER), Exists(READER), Lock(READER), Recheck(READER), Insert(A), Snapshot(READER, [A]),
                       Rebuild(READER), Check(A), LPush(A), LTrim(A)], 5)
  {
    var p1 := [] + [Arrive(READER), Exists(READER), Lock(READER), Recheck(READER)];
    var s1 := INITIAL.(readers := INITIAL.readers[READER := Checked], lock := Some(READER));
    MissPath(2, [], 5, INITIAL, READER);
    InsertPath(2, p1, 5, s1, A);
    var s2, p2 := s1.(writers := s1.writers[A := Inserted]), p1 + [Insert(A)];
    assert Db(s2) == {A} && Active(s2.writers[A]);
    SnapshotPath(2, p2, 5, s2, READER, [A]);
    RebuiltDuringWrite(p2, s2);
    assert p2 + [Snapshot(READER, [A])] + [Rebuild(READER)] + [Check(A), LPush(A), LTrim(A)]
        == [Arrive(READER), Exists(READER), Lock(READER), Recheck(READER), Insert(A), Snapshot(READER, [A]),
            Rebuild(READER), Check(A), LPush(A), LTrim(A)];
  }

  lemma RebuiltDuringWrite(p: seq<Step>, s: State)
    requires |p| == 5 && s.writers == map[A := Inserted] && s.pushed == 0 && READER in s.readers
    requires Path(2, p + [Snapshot(READER, [A])], 5, s.(readers := s.readers[READER := Holding([A])]))
    ensures Spoils(2, p + [Snapshot(READER, [A])] + [Rebuild(READER)] + [Check(A), LPush(A), LTrim(A)], 5)
  {
    var p3, s3 := p + [Snapshot(READER, [A])], s.(readers := s.readers[READER := Holding([A])]);
    RebuildPath(2, p3, 5, s3, READER, [A]);
    var s4 := s3.(list := [A], readers := s3.readers[READER := Releasing([A])], pushed := 0, vanished := false);
    WritePath(2, p3 + [Rebuild(READER)], 5, s4, A);
    var t := s4.(writers := s4.writers[A := Trimmed], list := [A] + s4.list, pushed := 1);
    assert Take(s4.list, 1)[0] == A;
    PushSpoils(2, s4, A, t);
    assert Wrong(2, t) && Path(2, p3 + [Rebuild(READER)] + [Check(A), LPush(A), LTrim(A)], 5, t);
  }

  /** A row inserted while a reader holds an older snapshot, and pushed to the still absent key, is missing. */
  lemma InsertDuringRebuild()
    ensures Spoils(2, HeldSteps(A) + [Insert(B)] + [Check(B)] + [Rebuild(READER)], 7)
  {
    var s0, p0 := Held(A), HeldSteps(A);
    HeldPath(2, A, 7);
    assert s0.readers[READER].Holding?;
    InsertPath(2, p0, 7, s0, B);
    var s1, p1 := s0.(writers := s0.writers[B := Inserted]), p0 + [Insert(B)];
    CheckPath(2, p1, 7, s1, B);
    var s2, p2 := s1.(writers := s1.writers[B := Skipped]), p1 + [Check(B)];
    RebuildPath(2, p2, 7, s2, READER, [A]);
    var t := s2.(list := [A], readers := s2.readers[READER := Releasing([A])], pushed := 0, vanished := false);
    RebuildExact({A}, Db(t), 2, [A]);
    assert B in Db(t) && B !in {A};
    assert Wrong(2, t) && Path(2, p2 + [Rebuild(READER)], 7, t);
  }

  /** A key that expires between a writer's EXISTS and its LPUSH comes back with that row alone. */
  lemma ExpiryDuringPush()
    ensures Spoils(2, WarmSteps(A) + [Insert(B)] + [Check(B)] + [KeyExpires] + [LPush(B)] + [LTrim(B)], 11)
  {
    var s0, p0 := Warm(A), WarmSteps(A);
    WarmPath(2, A, 11);
    InsertPath(2, p0, 11, s0, B);
    var s1, p1 := s0.(writers := s0.writers[B := Inserted]), p0 + [Insert(B)];
    CheckPath(2, p1, 11, s1, B);
    var s2, p2 := s1.(writers := s1.writers[B := Hot]), p1 + [Check(B)];
    assert s2.writers[B].Hot?;
    ExpiryPath(2, p2, 11, s2);
    var s3, p3 := s2.(list := [], pushed := 0, vanished := true), p2 + [KeyExpires];
    PushPath(2, p3, 11, s3, B);
    var s4, p4 := s3.(writers := s3.writers[B := Pushed], list := [B] + s3.list, pushed := 1), p3 + [LPush(B)];
    TrimPath(2, p4, 11, s4, B);
    var t := s4.(writers := s4.writers[B := Trimmed]);
    assert A in Db(s3) - {B} && A !in Take(s3.list, 1);
    PushSpoils(2, s3, B, t);
    assert Wrong(2, t) && Path(2, p4 + [LTrim(B)], 11, t);
  }

  /** Two writers at once may push in the wrong order. */
  lemma TwoWritersAtOnce()
    ensures Spoils(3, WarmSteps(A) + [Insert(B)] + [Insert(C)] + [Check(B)] + [Check(C), LPush(C), LTrim(C)]
                      + [LPush(B)] + [LTrim(B)], 10)
  {
    var s0, p0 := Warm(A), WarmSteps(A);
    WarmPath(3, A, 10);
    InsertPath(3, p0, 10, s0, B);
    var s1, p1 := s0.(writers := s0.writers[B := Inserted]), p0 + [Insert(B)];
    assert Active(s1.writers[B]);
    InsertPath(3, p1, 10, s1, C);
    var s2, p2 := s1.(writers := s1.writers[C := Inserted]), p1 + [Insert(C)];
    CheckPath(3, p2, 10, s2, B);
    var s3, p3 := s2.(writers := s2.writers[B := Hot]), p2 + [Check(B)];
    WritePath(3, p3, 10, s3, C);
    var p4 := p3 + [Check(C), LPush(C), LTrim(C)];
    var s4 := s3.(writers := s3.writers[C := Trimmed], list := [C] + s3.list, pushed := 1);
    PushPath(3, p4, 10, s4, B);
    var s5, p5 := s4.(writers := s4.writers[B := Pushed], list := [B] + s4.list, pushed := 2), p4 + [LPush(B)];
    TrimPath(3, p5, 10, s5, B);
    var t := s5.(writers := s5.writers[B := Trimmed]);
    assert C in Db(s4) - {B};
    PushSpoils(3, s4, B, t);
    assert Wrong(3, t) && Path(3, p5 + [LTrim(B)], 10, t);
  }

  /** A row older than what is stored is pushed to the front all the same. */
  lemma OlderRowPushed()
    ensures Spoils(2, WarmSteps(B) + [Insert(A)] + [Check(A), LPush(A), LTrim(A)], 9)
  {
    var s0, p0 := Warm(B), WarmSteps(B);
    WarmPath(2, B, 9);
    assert B in Db(s0) && A.createdAt < B.createdAt;
    InsertPath(2, p0, 9, s0, A);
    var s1, p1 := s0.(writers := s0.writers[A := Inserted]), p0 + [Insert(A)];
    WritePath(2, p1, 9, s1, A);
    var t := s1.(writers := s1.writers[A := Trimmed], list := [A] + s1.list, pushed := 1);
    assert B in Db(s1) - {A};
    PushSpoils(2, s1, A, t);
    assert Wrong(2, t) && Path(2, p1 + [Check(A), LPush(A), LTrim(A)], 9, t);
  }

  /**
    In a calm run, with nobody writing, a key that expires between a reader's EXISTS and its
    LRANGE makes that reader return nothing although a row is stored.
   */
  lemma EmptyAnswer(id: int)
    requires id != READER
    ensures var steps := WarmSteps(A) + [Arrive(id)] + [Exists(id)] + [KeyExpires] + [Read(id)];
      CalmRun(1, INITIAL, steps) &&
      var t := After(1, INITIAL, steps, |steps|);
      ReaderAt(t, id, Finished([])) && A in Db(t)
  {
    var s0, p0 := Warm(A), WarmSteps(A);
    WarmPath(1, A, 13);
    Extend(1, p0, 13, s0, Arrive(id));
    var s1, p1 := s0.(readers := s0.readers[id := Start]), p0 + [Arrive(id)];
    Extend(1, p1, 13, s1, Exists(id));
    var s2, p2 := s1.(readers := s1.readers[id := Hitting]), p1 + [Exists(id)];
    ExpiryPath(1, p2, 13, s2);
    var s3, p3 := s2.(list := [], pushed := 0, vanished := true), p2 + [KeyExpires];
    Extend(1, p3, 13, s3, Read(id));
    var t, p := s3.(readers := s3.readers[id := Finished([])]), p3 + [Read(id)];
  }
}

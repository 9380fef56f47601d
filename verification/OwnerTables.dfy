/** The models HBaseNewsFeed, HBaseFollowing and HBaseFollower, seen as sets of rows. */
module OwnerTables {
  import opened Outcomes
  import opened Text
  import opened Feed
  import opened RowCodec
  import opened HTable
  import opened HBaseOrm
  import opened OwnerRows

  predicate SameKey(a: Row, b: Row) {
    a.owner == b.owner && a.createdAt == b.createdAt
  }

  /** Writing a row replaces the row with its key, if there is one. */
  ghost function Written(stored: set<Row>, r: Row): set<Row> {
    (set x | x in stored && !SameKey(x, r)) + {r}
  }

  ghost function WrittenAll(stored: set<Row>, batch: seq<Row>): set<Row>
    decreases |batch|
  {
    if batch == [] then stored else WrittenAll(Written(stored, batch[0]), batch[1..])
  }

  ghost function Deleted(stored: set<Row>, owner: int, createdAt: int): set<Row> {
    set x | x in stored && !(x.owner == owner && x.createdAt == createdAt)
  }

  /** The rows after a write and after a delete, one by one. */
  lemma WrittenRows(stored: set<Row>, r: Row, x: Row)
    ensures x in Written(stored, r) <==>
      if x.owner == r.owner && x.createdAt == r.createdAt then x == r else x in stored
    ensures x in Deleted(stored, r.owner, r.createdAt) <==>
      x in stored && !(x.owner == r.owner && x.createdAt == r.createdAt)
  {
  }

  ghost predicate NoneUnderKey(batch: seq<Row>, x: Row) {
    forall i :: 0 <= i < |batch| ==> batch[i].owner != x.owner || batch[i].createdAt != x.createdAt
  }

  ghost predicate LastUnderKey(batch: seq<Row>, x: Row) {
    exists i :: 0 <= i < |batch| && batch[i] == x && NoneUnderKey(batch[i + 1..], x)
  }

  /** After a batch a row is stored if it was the last written under its key, or was stored and not replaced. */
  lemma {:induction false} WrittenAllRows(stored: set<Row>, batch: seq<Row>, x: Row)
    ensures x in WrittenAll(stored, batch) <==> LastUnderKey(batch, x) || (x in stored && NoneUnderKey(batch, x))
    decreases |batch|
  {
    if batch != [] {
      WrittenAllRows(Written(stored, batch[0]), batch[1..], x);
      WrittenRows(stored, batch[0], x);
      FirstOrLater(batch, x);
    }
  }

  lemma FirstOrLater(batch: seq<Row>, x: Row)
    requires batch != []
    ensures NoneUnderKey(batch, x) <==>
      NoneUnderKey(batch[1..], x) && (batch[0].owner != x.owner || batch[0].createdAt != x.createdAt)
    ensures LastUnderKey(batch, x) <==> LastUnderKey(batch[1..], x) || (batch[0] == x && NoneUnderKey(batch[1..], x))
  {
    var rest := batch[1..];
    assert batch == [batch[0]] + rest;
    if LastUnderKey(batch, x) {
      var i :| 0 <= i < |batch| && batch[i] == x && NoneUnderKey(batch[i + 1..], x);
      if i > 0 {
        assert rest[i - 1] == x && rest[i..] == batch[i + 1..];
      }
    }
    if LastUnderKey(rest, x) {
      var i :| 0 <= i < |rest| && rest[i] == x && NoneUnderKey(rest[i + 1..], x);
      assert batch[i + 1] == x && batch[i + 2..] == rest[i + 1..];
    }
  }

  /** The byte range of a filter, once its tuples are serialized. */
  function FilterRange(names: Names, start: Option<Tuple>, stop: Option<Tuple>, prefix: Option<Tuple>, reverse: bool)
    : Result<Range>
    requires ValidNames(names)
  {
    SchemaIsValid(names);
    var rowStart :- TupleKey(OwnerSchema(names), start);
    var rowStop :- TupleKey(OwnerSchema(names), stop);
    var rowPrefix :- TupleKey(OwnerSchema(names), prefix);
    Ok(ScanRange(rowStart, rowStop, rowPrefix, reverse))
  }

  /** filter, said of rows instead of bytes. */
  function FilterRows(names: Names, rows: seq<Row>, start: Option<Tuple>, stop: Option<Tuple>, prefix: Option<Tuple>,
                      limit: Option<nat>, reverse: bool): Result<seq<Row>>
    requires ValidNames(names)
  {
    var range :- FilterRange(names, start, stop, prefix, reverse);
    Ok(ScanRows(rows, range, limit, reverse))
  }

  class OwnerTable {
    const names: Names
    const model: HBaseModel
    ghost var rows: seq<Row>

    ghost predicate Valid()
      reads this, model
    {
      && ValidNames(names)
      && model.schema == OwnerSchema(names)
      && model.Valid()
      && Encodes(names, rows, model.entries)
    }

    ghost function Contents(): set<Row>
      reads this
    {
      Elements(rows)
    }

    constructor (names: Names)
      requires ValidNames(names)
      ensures Valid() && fresh(model) && this.names == names && rows == []
    {
      this.names := names;
      this.rows := [];
      SchemaIsValid(names);
      var m := new HBaseModel(OwnerSchema(names));
      this.model := m;
    }

    /** create: the ids and the timestamp of a row are natural numbers. */
    method Create(r: Row)
      requires Valid() && Natural(r)
      modifies this`rows, model
      ensures Valid()
      ensures Contents() == Written(old(Contents()), r)
    {
      PreparedRow(names, r);
      var _ := model.Save(InstanceFor(names, r));
      PutRowEncodes(names, rows, model.entries, old(model.entries), r);
      EncodesSorted(names, rows, old(model.entries));
      PutRowElements(names, rows, old(model.entries), r);
      rows := PutRow(rows, r);
    }

    method BatchCreate(batch: seq<Row>)
      requires Valid() && forall r :: r in batch ==> Natural(r)
      modifies this`rows, model
      ensures Valid()
      ensures Contents() == WrittenAll(old(Contents()), batch)
    {
      var data := seq(|batch|, i requires 0 <= i < |batch| => InstanceFor(names, batch[i]));
      PreparedBatch(names, batch, data);
      var _ := model.BatchCreate(data);
      EncodesSorted(names, rows, old(model.entries));
      PutRowsEncodes(names, rows, old(model.entries), batch, PrepareAll(OwnerSchema(names), data).value);
      rows := PutRows(rows, batch);
    }

    method Delete(owner: int, createdAt: int)
      requires Valid() && owner >= 0 && createdAt >= 0
      modifies this`rows, model
      ensures Valid()
      ensures Contents() == Deleted(old(Contents()), owner, createdAt)
    {
      var r := Row(owner, createdAt, 0);
      PreparedRow(names, r);
      FullKey(names, map[names.owner := IntValue(owner), CREATED_AT := IntValue(createdAt)], owner, createdAt, false);
      var _ := model.Delete(map[names.owner := IntValue(owner), CREATED_AT := IntValue(createdAt)]);
      EncodesSorted(names, rows, old(model.entries));
      RemoveRowEncodes(names, rows, old(model.entries), r);
      RemoveRowElements(names, rows, old(model.entries), r);
      rows := RemoveRow(rows, r);
    }

    /** filter, with the instances read as rows. */
    method Filter(start: Option<Tuple>, stop: Option<Tuple>, prefix: Option<Tuple>, limit: Option<nat>, reverse: bool)
      returns (r: Result<seq<Row>>)
      requires Valid()
      requires prefix.Some? ==> start.None? && stop.None?
      ensures FilterRows(names, rows, start, stop, prefix, limit, reverse).Ok? ==>
          r == FilterRows(names, rows, start, stop, prefix, limit, reverse)
    {
      var instances := model.Filter(start, stop, prefix, limit, reverse);
      r := if instances.Ok? then Ok(RowsFor(names, instances.value)) else Err(instances.error);
      if FilterRows(names, rows, start, stop, prefix, limit, reverse).Ok? {
        FilterReads(names, rows, model.entries, start, stop, prefix, limit, reverse);
      }
    }

    /** filter(prefix=(owner,)), with or without a trailing None. */
    method FilterOwner(owner: int, limit: Option<nat>, reverse: bool) returns (r: Result<seq<Row>>)
      requires Valid()
      ensures UserId(owner) && (forall x :: x in rows ==> UserId(x.owner)) ==>
          r == Ok(Limited(if reverse then FeedOf(rows, owner) else Owned(rows, owner), limit))
    {
      if UserId(owner) && forall x :: x in rows ==> UserId(x.owner) {
        FilterByOwner(names, rows, owner, limit, reverse);
      }
      r := Filter(None, None, Some([Some(IntValue(owner)), None]), limit, reverse);
    }

    /** filter(start=(owner, cursor), stop=(owner, stop)) */
    method FilterFrom(owner: int, t: int, stop: int) returns (r: Result<seq<Row>>)
      requires Valid()
      ensures UserId(owner) && InRange(rows) && Stamp(t) && Stamp(stop) ==>
          r == Ok(Below(Above(Owned(rows, owner), t - 1), if t == stop then stop + 1 else stop))
    {
      if UserId(owner) && InRange(rows) && Stamp(t) && Stamp(stop) {
        FilterUpward(names, rows, owner, StrValue(StrInt(t)), t, stop);
      }
      r := Filter(Some([Some(IntValue(owner)), Some(StrValue(StrInt(t)))]),
                  Some([Some(IntValue(owner)), Some(IntValue(stop))]), None, None, false);
    }

    /** filter(start=(owner, cursor), stop=(owner, None), limit=limit, reverse=True) */
    method FilterBack(owner: int, t: int, limit: nat) returns (r: Result<seq<Row>>)
      requires Valid()
      ensures UserId(owner) && InRange(rows) && Stamp(t) ==>
          r == Ok(Take(Below(FeedOf(rows, owner), t + 1), limit))
    {
      if UserId(owner) && InRange(rows) && Stamp(t) {
        FilterDownward(names, rows, owner, StrValue(StrInt(t)), t, Some(limit));
      }
      r := Filter(Some([Some(IntValue(owner)), Some(StrValue(StrInt(t)))]),
                  Some([Some(IntValue(owner)), None]), None, Some(limit), true);
    }

    /** The stored rows of an owner form a descending feed. */
    lemma FeedIsDescending(owner: int)
      requires Valid() && InRange(rows)
      ensures KeySorted(rows) && Descending(FeedOf(rows, owner))
    {
      EncodesSorted(names, rows, model.entries);
      FeedDescending(rows, owner);
    }
  }

  lemma FilterReads(names: Names, rows: seq<Row>, entries: seq<Entry>, start: Option<Tuple>, stop: Option<Tuple>,
                    prefix: Option<Tuple>, limit: Option<nat>, reverse: bool)
    requires ValidNames(names) && Encodes(names, rows, entries)
    requires FilterRows(names, rows, start, stop, prefix, limit, reverse).Ok?
    requires ValidSchema(OwnerSchema(names)) && forall e :: e in entries ==> e.columns != map[]
    ensures var r := FilterResult(OwnerSchema(names), entries, start, stop, prefix, limit, reverse);
      r.Ok? && Ok(RowsFor(names, r.value)) == FilterRows(names, rows, start, stop, prefix, limit, reverse)
  {
    var range := FilterRange(names, start, stop, prefix, reverse).value;
    ScanEncodes(names, rows, entries, range, limit, reverse);
    ReadRowsBack(names, ScanRows(rows, range, limit, reverse), Scan(entries, range, limit, reverse));
  }

  lemma ZipPairs(a: string, b: string, x: Value, y: Value)
    requires a != b
    ensures Zip([a, b], [Some(x)]) == map[a := x]
    ensures Zip([a, b], [Some(x), None]) == map[a := x]
    ensures Zip([a, b], [Some(x), Some(y)]) == map[a := x, b := y]
  {
    assert [a, b][1..] == [b];
    ZipTails(b, y);
    var one: Tuple, two: Tuple, three: Tuple := [Some(x)], [Some(x), None], [Some(x), Some(y)];
    assert one[1..] == [] && two[1..] == [None] && three[1..] == [Some(y)];
  }

  lemma ZipTails(b: string, y: Value)
    ensures Zip([b], []) == map[]
    ensures Zip([b], [None]) == map[]
    ensures Zip([b], [Some(y)]) == map[b := y]
  {
    var none: Tuple, some: Tuple := [None], [Some(y)];
    assert none[1..] == [] && some[1..] == [];
    assert Zip([], []) == map[];
  }

  lemma OwnerTuple(names: Names, owner: nat)
    requires ValidNames(names)
    ensures ValidSchema(OwnerSchema(names))
    ensures TupleKey(OwnerSchema(names), Some([Some(IntValue(owner))])) == Ok(Some(OwnerText(owner)))
    ensures TupleKey(OwnerSchema(names), Some([Some(IntValue(owner)), None])) == Ok(Some(OwnerText(owner)))
  {
    SchemaIsValid(names);
    ZipPairs(names.owner, CREATED_AT, IntValue(owner), IntValue(owner));
    PrefixKey(names, map[names.owner := IntValue(owner)], owner);
  }

  lemma BoundTuple(names: Names, owner: nat, value: Value, createdAt: nat)
    requires ValidNames(names) && ValueText(value) == Str(createdAt)
    ensures ValidSchema(OwnerSchema(names))
    ensures TupleKey(OwnerSchema(names), Some([Some(IntValue(owner)), Some(value)]))
        == Ok(Some(KeyText(owner, createdAt)))
  {
    SchemaIsValid(names);
    ZipPairs(names.owner, CREATED_AT, IntValue(owner), value);
    FullKey(names, map[names.owner := IntValue(owner), CREATED_AT := value], owner, createdAt, true);
  }

  function Limited(rows: seq<Row>, limit: Option<nat>): seq<Row> {
    if limit.Some? then Take(rows, limit.value) else rows
  }

  lemma FilterByOwner(names: Names, rows: seq<Row>, owner: int, limit: Option<nat>, reverse: bool)
    requires ValidNames(names) && UserId(owner) && forall r :: r in rows ==> UserId(r.owner)
    ensures FilterRows(names, rows, None, None, Some([Some(IntValue(owner))]), limit, reverse)
        == FilterRows(names, rows, None, None, Some([Some(IntValue(owner)), None]), limit, reverse)
        == Ok(Limited(if reverse then FeedOf(rows, owner) else Owned(rows, owner), limit))
  {
    OwnerTuple(names, owner);
    ChosenByPrefix(rows, owner);
  }

  lemma FilterUpward(names: Names, rows: seq<Row>, owner: int, from: Value, t: int, stop: int)
    requires ValidNames(names) && UserId(owner) && InRange(rows) && Stamp(t) && Stamp(stop) && ValueText(from) == Str(t)
    ensures FilterRows(names, rows, Some([Some(IntValue(owner)), Some(from)]),
                       Some([Some(IntValue(owner)), Some(IntValue(stop))]), None, None, false)
        == Ok(Below(Above(Owned(rows, owner), t - 1), if t == stop then stop + 1 else stop))
  {
    BoundTuple(names, owner, from, t);
    BoundTuple(names, owner, IntValue(stop), stop);
    ChosenUpward(rows, owner, t, stop);
  }

  lemma FilterDownward(names: Names, rows: seq<Row>, owner: int, from: Value, t: int, limit: Option<nat>)
    requires ValidNames(names) && UserId(owner) && InRange(rows) && Stamp(t) && ValueText(from) == Str(t)
    ensures FilterRows(names, rows, Some([Some(IntValue(owner)), Some(from)]), Some([Some(IntValue(owner)), None]),
                       None, limit, true)
        == Ok(Limited(Below(FeedOf(rows, owner), t + 1), limit))
  {
    BoundTuple(names, owner, from, t);
    OwnerTuple(names, owner);
    ChosenDownward(rows, owner, t);
    BelowRev(Owned(rows, owner), t + 1);
  }

  // ---------- puts and deletes on rows ----------

  function PutRow(rows: seq<Row>, r: Row): seq<Row> {
    if rows == [] then [r]
    else if Key(rows[0]) == Key(r) then [r] + rows[1..]
    else if Less(Key(r), Key(rows[0])) then [r] + rows
    else [rows[0]] + PutRow(rows[1..], r)
  }

  function PutRows(rows: seq<Row>, batch: seq<Row>): seq<Row>
    decreases |batch|
  {
    if batch == [] then rows else PutRows(PutRow(rows, batch[0]), batch[1..])
  }

  function RemoveRow(rows: seq<Row>, r: Row): seq<Row> {
    if rows == [] then []
    else if Key(rows[0]) == Key(r) then rows[1..]
    else [rows[0]] + RemoveRow(rows[1..], r)
  }

  lemma MergedColumns(names: Names, a: Row, b: Row)
    ensures EntryFor(names, a).columns + EntryFor(names, b).columns == EntryFor(names, b).columns
  {
  }

  lemma ConsEncodes(names: Names, r: Row, e: Entry, rows: seq<Row>, entries: seq<Entry>)
    requires Natural(r) && e == EntryFor(names, r) && Encodes(names, rows, entries)
    ensures Encodes(names, [r] + rows, [e] + entries)
  {
  }

  lemma TailEncodes(names: Names, rows: seq<Row>, entries: seq<Entry>)
    requires rows != [] && Encodes(names, rows, entries)
    ensures Natural(rows[0]) && entries != [] && entries[0] == EntryFor(names, rows[0])
    ensures Encodes(names, rows[1..], entries[1..])
  {
  }

  lemma {:induction false} PutRowEncodes(names: Names, rows: seq<Row>, after: seq<Entry>, entries: seq<Entry>, r: Row)
    requires Encodes(names, rows, entries) && Natural(r)
    requires after == Put(entries, EntryFor(names, r).key, EntryFor(names, r).columns)
    ensures Encodes(names, PutRow(rows, r), after)
  {
    var e := EntryFor(names, r);
    if rows == [] {
      ConsEncodes(names, r, e, [], []);
    } else {
      TailEncodes(names, rows, entries);
      MergedColumns(names, rows[0], r);
      if Key(rows[0]) == Key(r) {
        ConsEncodes(names, r, e, rows[1..], entries[1..]);
      } else if Less(Key(r), Key(rows[0])) {
        ConsEncodes(names, r, e, rows, entries);
      } else {
        var rest := Put(entries[1..], e.key, e.columns);
        PutRowEncodes(names, rows[1..], rest, entries[1..], r);
        ConsEncodes(names, rows[0], entries[0], PutRow(rows[1..], r), rest);
      }
    }
  }

  lemma {:induction false} RemoveRowEncodes(names: Names, rows: seq<Row>, entries: seq<Entry>, r: Row)
    requires Encodes(names, rows, entries)
    ensures Encodes(names, RemoveRow(rows, r), Remove(entries, Key(r)))
  {
    if rows != [] {
      RemoveRowEncodes(names, rows[1..], entries[1..], r);
    }
  }

  lemma KeyOfRow(a: Row, b: Row)
    requires Natural(a) && Natural(b)
    ensures Key(a) == Key(b) <==> SameKey(a, b)
  {
    if Key(a) == Key(b) {
      KeyTextInjective(a.owner, a.createdAt, b.owner, b.createdAt);
    }
  }

  lemma BeforeAll(rows: seq<Row>, r: Row)
    requires KeySorted(rows) && Natural(r) && forall x :: x in rows ==> Natural(x)
    requires rows != [] && Less(Key(r), Key(rows[0]))
    ensures forall x :: x in rows ==> Less(Key(r), Key(x)) && !SameKey(x, r)
  {
    LessIrreflexive(Key(r));
    forall x | x in rows ensures Less(Key(r), Key(x)) && !SameKey(x, r) {
      if x != rows[0] {
        LessTransitive(Key(r), Key(rows[0]), Key(x));
      }
      KeyOfRow(x, r);
    }
  }

  lemma InPlaceOf(rows: seq<Row>, r: Row)
    requires KeySorted(rows) && Natural(r) && forall x :: x in rows ==> Natural(x)
    requires rows != [] && Key(rows[0]) == Key(r)
    ensures SameKey(rows[0], r) && forall x :: x in rows[1..] ==> Less(Key(r), Key(x)) && !SameKey(x, r)
  {
    LessIrreflexive(Key(r));
    KeyOfRow(rows[0], r);
    forall x | x in rows[1..] ensures Less(Key(r), Key(x)) && !SameKey(x, r) {
      assert Less(Key(rows[0]), Key(x));
      KeyOfRow(x, r);
    }
  }

  lemma {:induction false} PutRowEffect(rows: seq<Row>, r: Row)
    requires KeySorted(rows) && Natural(r) && forall x :: x in rows ==> Natural(x)
    ensures KeySorted(PutRow(rows, r))
    ensures forall x :: x in PutRow(rows, r) <==> x == r || (x in rows && !SameKey(x, r))
  {
    if rows != [] {
      if Key(rows[0]) == Key(r) {
        InPlaceOf(rows, r);
        SortedCons(r, rows[1..]);
      } else if Less(Key(r), Key(rows[0])) {
        BeforeAll(rows, r);
        SortedCons(r, rows);
      } else {
        LessTotal(Key(r), Key(rows[0]));
        KeyOfRow(rows[0], r);
        PutRowEffect(rows[1..], r);
        SortedCons(rows[0], PutRow(rows[1..], r));
      }
    }
  }

  lemma SortedCons(r: Row, rows: seq<Row>)
    requires KeySorted(rows) && forall x :: x in rows ==> Less(Key(r), Key(x))
    ensures KeySorted([r] + rows)
  {
  }

  lemma PutRowElements(names: Names, rows: seq<Row>, entries: seq<Entry>, r: Row)
    requires KeySorted(rows) && Natural(r) && Encodes(names, rows, entries)
    ensures Elements(PutRow(rows, r)) == Written(Elements(rows), r)
  {
    PutRowEffect(rows, r);
  }

  lemma {:induction false} RemoveRowEffect(rows: seq<Row>, r: Row)
    requires KeySorted(rows) && Natural(r) && forall x :: x in rows ==> Natural(x)
    ensures forall x :: x in RemoveRow(rows, r) <==> x in rows && !SameKey(x, r)
  {
    if rows != [] {
      LessIrreflexive(Key(r));
      KeyOfRow(rows[0], r);
      if Key(rows[0]) == Key(r) {
        forall x | x in rows[1..] ensures !SameKey(x, r) {
          assert Less(Key(r), Key(x));
          KeyOfRow(x, r);
        }
      } else {
        RemoveRowEffect(rows[1..], r);
      }
    }
  }

  lemma RemoveRowElements(names: Names, rows: seq<Row>, entries: seq<Entry>, r: Row)
    requires KeySorted(rows) && Natural(r) && Encodes(names, rows, entries)
    ensures Elements(RemoveRow(rows, r)) == Deleted(Elements(rows), r.owner, r.createdAt)
  {
    RemoveRowEffect(rows, r);
  }

  ghost predicate Instances(names: Names, batch: seq<Row>, data: seq<Data>) {
    && |data| == |batch|
    && forall i :: 0 <= i < |batch| ==> Natural(batch[i]) && data[i] == InstanceFor(names, batch[i])
  }

  lemma TailInstances(names: Names, batch: seq<Row>, data: seq<Data>)
    requires Instances(names, batch, data) && batch != []
    ensures Natural(batch[0]) && data[0] == InstanceFor(names, batch[0])
    ensures Instances(names, batch[1..], data[1..])
  {
  }

  lemma {:induction false} PreparedBatch(names: Names, batch: seq<Row>, data: seq<Data>)
    requires ValidNames(names) && Instances(names, batch, data)
    ensures ValidSchema(OwnerSchema(names))
    ensures PrepareAll(OwnerSchema(names), data).Ok?
    ensures Encodes(names, batch, PrepareAll(OwnerSchema(names), data).value)
  {
    SchemaIsValid(names);
    if batch != [] {
      TailInstances(names, batch, data);
      PreparedBatch(names, batch[1..], data[1..]);
      PreparedRow(names, batch[0]);
      PreparedFirst(OwnerSchema(names), data, EntryFor(names, batch[0]));
      var rest := PrepareAll(OwnerSchema(names), data[1..]).value;
      ConsEncodes(names, batch[0], EntryFor(names, batch[0]), batch[1..], rest);
      assert batch == [batch[0]] + batch[1..];
    }
  }

  lemma PreparedFirst(schema: Schema, data: seq<Data>, e: Entry)
    requires ValidSchema(schema) && data != []
    requires Prepare(schema, data[0]) == Ok(e) && PrepareAll(schema, data[1..]).Ok?
    ensures PrepareAll(schema, data) == Ok([e] + PrepareAll(schema, data[1..]).value)
  {
  }

  lemma {:induction false} PutRowsEncodes(names: Names, rows: seq<Row>, entries: seq<Entry>, batch: seq<Row>,
                                          puts: seq<Entry>)
    requires Encodes(names, rows, entries) && Encodes(names, batch, puts) && KeySorted(rows)
    ensures Encodes(names, PutRows(rows, batch), PutAll(entries, puts))
    ensures Elements(PutRows(rows, batch)) == WrittenAll(Elements(rows), batch)
    decreases |batch|
  {
    if batch != [] {
      var after := Put(entries, puts[0].key, puts[0].columns);
      PutRowEncodes(names, rows, after, entries, batch[0]);
      PutRowEffect(rows, batch[0]);
      assert Elements(PutRow(rows, batch[0])) == Written(Elements(rows), batch[0]);
      PutRowsEncodes(names, PutRow(rows, batch[0]), after, batch[1..], puts[1..]);
    }
  }
}

/**
  The three models stored in HBase (news feeds, followings, followers) have one shape: the row
  key is a padded and reversed owner id followed by a timestamp, and one column holds the item.
  This file ties such rows to the bytes they are stored as.
 */
module OwnerRows {
  import opened Outcomes
  import opened Text
  import opened Feed
  import opened RowCodec
  import opened HTable
  import opened HBaseOrm

  /** The field names of one of the three models. */
  datatype Names = Names(owner: string, item: string)

  const NEWSFEED := Names("user_id", "tweet_id")
  const FOLLOWING := Names("from_user_id", "to_user_id")
  const FOLLOWER := Names("to_user_id", "from_user_id")

  const CREATED_AT := "created_at"

  predicate ValidNames(names: Names) {
    names.owner != names.item && names.owner != CREATED_AT && names.item != CREATED_AT
  }

  function OwnerSchema(names: Names): Schema {
    Schema(
      map[names.owner := Field(IntegerKind, true, None),
          CREATED_AT := Field(TimestampKind, false, None),
          names.item := Field(IntegerKind, false, Some("cf"))],
      [names.owner, CREATED_AT])
  }

  function InstanceFor(names: Names, r: Row): Data {
    map[names.owner := IntValue(r.owner), CREATED_AT := IntValue(r.createdAt), names.item := IntValue(r.item)]
  }

  function IntAt(data: Data, k: string): int {
    if k in data && data[k].IntValue? then data[k].n else 0
  }

  /** The attributes of an instance. */
  function RowFor(names: Names, data: Data): Row {
    Row(IntAt(data, names.owner), IntAt(data, CREATED_AT), IntAt(data, names.item))
  }

  function OwnerText(owner: int): string {
    Rev(Pad16(StrInt(owner)))
  }

  function KeyText(owner: int, createdAt: int): string {
    OwnerText(owner) + ":" + StrInt(createdAt)
  }

  function Key(r: Row): string {
    KeyText(r.owner, r.createdAt)
  }

  function EntryFor(names: Names, r: Row): Entry {
    Entry(Key(r), map["cf:" + names.item := Pad16(StrInt(r.item))])
  }

  predicate Natural(r: Row) {
    r.owner >= 0 && r.createdAt >= 0 && r.item >= 0
  }

  /** The stored bytes are those of these rows, in order. */
  ghost predicate Encodes(names: Names, rows: seq<Row>, entries: seq<Entry>) {
    && |rows| == |entries|
    && forall i :: 0 <= i < |rows| ==> Natural(rows[i]) && entries[i] == EntryFor(names, rows[i])
  }

  // ---------- one row ----------

  lemma SchemaIsValid(names: Names)
    requires ValidNames(names)
    ensures ValidSchema(OwnerSchema(names))
  {
  }

  /** One step of the key loop. */
  lemma KeyStep(schema: Schema, names: seq<string>, data: Data, isPrefix: bool, text: string, rest: seq<string>)
    requires forall k :: k in names ==> k in schema.fields
    requires names != [] && names[0] in data && FieldText(schema.fields[names[0]], data[names[0]]) == text
    requires ':' !in text && KeyParts(schema, names[1..], data, isPrefix) == Ok(rest)
    ensures KeyParts(schema, names, data, isPrefix) == Ok([text] + rest)
  {
  }

  lemma OwnerPart(names: Names, data: Data, owner: nat)
    requires ValidNames(names) && names.owner in data && data[names.owner] == IntValue(owner)
    ensures FieldText(OwnerSchema(names).fields[names.owner], data[names.owner]) == OwnerText(owner)
    ensures ':' !in OwnerText(owner)
  {
    NaturalFieldText(OwnerSchema(names).fields[names.owner], owner);
  }

  /** A tuple of only the owner id serializes to a bare prefix, without a colon. */
  lemma PrefixKey(names: Names, data: Data, owner: nat)
    requires ValidNames(names)
    requires names.owner in data && data[names.owner] == IntValue(owner) && CREATED_AT !in data
    ensures RowKey(OwnerSchema(names), data, true) == Ok(OwnerText(owner))
  {
    var schema := OwnerSchema(names);
    OwnerPart(names, data, owner);
    assert schema.rowKey[1..] == [CREATED_AT];
    KeyStep(schema, schema.rowKey, data, true, OwnerText(owner), []);
    assert [OwnerText(owner)] + [] == [OwnerText(owner)];
  }

  lemma FullKey(names: Names, data: Data, owner: nat, createdAt: nat, isPrefix: bool)
    requires ValidNames(names)
    requires names.owner in data && data[names.owner] == IntValue(owner)
    requires CREATED_AT in data && ValueText(data[CREATED_AT]) == Str(createdAt)
    ensures RowKey(OwnerSchema(names), data, isPrefix) == Ok(KeyText(owner, createdAt))
  {
    var schema := OwnerSchema(names);
    OwnerPart(names, data, owner);
    var rest := schema.rowKey[1..];
    assert rest == [CREATED_AT] && rest[1..] == [];
    assert ':' !in Str(createdAt);
    KeyStep(schema, rest, data, isPrefix, Str(createdAt), []);
    assert [Str(createdAt)] + [] == [Str(createdAt)];
    KeyStep(schema, schema.rowKey, data, isPrefix, OwnerText(owner), [Str(createdAt)]);
    var parts := [OwnerText(owner)] + [Str(createdAt)];
    assert |parts| == 2 && parts[1..] == [Str(createdAt)];
    assert Join(parts[1..]) == Str(createdAt);
    assert StrInt(createdAt) == Str(createdAt);
  }

  lemma ColumnsFor(names: Names, r: Row)
    requires ValidNames(names)
    ensures RowData(OwnerSchema(names), InstanceFor(names, r)) == EntryFor(names, r).columns
  {
    var schema, data := OwnerSchema(names), InstanceFor(names, r);
    OnlyItem(names, r);
    OneColumn(schema, data, names.item);
    assert ColumnKey(schema, names.item) == "cf:" + names.item;
    ItemText(names, r);
  }

  lemma ItemText(names: Names, r: Row)
    requires ValidNames(names)
    ensures FieldText(OwnerSchema(names).fields[names.item], IntValue(r.item)) == Pad16(StrInt(r.item))
  {
  }

  lemma OnlyItem(names: Names, r: Row)
    requires ValidNames(names)
    ensures ValidSchema(OwnerSchema(names))
    ensures StoredNames(OwnerSchema(names), InstanceFor(names, r)) == {names.item}
  {
    var schema := OwnerSchema(names);
    assert HasColumn(schema.fields[names.item]);
    assert !HasColumn(schema.fields[names.owner]) && !HasColumn(schema.fields[CREATED_AT]);
    assert schema.fields.Keys == {names.owner, CREATED_AT, names.item};
  }

  lemma OneColumn(schema: Schema, data: Data, k: string)
    requires ValidSchema(schema) && StoredNames(schema, data) == {k}
    ensures RowData(schema, data) == map[ColumnKey(schema, k) := FieldText(schema.fields[k], data[k])]
  {
    NameOfColumn(schema, k);
    assert k in StoredNames(schema, data);
    assert RowData(schema, data).Keys == {ColumnKey(schema, k)};
  }

  /** What save writes for a row. */
  lemma PreparedRow(names: Names, r: Row)
    requires ValidNames(names) && Natural(r)
    ensures RowKey(OwnerSchema(names), InstanceFor(names, r), false) == Ok(Key(r))
    ensures Prepare(OwnerSchema(names), InstanceFor(names, r)) == Ok(EntryFor(names, r))
  {
    ColumnsFor(names, r);
    FullKey(names, InstanceFor(names, r), r.owner, r.createdAt, false);
    NotEmpty(names, r);
  }

  /** What a scan makes of the stored bytes of a row: the row. */
  lemma RestoredRow(names: Names, r: Row)
    requires ValidNames(names) && Natural(r)
    ensures EntryFor(names, r).columns != map[]
    ensures InstanceOf(OwnerSchema(names), EntryFor(names, r).key, EntryFor(names, r).columns)
        == Ok(Some(InstanceFor(names, r)))
  {
    var e := EntryFor(names, r);
    SchemaIsValid(names);
    PreparedRow(names, r);
    ColumnsFor(names, r);
    NotEmpty(names, r);
    AllNatural(names, r);
    AllKept(names, r);
    RestoredData(OwnerSchema(names), InstanceFor(names, r), e.key, e.columns);
  }

  lemma RestoredData(schema: Schema, data: Data, key: string, columns: map<string, string>)
    requires ValidSchema(schema) && Kept(schema, data) == data
    requires forall k :: k in data ==> data[k].IntValue? && data[k].n >= 0
    requires RowKey(schema, data, false) == Ok(key) && RowData(schema, data) == columns && columns != map[]
    ensures InstanceOf(schema, key, columns) == Ok(Some(data))
  {
    RowRoundTrip(schema, data);
  }

  lemma InstanceAttributes(names: Names, r: Row)
    requires ValidNames(names)
    ensures RowFor(names, InstanceFor(names, r)) == r
  {
  }

  lemma NotEmpty(names: Names, r: Row)
    ensures EntryFor(names, r).columns != map[]
  {
    assert "cf:" + names.item in EntryFor(names, r).columns;
  }

  lemma AllNatural(names: Names, r: Row)
    requires ValidNames(names) && Natural(r)
    ensures forall k :: k in InstanceFor(names, r) ==>
      InstanceFor(names, r)[k].IntValue? && InstanceFor(names, r)[k].n >= 0
  {
  }

  lemma AllKept(names: Names, r: Row)
    requires ValidNames(names)
    ensures Kept(OwnerSchema(names), InstanceFor(names, r)) == InstanceFor(names, r)
  {
    var schema := OwnerSchema(names);
    assert schema.rowKey[0] == names.owner && schema.rowKey[1] == CREATED_AT;
    assert HasColumn(schema.fields[names.item]);
  }

  // ---------- key order and isolation ----------

  /** 16-digit timestamps and ids that fit the padding. */
  predicate Stamp(t: int) {
    Pow10(15) <= t < Pow10(16)
  }

  predicate UserId(owner: int) {
    0 <= owner < Pow10(16)
  }

  lemma OwnerTextLength(owner: int)
    requires UserId(owner)
    ensures |OwnerText(owner)| == 16 && AllDigits(OwnerText(owner))
  {
    StrLength(owner, 16);
  }

  lemma StampLength(t: int)
    requires Stamp(t)
    ensures |StrInt(t)| == 16 && AllDigits(StrInt(t)) && Digits(StrInt(t)) == t
  {
    StrLength(t, 16);
    StrLength(t, 15);
    DigitsOfStr(t);
  }

  lemma OwnerTextInjective(a: nat, b: nat)
    requires OwnerText(a) == OwnerText(b)
    ensures a == b
  {
    RevRev(Pad16(Str(a)));
    RevRev(Pad16(Str(b)));
    PadKeepsNumber(Str(a));
    PadKeepsNumber(Str(b));
    DigitsOfStr(a);
    DigitsOfStr(b);
  }

  lemma KeyTextInjective(a: nat, s: nat, b: nat, t: nat)
    requires KeyText(a, s) == KeyText(b, t)
    ensures a == b && s == t
  {
    FindAfter(OwnerText(a), Str(s));
    FindAfter(OwnerText(b), Str(t));
    assert KeyText(a, s)[..|OwnerText(a)|] == OwnerText(a);
    assert KeyText(b, t)[..|OwnerText(b)|] == OwnerText(b);
    OwnerTextInjective(a, b);
    assert KeyText(a, s)[|OwnerText(a)| + 1..] == Str(s);
    assert KeyText(b, t)[|OwnerText(b)| + 1..] == Str(t);
    StrInjective(s, t);
  }

  /** Keys of one owner are in byte order exactly when the timestamps are in numeric order. */
  lemma KeyOrder(owner: int, s: int, t: int)
    requires Stamp(s) && Stamp(t)
    ensures Less(KeyText(owner, s), KeyText(owner, t)) <==> s < t
  {
    var p := OwnerText(owner) + ":";
    LessAfterPrefix(p, StrInt(s), StrInt(t));
    StampLength(s);
    StampLength(t);
    LessIsNumeric(StrInt(s), StrInt(t));
  }

  /** Keys of different owners compare by the owners alone. */
  lemma OwnersApart(a: int, x: string, b: int, y: string)
    requires UserId(a) && UserId(b) && a != b
    ensures Less(OwnerText(a) + x, OwnerText(b) + y) <==> Less(OwnerText(a), OwnerText(b))
  {
    OwnerTextLength(a);
    OwnerTextLength(b);
    if OwnerText(a) == OwnerText(b) {
      OwnerTextInjective(a, b);
    }
    LessByHead(OwnerText(a), OwnerText(b), x, y);
  }

  /**
    The digits of an id are reversed and a prefix scan carries no colon, so the prefix of an id
    that fits the padding matches exactly the keys of the ids congruent to it modulo 10^16:
    its own rows, and rows of longer ids that end in the same sixteen digits.
   */
  lemma PrefixMatches(u: int, owner: nat, createdAt: int)
    requires UserId(u)
    ensures Prefix(OwnerText(u), KeyText(owner, createdAt)) <==> owner % Pow10(16) == u
  {
    PrefixIsTail(u, owner, createdAt);
    TailIsRemainder(u, owner, Pow10(16));
  }

  lemma PrefixIsTail(u: int, owner: nat, createdAt: int)
    requires UserId(u)
    ensures Prefix(OwnerText(u), KeyText(owner, createdAt)) <==>
      Pad16(Str(owner))[|Pad16(Str(owner))| - 16..] == Pad16(Str(u))
  {
    var padded := Pad16(Str(owner));
    var last := padded[|padded| - 16..];
    OwnerTextLength(u);
    HeadOfReversed(padded, ":" + StrInt(createdAt));
    AsHeadAndTail(owner, createdAt);
    assert KeyText(owner, createdAt)[..16] == Rev(last);
    RevRev(last);
    RevRev(Pad16(Str(u)));
  }

  lemma TailIsRemainder(u: int, owner: nat, m: nat)
    requires UserId(u) && m == Pow10(16)
    ensures Pad16(Str(owner))[|Pad16(Str(owner))| - 16..] == Pad16(Str(u)) <==> owner % m == u
  {
    PadKeepsNumber(Str(owner));
    DigitsOfStr(owner);
    PaddedId(u);
    TailNumber(Pad16(Str(owner)), Pad16(Str(u)), m);
  }

  lemma TailNumber(long: string, short: string, m: nat)
    requires AllDigits(long) && AllDigits(short) && |long| >= 16 && |short| == 16 && m == Pow10(16)
    ensures long[|long| - 16..] == short <==> Digits(long) % m == Digits(short)
  {
    var last := long[|long| - 16..];
    LastDigits(long, m);
    if Digits(last) == Digits(short) {
      DigitsInjective(last, short);
    }
  }

  lemma PaddedId(u: int)
    requires UserId(u)
    ensures |Pad16(Str(u))| == 16 && Digits(Pad16(Str(u))) == u
  {
    StrLength(u, 16);
    PadKeepsNumber(Str(u));
    DigitsOfStr(u);
  }

  lemma HeadOfReversed(s: string, rest: string)
    requires |s| >= 16
    ensures (Rev(s) + rest)[..16] == Rev(s[|s| - 16..])
  {
  }

  lemma LastDigits(s: string, m: nat)
    requires AllDigits(s) && |s| >= 16 && m == Pow10(16)
    ensures Digits(s[|s| - 16..]) == Digits(s) % m
  {
    var front, last := s[..|s| - 16], s[|s| - 16..];
    assert s == front + last;
    TailRemainder(front, last, m);
  }

  lemma TailRemainder(front: string, last: string, m: nat)
    requires AllDigits(front) && AllDigits(last) && m == Pow10(|last|)
    ensures Digits(front + last) % m == Digits(last)
  {
    DigitsAppend(front, last);
    DigitsBelow(last);
    Remainder(Digits(front), Digits(last), m);
  }

  lemma Remainder(q: nat, r: nat, m: nat)
    requires r < m
    ensures (q * m + r) % m == r
  {
    var x := q * m + r;
    var a, s := x / m, x % m;
    assert x == a * m + s;
    if a < q {
      assert (q - a) * m == q * m - a * m;
      AtLeast(q - a, m);
    } else if a > q {
      assert (a - q) * m == a * m - q * m;
      AtLeast(a - q, m);
    }
  }

  lemma AtLeast(k: nat, m: nat)
    requires k > 0
    ensures k * m >= m
  {
  }

  // ---------- scans over rows ----------

  ghost predicate InRange(rows: seq<Row>) {
    forall r :: r in rows ==> UserId(r.owner) && Stamp(r.createdAt)
  }

  /** The rows whose keys a scan visits. */
  function Chosen(rows: seq<Row>, range: Range): seq<Row> {
    if rows == [] then []
    else if Hits(range, Key(rows[0])) then [rows[0]] + Chosen(rows[1..], range)
    else Chosen(rows[1..], range)
  }

  function ScanRows(rows: seq<Row>, range: Range, limit: Option<nat>, reverse: bool): seq<Row> {
    var hits := Chosen(rows, range);
    var ordered := if reverse then Rev(hits) else hits;
    if limit.Some? then Take(ordered, limit.value) else ordered
  }

  lemma {:induction false} SelectEncodes(names: Names, rows: seq<Row>, entries: seq<Entry>, range: Range)
    requires Encodes(names, rows, entries)
    ensures Encodes(names, Chosen(rows, range), Select(entries, range))
  {
    if rows != [] {
      SelectEncodes(names, rows[1..], entries[1..], range);
    }
  }

  lemma ScanEncodes(names: Names, rows: seq<Row>, entries: seq<Entry>, range: Range, limit: Option<nat>, reverse: bool)
    requires Encodes(names, rows, entries)
    ensures Encodes(names, ScanRows(rows, range, limit, reverse), Scan(entries, range, limit, reverse))
  {
    SelectEncodes(names, rows, entries, range);
    var hits, found := Chosen(rows, range), Select(entries, range);
    RevEncodes(names, hits, found);
    TakeEncodes(names, if reverse then Rev(hits) else hits, if reverse then Rev(found) else found,
                if limit.Some? then limit.value else |hits|);
  }

  lemma MirroredEntry(names: Names, rows: seq<Row>, entries: seq<Entry>, j: nat)
    requires Encodes(names, rows, entries) && j < |rows|
    ensures Natural(rows[j]) && entries[j] == EntryFor(names, rows[j])
    ensures Rev(rows)[|rows| - 1 - j] == rows[j] && Rev(entries)[|rows| - 1 - j] == entries[j]
  {
  }

  lemma RevEncodes(names: Names, rows: seq<Row>, entries: seq<Entry>)
    requires Encodes(names, rows, entries)
    ensures Encodes(names, Rev(rows), Rev(entries))
  {
    forall i | 0 <= i < |rows| ensures Natural(Rev(rows)[i]) && Rev(entries)[i] == EntryFor(names, Rev(rows)[i]) {
      MirroredEntry(names, rows, entries, |rows| - 1 - i);
    }
  }

  lemma TakeEncodes(names: Names, rows: seq<Row>, entries: seq<Entry>, n: nat)
    requires Encodes(names, rows, entries)
    ensures Encodes(names, Take(rows, n), Take(entries, n))
  {
  }

  function RowsFor(names: Names, instances: seq<Data>): seq<Row> {
    seq(|instances|, i requires 0 <= i < |instances| => RowFor(names, instances[i]))
  }

  lemma NoneEmpty(names: Names, rows: seq<Row>, entries: seq<Entry>)
    requires Encodes(names, rows, entries)
    ensures forall e :: e in entries ==> e.columns != map[]
  {
    forall e | e in entries ensures e.columns != map[] {
      var i :| 0 <= i < |entries| && entries[i] == e;
      NotEmpty(names, rows[i]);
    }
  }

  lemma {:induction false} ReadRowsBack(names: Names, rows: seq<Row>, entries: seq<Entry>)
    requires ValidNames(names) && Encodes(names, rows, entries)
    ensures forall e :: e in entries ==> e.columns != map[]
    ensures ReadAll(OwnerSchema(names), entries).Ok?
    ensures RowsFor(names, ReadAll(OwnerSchema(names), entries).value) == rows
  {
    NoneEmpty(names, rows, entries);
    if rows != [] {
      var r, tail := rows[0], entries[1..];
      ReadRowsBack(names, rows[1..], tail);
      RestoredRow(names, r);
      ReadFirst(names, r, entries);
      RowsForFirst(names, r, ReadAll(OwnerSchema(names), tail).value);
      assert rows == [r] + rows[1..];
    }
  }

  lemma ReadFirst(names: Names, r: Row, entries: seq<Entry>)
    requires entries != [] && entries[0] == EntryFor(names, r)
    requires forall e :: e in entries ==> e.columns != map[]
    requires InstanceOf(OwnerSchema(names), EntryFor(names, r).key, EntryFor(names, r).columns)
        == Ok(Some(InstanceFor(names, r)))
    requires ReadAll(OwnerSchema(names), entries[1..]).Ok?
    ensures ReadAll(OwnerSchema(names), entries)
        == Ok([InstanceFor(names, r)] + ReadAll(OwnerSchema(names), entries[1..]).value)
  {
  }

  lemma RowsForFirst(names: Names, r: Row, rest: seq<Data>)
    requires ValidNames(names)
    ensures RowsFor(names, [InstanceFor(names, r)] + rest) == [r] + RowsFor(names, rest)
  {
    InstanceAttributes(names, r);
  }

  // ---------- which rows the scans of the paginators visit ----------

  lemma HitsPrefix(u: int, r: Row)
    requires UserId(u) && UserId(r.owner)
    ensures Hits(WithPrefix(OwnerText(u)), Key(r)) <==> r.owner == u
  {
    PrefixMatches(u, r.owner, r.createdAt);
    SmallRemainder(r.owner, Pow10(16));
  }

  lemma SmallRemainder(r: nat, m: nat)
    requires r < m
    ensures r % m == r
  {
  }

  lemma HitsUpward(u: int, t: int, stop: int, r: Row)
    requires UserId(u) && UserId(r.owner) && Stamp(t) && Stamp(stop) && Stamp(r.createdAt)
    ensures Hits(Upward(Some(KeyText(u, t)), Some(KeyText(u, stop))), Key(r))
        <==> r.owner == u && t <= r.createdAt < (if t == stop then stop + 1 else stop)
  {
    if r.owner == u {
      KeyOrder(u, r.createdAt, t);
      KeyOrder(u, r.createdAt, stop);
      KeyOrder(u, t, stop);
      KeyOrder(u, stop, t);
      LessIrreflexive(KeyText(u, t));
      if Key(r) == KeyText(u, t) {
        KeyTextInjective(u, r.createdAt, u, t);
      }
      if KeyText(u, stop) == KeyText(u, t) {
        KeyTextInjective(u, stop, u, t);
      }
    } else {
      OwnersApart(r.owner, ":" + StrInt(r.createdAt), u, ":" + StrInt(t));
      OwnersApart(r.owner, ":" + StrInt(r.createdAt), u, ":" + StrInt(stop));
      AsHeadAndTail(r.owner, r.createdAt);
      AsHeadAndTail(u, t);
      AsHeadAndTail(u, stop);
      if Key(r) == KeyText(u, t) {
        KeyTextInjective(r.owner, r.createdAt, u, t);
      }
    }
  }

  lemma AsHeadAndTail(owner: int, t: int)
    ensures KeyText(owner, t) == OwnerText(owner) + (":" + StrInt(t))
  {
  }

  lemma HitsDownward(u: int, t: int, r: Row)
    requires UserId(u) && UserId(r.owner) && Stamp(t) && Stamp(r.createdAt)
    ensures Hits(Downward(Some(KeyText(u, t)), Some(OwnerText(u))), Key(r))
        <==> r.owner == u && r.createdAt < t + 1
  {
    AsHeadAndTail(u, t);
    AsHeadAndTail(r.owner, r.createdAt);
    assert OwnerText(u) + "" == OwnerText(u);
    assert |KeyText(u, t)| > |OwnerText(u)|;
    if r.owner == u {
      KeyOrder(u, t, r.createdAt);
      LessAfterPrefix(OwnerText(u), "", ":" + StrInt(r.createdAt));
    } else {
      OwnersApart(u, ":" + StrInt(t), r.owner, ":" + StrInt(r.createdAt));
      OwnersApart(u, "", r.owner, ":" + StrInt(r.createdAt));
    }
  }

  lemma {:induction false} ChosenByPrefix(rows: seq<Row>, u: int)
    requires UserId(u) && forall r :: r in rows ==> UserId(r.owner)
    ensures Chosen(rows, WithPrefix(OwnerText(u))) == Owned(rows, u)
  {
    if rows != [] {
      HitsPrefix(u, rows[0]);
      ChosenByPrefix(rows[1..], u);
    }
  }

  lemma {:induction false} ChosenUpward(rows: seq<Row>, u: int, t: int, stop: int)
    requires UserId(u) && InRange(rows) && Stamp(t) && Stamp(stop)
    ensures Chosen(rows, Upward(Some(KeyText(u, t)), Some(KeyText(u, stop))))
        == Below(Above(Owned(rows, u), t - 1), if t == stop then stop + 1 else stop)
  {
    if rows != [] {
      HitsUpward(u, t, stop, rows[0]);
      ChosenUpward(rows[1..], u, t, stop);
    }
  }

  lemma {:induction false} ChosenDownward(rows: seq<Row>, u: int, t: int)
    requires UserId(u) && InRange(rows) && Stamp(t)
    ensures Chosen(rows, Downward(Some(KeyText(u, t)), Some(OwnerText(u)))) == Below(Owned(rows, u), t + 1)
  {
    if rows != [] {
      HitsDownward(u, t, rows[0]);
      ChosenDownward(rows[1..], u, t);
    }
  }

  ghost predicate KeySorted(rows: seq<Row>) {
    forall i, j :: 0 <= i < j < |rows| ==> Less(Key(rows[i]), Key(rows[j]))
  }

  lemma EncodesSorted(names: Names, rows: seq<Row>, entries: seq<Entry>)
    requires Encodes(names, rows, entries)
    ensures KeySorted(rows) <==> Sorted(entries)
  {
    assert forall i :: 0 <= i < |rows| ==> entries[i].key == Key(rows[i]);
  }

  /** The rows of one owner lie in the table in ascending order of time. */
  lemma {:induction false} OwnedAscending(rows: seq<Row>, u: int)
    requires KeySorted(rows) && InRange(rows)
    ensures Ascending(Owned(rows, u))
  {
    if rows != [] {
      OwnedAscending(rows[1..], u);
      if rows[0].owner == u {
        forall r | r in Owned(rows[1..], u) ensures rows[0].createdAt < r.createdAt {
          OwnedMembers(rows[1..], u, r);
          KeyOrder(u, rows[0].createdAt, r.createdAt);
        }
      }
    }
  }

  /** The feed of an owner: its rows, newest first. */
  function FeedOf(rows: seq<Row>, u: int): seq<Row> {
    Rev(Owned(rows, u))
  }

  lemma FeedDescending(rows: seq<Row>, u: int)
    requires KeySorted(rows) && InRange(rows)
    ensures Descending(FeedOf(rows, u))
  {
    OwnedAscending(rows, u);
  }

  lemma FeedMembers(rows: seq<Row>, u: int, r: Row)
    ensures r in FeedOf(rows, u) <==> r in rows && r.owner == u
  {
    OwnedMembers(rows, u, r);
    InRev(Owned(rows, u), r);
  }
}

/** The ORM over one HBase table: writing, reading and scanning instances of a schema. */
module HBaseOrm {
  import opened Outcomes
  import opened Text
  import opened RowCodec
  import opened HTable

  /** The row an instance is stored as, or why it cannot be stored. */
  function Prepare(schema: Schema, data: Data): Result<Entry>
    requires ValidSchema(schema)
  {
    if RowData(schema, data) == map[] then Err(EmptyColumn)
    else
      var key :- RowKey(schema, data, false);
      Ok(Entry(key, RowData(schema, data)))
  }

  function PrepareAll(schema: Schema, batch: seq<Data>): Result<seq<Entry>>
    requires ValidSchema(schema)
  {
    if batch == [] then Ok([])
    else
      var first :- Prepare(schema, batch[0]);
      var rest :- PrepareAll(schema, batch[1..]);
      Ok([first] + rest)
  }

  /** A row key given as a tuple; None stands for the end of the known fields. */
  type Tuple = seq<Option<Value>>

  function Zip(names: seq<string>, tuple: Tuple): Data {
    if names == [] || tuple == [] then map[]
    else
      var rest := Zip(names[1..], tuple[1..]);
      if tuple[0].Some? && names[0] !in rest then rest[names[0] := tuple[0].value] else rest
  }

  function TupleKey(schema: Schema, tuple: Option<Tuple>): Result<Option<string>>
    requires ValidSchema(schema)
  {
    if tuple.None? then Ok(None)
    else
      var key :- RowKey(schema, Zip(schema.rowKey, tuple.value), true);
      Ok(Some(key))
  }

  function ReadAll(schema: Schema, rows: seq<Entry>): Result<seq<Data>>
    requires forall e :: e in rows ==> e.columns != map[]
  {
    if rows == [] then Ok([])
    else
      var first :- InstanceOf(schema, rows[0].key, rows[0].columns);
      var rest :- ReadAll(schema, rows[1..]);
      Ok([first.value] + rest)
  }

  function ScanRange(start: Option<string>, stop: Option<string>, prefix: Option<string>, reverse: bool): Range {
    if prefix.Some? then WithPrefix(prefix.value)
    else if reverse then Downward(start, stop)
    else Upward(start, stop)
  }

  /** Every stored row has columns, and only columns of declared fields. */
  ghost predicate Stored(schema: Schema, entries: seq<Entry>) {
    && Sorted(entries)
    && forall e :: e in entries ==> e.columns != map[] && OwnColumns(schema, e.columns)
  }

  function FilterResult(schema: Schema, entries: seq<Entry>, start: Option<Tuple>, stop: Option<Tuple>,
                        prefix: Option<Tuple>, limit: Option<nat>, reverse: bool): Result<seq<Data>>
    requires ValidSchema(schema)
    requires forall e :: e in entries ==> e.columns != map[]
  {
    var rowStart :- TupleKey(schema, start);
    var rowStop :- TupleKey(schema, stop);
    var rowPrefix :- TupleKey(schema, prefix);
    var range := ScanRange(rowStart, rowStop, rowPrefix, reverse);
    ScanSome(entries, range, limit, reverse);
    ReadAll(schema, Scan(entries, range, limit, reverse))
  }

  /** What a loop has collected so far, followed by what is left to do. */
  function Prepend<T>(done: seq<T>, rest: Result<seq<T>>): Result<seq<T>> {
    if rest.Ok? then Ok(done + rest.value) else rest
  }

  lemma PrependNothing<T>(rest: Result<seq<T>>)
    ensures Prepend([], rest) == rest
  {
    assert rest.Ok? ==> [] + rest.value == rest.value;
  }

  lemma PrependAll<T>(done: seq<T>)
    ensures Prepend(done, Ok([])) == Ok(done)
  {
    assert done + [] == done;
  }

  lemma PrependStep<T>(done: seq<T>, x: T, rest: Result<seq<T>>)
    requires rest.Ok?
    ensures Prepend(done, Ok([x] + rest.value)) == Prepend(done + [x], rest)
  {
    assert done + ([x] + rest.value) == done + [x] + rest.value;
  }

  /** Both succeed with the same value, or both fail. */
  predicate Agree<T(==)>(r: Result<T>, spec: Result<T>) {
    r.Ok? == spec.Ok? && (r.Ok? ==> r == spec)
  }

  class HBaseModel {
    const schema: Schema
    var entries: seq<Entry>

    ghost predicate Valid()
      reads this
    {
      ValidSchema(schema) && Stored(schema, entries)
    }

    constructor (schema: Schema)
      requires ValidSchema(schema)
      ensures Valid() && this.schema == schema && entries == []
    {
      this.schema := schema;
      entries := [];
    }

    method SerializeField(field: Field, value: Value) returns (text: string)
      ensures text == FieldText(field, value)
    {
      text := ValueText(value);
      if field.kind.IntegerKind? {
        ghost var original, zeros := text, 0;
        assert Zeros(0) + text == text;
        while |text| < 16
          invariant text == Zeros(zeros) + original
          invariant zeros > 0 ==> |text| <= 16
        {
          OneMoreZero(zeros, original);
          text := ['0'] + text;
          zeros := zeros + 1;
        }
        EnoughZeros(zeros, original, text);
      }
      if field.reverse {
        text := Rev(text);
      }
    }

    method SerializeRowKey(data: Data, isPrefix: bool) returns (r: Result<string>)
      requires ValidSchema(schema)
      ensures r == RowKey(schema, data, isPrefix)
    {
      var values: seq<string> := [];
      var i := 0;
      ghost var spec := KeyParts(schema, schema.rowKey, data, isPrefix);
      assert schema.rowKey[0..] == schema.rowKey;
      assert spec.Ok? ==> [] + spec.value == spec.value;
      while i < |schema.rowKey|
        invariant i <= |schema.rowKey|
        invariant spec == Prepend(values, KeyParts(schema, schema.rowKey[i..], data, isPrefix))
      {
        assert schema.rowKey[i..][0] == schema.rowKey[i];
        var key := schema.rowKey[i];
        assert schema.rowKey[i..][1..] == schema.rowKey[i + 1..];
        if key !in data {
          if !isPrefix {
            return Err(BadRowKey(key));
          }
          assert values + [] == values;
          break;
        }
        var value := SerializeField(schema.fields[key], data[key]);
        if ':' in value {
          return Err(BadRowKey(key));
        }
        ghost var rest := KeyParts(schema, schema.rowKey[i + 1..], data, isPrefix);
        if rest.Ok? {
          PrependStep(values, value, rest);
        }
        values := values + [value];
        i := i + 1;
      }
      assert values + [] == values;
      var text := JoinAll(values);
      r := Ok(text);
    }

    static method JoinAll(values: seq<string>) returns (text: string)
      ensures text == Join(values)
    {
      text := "";
      var i := |values|;
      while i > 0
        invariant 0 <= i <= |values|
        invariant text == Join(values[i..])
      {
        assert values[i - 1..] == [values[i - 1]] + values[i..];
        text := if i == |values| then values[i - 1] else values[i - 1] + ":" + text;
        i := i - 1;
      }
    }

    method SerializeRowData(data: Data) returns (columns: map<string, string>)
      requires ValidSchema(schema)
      ensures columns == RowData(schema, data)
    {
      columns := map[];
      var todo := schema.fields.Keys;
      NoField(schema, data);
      while todo != {}
        invariant todo <= schema.fields.Keys
        invariant columns == RowData(schema, data - todo)
        decreases |todo|
      {
        var key :| key in todo;
        OneMoreField(schema, data, todo, key);
        var field := schema.fields[key];
        if HasColumn(field) && key in data {
          var text := SerializeField(field, data[key]);
          columns := columns[ColumnKey(schema, key) := text];
        }
        todo := todo - {key};
      }
      assert data - todo == data;
    }

    method DeserializeRowKey(key: string) returns (r: Result<Data>)
      requires ValidSchema(schema)
      ensures r == DecodeRowKey(schema, key)
    {
      var data: Data := map[];
      var text := key + ":";
      var i := 0;
      while i < |schema.rowKey|
        invariant i <= |schema.rowKey|
        invariant DecodeRowKey(schema, key) == DecodeKey(schema, schema.rowKey[i..], text, data)
      {
        var index := Find(text);
        if index == -1 {
          return Ok(data);
        }
        assert schema.rowKey[i..][1..] == schema.rowKey[i + 1..];
        var value := DeserializeField(schema, schema.rowKey[i], text[..index]);
        if value.Err? {
          return Err(value.error);
        }
        data := data[schema.rowKey[i] := value.value];
        text := text[index + 1..];
        i := i + 1;
      }
      r := Ok(data);
    }

    /** The columns of a row come in no particular order, so the loop takes them in any. */
    method InitFromRow(key: string, columns: map<string, string>) returns (r: Result<Option<Data>>)
      requires ValidSchema(schema) && OwnColumns(schema, columns)
      ensures Agree(r, InstanceOf(schema, key, columns))
      ensures r.Ok? ==> (r.value.None? <==> columns == map[])
    {
      if columns == map[] {
        return Ok(None);
      }
      var keyData := DeserializeRowKey(key);
      if keyData.Err? {
        return Err(keyData.error);
      }
      var data := ReadColumns(columns, keyData.value);
      r := if data.Ok? then Ok(Some(data.value)) else Err(data.error);
    }

    method ReadColumns(columns: map<string, string>, keyData: Data) returns (r: Result<Data>)
      requires ValidSchema(schema) && OwnColumns(schema, columns)
      ensures r.Ok? <==> ReadableColumns(schema, columns)
      ensures r.Ok? ==> r.value == keyData + ColumnValues(schema, columns)
    {
      var data := keyData;
      var todo := columns.Keys;
      NoneDone(schema, columns, keyData);
      while todo != {}
        invariant todo <= columns.Keys
        invariant ReadSoFar(schema, columns, keyData, todo, data)
        decreases |todo|
      {
        var column :| column in todo;
        OwnColumn(schema, columns, column);
        var value := DeserializeField(schema, NameOf(column), columns[column]);
        if value.Err? {
          return Err(value.error);
        }
        OneMoreColumn(schema, columns, todo, NameOf(column), keyData);
        data := data[NameOf(column) := value.value];
        todo := todo - {column};
      }
      AllDone(columns);
      r := Ok(data);
    }

    method SerializeRowKeyFromTuple(tuple: Option<Tuple>) returns (r: Result<Option<string>>)
      requires ValidSchema(schema)
      ensures r == TupleKey(schema, tuple)
    {
      if tuple.None? {
        return Ok(None);
      }
      var key := SerializeRowKey(Zip(schema.rowKey, tuple.value), true);
      r := if key.Ok? then Ok(Some(key.value)) else Err(key.error);
    }

    /** save without a batch, and create: the row is written, or an error leaves the table alone. */
    method Save(data: Data) returns (r: Result<Data>)
      requires Valid()
      modifies this`entries
      ensures Valid()
      ensures Prepare(schema, data).Ok? ==>
          var put := Prepare(schema, data).value;
          r == Ok(data) && entries == Put(old(entries), put.key, put.columns)
      ensures Prepare(schema, data).Err? ==> r == Err(Prepare(schema, data).error) && entries == old(entries)
    {
      var columns := SerializeRowData(data);
      if columns == map[] {
        return Err(EmptyColumn);
      }
      var key := SerializeRowKey(data, false);
      if key.Err? {
        return Err(key.error);
      }
      PutKeepsStored(schema, data, entries, key.value);
      entries := Put(entries, key.value, columns);
      r := Ok(data);
    }

    /** The batch collects its rows; an instance that cannot be stored stops it before it is sent. */
    method PrepareBatch(batch: seq<Data>) returns (r: Result<seq<Entry>>)
      requires ValidSchema(schema)
      ensures r == PrepareAll(schema, batch)
    {
      var puts: seq<Entry> := [];
      var i := 0;
      assert batch[0..] == batch;
      assert [] + PrepareAll(schema, batch).GetOr([]) == PrepareAll(schema, batch).GetOr([]);
      while i < |batch|
        invariant i <= |batch|
        invariant PrepareAll(schema, batch) == Prepend(puts, PrepareAll(schema, batch[i..]))
      {
        assert batch[i..][0] == batch[i] && batch[i..][1..] == batch[i + 1..];
        var columns := SerializeRowData(batch[i]);
        if columns == map[] {
          return Err(EmptyColumn);
        }
        var key := SerializeRowKey(batch[i], false);
        if key.Err? {
          return Err(key.error);
        }
        ghost var rest := PrepareAll(schema, batch[i + 1..]);
        if rest.Ok? {
          PrependStep(puts, Entry(key.value, columns), rest);
        }
        puts := puts + [Entry(key.value, columns)];
        i := i + 1;
      }
      assert puts + [] == puts;
      r := Ok(puts);
    }

    method BatchCreate(batch: seq<Data>) returns (r: Result<seq<Data>>)
      requires Valid()
      modifies this`entries
      ensures Valid()
      ensures PrepareAll(schema, batch).Ok? ==>
          r == Ok(batch) && entries == PutAll(old(entries), PrepareAll(schema, batch).value)
      ensures PrepareAll(schema, batch).Err? ==> r == Err(PrepareAll(schema, batch).error) && entries == old(entries)
    {
      var puts := PrepareBatch(batch);
      if puts.Err? {
        return Err(puts.error);
      }
      PutAllKeepsStored(schema, batch, entries);
      entries := PutAll(entries, puts.value);
      r := Ok(batch);
    }

    method Get(data: Data) returns (r: Result<Option<Data>>)
      requires Valid()
      ensures RowKey(schema, data, false).Err? ==> r.Err?
      ensures RowKey(schema, data, false).Ok? ==>
          var key := RowKey(schema, data, false).value;
          && Agree(r, InstanceOf(schema, key, Columns(entries, key)))
          && ((forall e :: e in entries ==> e.key != key) ==> r == Ok(None))
          && (forall e :: e in entries && e.key == key ==> Agree(r, InstanceOf(schema, key, e.columns)))
    {
      var key := SerializeRowKey(data, false);
      if key.Err? {
        return Err(key.error);
      }
      ColumnsOf(entries, key.value);
      StoredColumns(schema, entries, key.value);
      r := InitFromRow(key.value, Columns(entries, key.value));
    }

    method Delete(data: Data) returns (r: Result<()>)
      requires Valid()
      modifies this`entries
      ensures Valid()
      ensures RowKey(schema, data, false).Ok? ==>
          r.Ok? && entries == Remove(old(entries), RowKey(schema, data, false).value)
      ensures RowKey(schema, data, false).Err? ==> r.Err? && entries == old(entries)
    {
      var key := SerializeRowKey(data, false);
      if key.Err? {
        return Err(key.error);
      }
      RemoveEffect(entries, key.value);
      entries := Remove(entries, key.value);
      r := Ok(());
    }

    /** The client library refuses a prefix together with a key range. */
    method Filter(start: Option<Tuple>, stop: Option<Tuple>, prefix: Option<Tuple>, limit: Option<nat>, reverse: bool)
      returns (r: Result<seq<Data>>)
      requires Valid()
      requires prefix.Some? ==> start.None? && stop.None?
      ensures Agree(r, FilterResult(schema, entries, start, stop, prefix, limit, reverse))
    {
      var rowStart := SerializeRowKeyFromTuple(start);
      if rowStart.Err? { return Err(rowStart.error); }
      var rowStop := SerializeRowKeyFromTuple(stop);
      if rowStop.Err? { return Err(rowStop.error); }
      var rowPrefix := SerializeRowKeyFromTuple(prefix);
      if rowPrefix.Err? { return Err(rowPrefix.error); }
      var range := ScanRange(rowStart.value, rowStop.value, rowPrefix.value, reverse);
      ScanSome(entries, range, limit, reverse);
      r := ReadRows(Scan(entries, range, limit, reverse));
    }

    method ReadRows(rows: seq<Entry>) returns (r: Result<seq<Data>>)
      requires ValidSchema(schema)
      requires forall e :: e in rows ==> e.columns != map[] && OwnColumns(schema, e.columns)
      ensures Agree(r, ReadAll(schema, rows))
    {
      var instances: seq<Data> := [];
      ReadNone(schema, rows);
      for i := 0 to |rows|
        invariant RowsRead(schema, rows, i, instances)
      {
        assert rows[i] in rows;
        assert rows[i].columns != map[] && OwnColumns(schema, rows[i].columns);
        var instance := InitFromRow(rows[i].key, rows[i].columns);
        ReadOne(schema, rows, i, instances, instance);
        if instance.Err? { return Err(instance.error); }
        instances := instances + [instance.value.value];
      }
      ReadEnd(schema, rows, instances);
      r := Ok(instances);
    }
  }

  /** The first i rows have been read into these instances. */
  ghost predicate RowsRead(schema: Schema, rows: seq<Entry>, i: nat, instances: seq<Data>)
    requires i <= |rows| && forall e :: e in rows ==> e.columns != map[]
  {
    ReadAll(schema, rows) == Prepend(instances, ReadAll(schema, rows[i..]))
  }

  lemma ReadNone(schema: Schema, rows: seq<Entry>)
    requires forall e :: e in rows ==> e.columns != map[]
    ensures RowsRead(schema, rows, 0, [])
  {
    assert rows[0..] == rows;
    PrependNothing(ReadAll(schema, rows));
  }

  lemma ReadEnd(schema: Schema, rows: seq<Entry>, instances: seq<Data>)
    requires forall e :: e in rows ==> e.columns != map[]
    requires RowsRead(schema, rows, |rows|, instances)
    ensures ReadAll(schema, rows) == Ok(instances)
  {
    PrependAll(instances);
  }

  lemma ReadOne(schema: Schema, rows: seq<Entry>, i: nat, instances: seq<Data>, instance: Result<Option<Data>>)
    requires i < |rows| && forall e :: e in rows ==> e.columns != map[]
    requires RowsRead(schema, rows, i, instances)
    requires Agree(instance, InstanceOf(schema, rows[i].key, rows[i].columns))
    ensures instance.Ok? ==> instance.value.Some?
    ensures instance.Ok? ==> RowsRead(schema, rows, i + 1, instances + [instance.value.value])
    ensures instance.Err? ==> ReadAll(schema, rows).Err?
  {
    ReadAllStep(schema, rows, i, instances);
  }

  lemma ReadAllStep(schema: Schema, rows: seq<Entry>, i: nat, instances: seq<Data>)
    requires i < |rows| && forall e :: e in rows ==> e.columns != map[]
    ensures var first := InstanceOf(schema, rows[i].key, rows[i].columns);
        Prepend(instances, ReadAll(schema, rows[i..]))
          == if first.Ok? then Prepend(instances + [first.value.value], ReadAll(schema, rows[i + 1..]))
             else first.PropagateFailure()
  {
    var first := InstanceOf(schema, rows[i].key, rows[i].columns);
    var rest := ReadAll(schema, rows[i + 1..]);
    assert rows[i..][0] == rows[i] && rows[i..][1..] == rows[i + 1..];
    if first.Ok? && rest.Ok? {
      PrependStep(instances, first.value.value, rest);
    }
  }

  lemma NoField(schema: Schema, data: Data)
    requires ValidSchema(schema)
    ensures RowData(schema, data - schema.fields.Keys) == map[]
  {
    assert StoredNames(schema, data - schema.fields.Keys) == {};
  }

  lemma OneMoreField(schema: Schema, data: Data, todo: set<string>, key: string)
    requires ValidSchema(schema) && todo <= schema.fields.Keys && key in todo
    ensures RowData(schema, data - (todo - {key}))
        == if HasColumn(schema.fields[key]) && key in data
           then RowData(schema, data - todo)[ColumnKey(schema, key) := FieldText(schema.fields[key], data[key])]
           else RowData(schema, data - todo)
  {
    var before, after := data - todo, data - (todo - {key});
    if HasColumn(schema.fields[key]) && key in data {
      OneMoreStored(schema, before, after, key);
    } else {
      SameStored(schema, before, after);
    }
  }

  lemma SameStored(schema: Schema, a: Data, b: Data)
    requires ValidSchema(schema)
    requires forall k :: k in schema.fields && HasColumn(schema.fields[k]) ==>
      (k in a <==> k in b) && (k in a ==> a[k] == b[k])
    ensures RowData(schema, a) == RowData(schema, b)
  {
    assert StoredNames(schema, a) == StoredNames(schema, b);
    NamesOfColumns(schema, StoredNames(schema, a));
    assert RowData(schema, a).Keys == RowData(schema, b).Keys;
  }

  lemma OneMoreStored(schema: Schema, before: Data, after: Data, key: string)
    requires ValidSchema(schema) && key in schema.fields && HasColumn(schema.fields[key])
    requires key in after && key !in before
    requires forall k :: k in schema.fields && k != key ==>
      (k in before <==> k in after) && (k in before ==> before[k] == after[k])
    ensures RowData(schema, after)
        == RowData(schema, before)[ColumnKey(schema, key) := FieldText(schema.fields[key], after[key])]
  {
    var columns, more := RowData(schema, before), RowData(schema, after);
    assert StoredNames(schema, after) == StoredNames(schema, before) + {key};
    ColumnsAre(schema, before);
    ColumnsAre(schema, after);
    assert more.Keys == columns.Keys + {ColumnKey(schema, key)};
    forall c | c in columns && c != ColumnKey(schema, key) ensures more[c] == columns[c] {
      var k :| k in StoredNames(schema, before) && ColumnKey(schema, k) == c;
      assert k in StoredNames(schema, after);
    }
    OneMoreEntry(columns, more, ColumnKey(schema, key));
  }

  lemma OneMoreEntry<K, V>(m: map<K, V>, more: map<K, V>, key: K)
    requires more.Keys == m.Keys + {key} && forall c :: c in m && c != key ==> more[c] == m[c]
    ensures more == m[key := more[key]]
  {
  }

  /** The columns of an instance, one for each stored field. */
  lemma ColumnsAre(schema: Schema, data: Data)
    requires ValidSchema(schema)
    ensures RowData(schema, data).Keys == set k | k in StoredNames(schema, data) :: ColumnKey(schema, k)
    ensures forall k :: k in StoredNames(schema, data) ==>
      RowData(schema, data)[ColumnKey(schema, k)] == FieldText(schema.fields[k], data[k])
  {
    NamesOfColumns(schema, StoredNames(schema, data));
  }

  lemma NamesOfColumns(schema: Schema, names: set<string>)
    requires ValidSchema(schema) && forall k :: k in names ==> k in schema.fields && HasColumn(schema.fields[k])
    ensures forall k :: k in names ==> NameOf(ColumnKey(schema, k)) == k
  {
    forall k | k in names ensures NameOf(ColumnKey(schema, k)) == k {
      NameOfColumn(schema, k);
    }
  }

  lemma OwnColumn(schema: Schema, columns: map<string, string>, column: string)
    requires OwnColumns(schema, columns) && column in columns
    ensures NameOf(column) in schema.fields && InRow(schema, columns, NameOf(column))
    ensures ColumnKey(schema, NameOf(column)) == column
    ensures ReadColumn(schema, columns, NameOf(column)) == DeserializeField(schema, NameOf(column), columns[column])
  {
  }

  /** The columns that are no longer to do. */
  function Done(columns: map<string, string>, todo: set<string>): map<string, string> {
    map c | c in columns && c !in todo :: columns[c]
  }

  ghost predicate ReadSoFar(schema: Schema, columns: map<string, string>, keyData: Data, todo: set<string>,
                            data: Data) {
    && ReadableColumns(schema, Done(columns, todo))
    && data == keyData + ColumnValues(schema, Done(columns, todo))
  }

  lemma NoneDone(schema: Schema, columns: map<string, string>, keyData: Data)
    ensures ReadSoFar(schema, columns, keyData, columns.Keys, keyData)
  {
    assert Done(columns, columns.Keys) == map[] && keyData + ColumnValues(schema, map[]) == keyData;
  }

  lemma AllDone(columns: map<string, string>)
    ensures Done(columns, {}) == columns
  {
  }

  lemma OneMoreColumn(schema: Schema, columns: map<string, string>, todo: set<string>, k: string, keyData: Data)
    requires ValidSchema(schema) && OwnColumns(schema, columns)
    requires InRow(schema, columns, k) && ColumnKey(schema, k) in todo
    requires ReadableColumns(schema, Done(columns, todo)) && ReadColumn(schema, columns, k).Ok?
    ensures ReadableColumns(schema, Done(columns, todo - {ColumnKey(schema, k)}))
    ensures keyData + ColumnValues(schema, Done(columns, todo - {ColumnKey(schema, k)}))
        == (keyData + ColumnValues(schema, Done(columns, todo)))[k := ReadColumn(schema, columns, k).value]
  {
    var before, after := Done(columns, todo), Done(columns, todo - {ColumnKey(schema, k)});
    forall j | j in schema.fields ensures SameColumn(schema, before, after, j, k) {
      OtherColumn(schema, columns, todo, j, k);
    }
    MergeColumn(schema, before, after, k, keyData);
  }

  ghost predicate SameColumn(schema: Schema, before: map<string, string>, after: map<string, string>, j: string,
                             k: string) {
    j != k ==>
      && (InRow(schema, after, j) <==> InRow(schema, before, j))
      && (InRow(schema, after, j) ==> ReadColumn(schema, after, j) == ReadColumn(schema, before, j))
  }

  lemma OtherColumn(schema: Schema, columns: map<string, string>, todo: set<string>, j: string, k: string)
    requires ValidSchema(schema) && InRow(schema, columns, k) && j in schema.fields
    ensures SameColumn(schema, Done(columns, todo), Done(columns, todo - {ColumnKey(schema, k)}), j, k)
  {
    if j != k && HasColumn(schema.fields[j]) {
      ColumnKeyInjective(schema, j, k);
    }
  }

  lemma MergeColumn(schema: Schema, before: map<string, string>, after: map<string, string>, k: string, keyData: Data)
    requires forall j :: j in schema.fields ==> SameColumn(schema, before, after, j, k)
    requires ReadableColumns(schema, before) && InRow(schema, after, k) && ReadColumn(schema, after, k).Ok?
    ensures ReadableColumns(schema, after)
    ensures keyData + ColumnValues(schema, after)
        == (keyData + ColumnValues(schema, before))[k := ReadColumn(schema, after, k).value]
  {
    forall j | j in schema.fields && InRow(schema, after, j) ensures ReadColumn(schema, after, j).Ok? {
      assert SameColumn(schema, before, after, j, k);
    }
    var x, y := ColumnValues(schema, before), ColumnValues(schema, after);
    forall j | j != k ensures (j in y <==> j in x) && (j in y ==> y[j] == x[j]) {
      assert j in schema.fields ==> SameColumn(schema, before, after, j, k);
    }
    assert k in y && y[k] == ReadColumn(schema, after, k).value;
    MergeData(keyData, x, y, k);
  }

  lemma MergeData(keyData: Data, x: Data, y: Data, k: string)
    requires k in y
    requires forall j :: j != k ==> (j in y <==> j in x) && (j in y ==> y[j] == x[j])
    ensures keyData + y == (keyData + x)[k := y[k]]
  {
  }

  lemma ColumnKeyInjective(schema: Schema, j: string, k: string)
    requires ValidSchema(schema)
    requires j in schema.fields && HasColumn(schema.fields[j])
    requires k in schema.fields && HasColumn(schema.fields[k])
    ensures ColumnKey(schema, j) == ColumnKey(schema, k) ==> j == k
  {
    NameOfColumn(schema, j);
    NameOfColumn(schema, k);
  }

  lemma RowDataOwn(schema: Schema, data: Data)
    requires ValidSchema(schema)
    ensures OwnColumns(schema, RowData(schema, data))
  {
    forall k | k in StoredNames(schema, data) ensures NameOf(ColumnKey(schema, k)) == k {
      NameOfColumn(schema, k);
    }
  }

  lemma {:induction false} StoredColumns(schema: Schema, entries: seq<Entry>, key: string)
    requires forall e :: e in entries ==> OwnColumns(schema, e.columns)
    ensures OwnColumns(schema, Columns(entries, key))
  {
    if entries != [] && entries[0].key != key {
      StoredColumns(schema, entries[1..], key);
    }
  }

  lemma PutKeepsStored(schema: Schema, data: Data, entries: seq<Entry>, key: string)
    requires ValidSchema(schema) && Stored(schema, entries) && RowData(schema, data) != map[]
    ensures Stored(schema, Put(entries, key, RowData(schema, data)))
  {
    RowDataOwn(schema, data);
    PutEffect(entries, key, RowData(schema, data));
    StoredColumns(schema, entries, key);
  }

  lemma {:induction false} PutAllKeepsStored(schema: Schema, batch: seq<Data>, entries: seq<Entry>)
    requires ValidSchema(schema) && Stored(schema, entries) && PrepareAll(schema, batch).Ok?
    ensures Stored(schema, PutAll(entries, PrepareAll(schema, batch).value))
  {
    if batch != [] {
      var e := Prepare(schema, batch[0]).value;
      PutKeepsStored(schema, batch[0], entries, e.key);
      PutAllKeepsStored(schema, batch[1..], Put(entries, e.key, e.columns));
    }
  }

  // ---------- saving and reading ----------

  lemma ColumnsAdd(schema: Schema, older: Data, data: Data)
    requires ValidSchema(schema)
    ensures RowData(schema, older + data) == RowData(schema, older) + RowData(schema, data)
  {
    var both := older + data;
    assert StoredNames(schema, both) == StoredNames(schema, older) + StoredNames(schema, data);
    ColumnsAre(schema, both);
    ColumnsAre(schema, older);
    ColumnsAre(schema, data);
    var merged := RowData(schema, older) + RowData(schema, data);
    assert RowData(schema, both).Keys == merged.Keys;
    forall c | c in merged ensures RowData(schema, both)[c] == merged[c] {
      var k :| k in StoredNames(schema, both) && ColumnKey(schema, k) == c;
      MergedColumn(schema, older, data, k);
    }
    SameEntries(RowData(schema, both), merged);
  }

  lemma ColumnAt(schema: Schema, data: Data, k: string)
    requires ValidSchema(schema) && k in schema.fields && HasColumn(schema.fields[k])
    ensures ColumnKey(schema, k) in RowData(schema, data) <==> k in data
    ensures k in data ==> RowData(schema, data)[ColumnKey(schema, k)] == FieldText(schema.fields[k], data[k])
  {
    ColumnsAre(schema, data);
    if ColumnKey(schema, k) in RowData(schema, data) {
      var j :| j in StoredNames(schema, data) && ColumnKey(schema, j) == ColumnKey(schema, k);
      ColumnKeyInjective(schema, j, k);
    }
    assert k in data ==> k in StoredNames(schema, data);
  }

  lemma MergedColumn(schema: Schema, older: Data, data: Data, k: string)
    requires ValidSchema(schema) && k in StoredNames(schema, older + data)
    ensures var c, merged := ColumnKey(schema, k), RowData(schema, older) + RowData(schema, data);
      c in RowData(schema, older + data) && c in merged && RowData(schema, older + data)[c] == merged[c]
  {
    ColumnAt(schema, older + data, k);
    ColumnAt(schema, older, k);
    ColumnAt(schema, data, k);
  }

  lemma SameEntries<K, V>(a: map<K, V>, b: map<K, V>)
    requires a.Keys == b.Keys && forall k :: k in b ==> a[k] == b[k]
    ensures a == b
  {
  }

  lemma {:induction false} SameParts(schema: Schema, names: seq<string>, a: Data, b: Data, isPrefix: bool)
    requires forall k :: k in names ==> k in schema.fields
    requires forall k :: k in names ==> (k in a <==> k in b) && (k in a ==> a[k] == b[k])
    ensures KeyParts(schema, names, a, isPrefix) == KeyParts(schema, names, b, isPrefix)
  {
    if names != [] {
      SameParts(schema, names[1..], a, b, isPrefix);
    }
  }

  lemma SameRowKey(schema: Schema, older: Data, data: Data)
    requires ValidSchema(schema) && RowKey(schema, data, false).Ok?
    ensures RowKey(schema, older + data, false) == RowKey(schema, data, false)
  {
    AllPresent(schema, schema.rowKey, data);
    SameParts(schema, schema.rowKey, older + data, data, false);
  }

  /**
    What is read after a save of natural numbers: every kept field of what was saved, and from an
    older row of that key the fields that were not saved again.
   */
  lemma GetSaved(schema: Schema, entries: seq<Entry>, older: Data, data: Data)
    requires ValidSchema(schema) && Sorted(entries) && Prepare(schema, data).Ok?
    requires forall k :: k in data ==> data[k].IntValue? && data[k].n >= 0
    requires forall k :: k in older ==> older[k].IntValue? && older[k].n >= 0
    requires var key := Prepare(schema, data).value.key;
      forall e :: e in entries && e.key == key ==> e.columns == RowData(schema, older)
    requires var key := Prepare(schema, data).value.key;
      (forall e :: e in entries ==> e.key != key) ==> older == map[]
    ensures var put := Prepare(schema, data).value;
      var after := Put(entries, put.key, put.columns);
      forall e :: e in after && e.key == put.key ==>
        InstanceOf(schema, put.key, e.columns) == Ok(Some(Kept(schema, older + data)))
    ensures var put := Prepare(schema, data).value;
      exists e :: e in Put(entries, put.key, put.columns) && e.key == put.key
  {
    var put := Prepare(schema, data).value;
    PutAdds(entries, put.key, put.columns);
    FoundAfterPut(schema, entries, older, put);
    ColumnsOf(Put(entries, put.key, put.columns), put.key);
    MergedReadsBack(schema, older, data);
  }

  lemma MergedReadsBack(schema: Schema, older: Data, data: Data)
    requires ValidSchema(schema) && Prepare(schema, data).Ok?
    requires forall k :: k in data ==> data[k].IntValue? && data[k].n >= 0
    requires forall k :: k in older ==> older[k].IntValue? && older[k].n >= 0
    ensures var put := Prepare(schema, data).value;
      InstanceOf(schema, put.key, RowData(schema, older) + put.columns) == Ok(Some(Kept(schema, older + data)))
  {
    ColumnsAdd(schema, older, data);
    SameRowKey(schema, older, data);
    RowRoundTrip(schema, older + data);
  }

  lemma FoundAfterPut(schema: Schema, entries: seq<Entry>, older: Data, put: Entry)
    requires ValidSchema(schema) && Sorted(entries)
    requires forall e :: e in entries && e.key == put.key ==> e.columns == RowData(schema, older)
    requires (forall e :: e in entries ==> e.key != put.key) ==> older == map[]
    ensures Entry(put.key, RowData(schema, older) + put.columns) in Put(entries, put.key, put.columns)
  {
    PutAdds(entries, put.key, put.columns);
    if e :| e in entries && e.key == put.key {
    } else {
      assert StoredNames(schema, map[]) == {};
      NothingAdded(put.columns);
    }
  }

  /** A row of another key is read as before; after a delete of its key there is nothing to read. */
  lemma GetElsewhere(entries: seq<Entry>, put: Entry, key: string)
    requires Sorted(entries) && put.key != key
    ensures forall e: Entry :: e.key == key ==> (e in Put(entries, put.key, put.columns) <==> e in entries)
    ensures forall e :: e in Remove(entries, key) ==> e.key != key
    ensures forall e: Entry :: e.key != key ==> (e in Remove(entries, key) <==> e in entries)
  {
    PutAdds(entries, put.key, put.columns);
    RemoveEffect(entries, key);
  }

  /** What save refuses: an instance without a set column, and otherwise one without a whole key. */
  lemma SaveRefuses(schema: Schema, data: Data)
    requires ValidSchema(schema)
    ensures Prepare(schema, data) == Err(EmptyColumn) <==>
      forall k :: k in schema.fields && HasColumn(schema.fields[k]) ==> k !in data
    ensures Prepare(schema, data).Ok? <==>
      && RowKey(schema, data, false).Ok?
      && exists k :: k in schema.fields && HasColumn(schema.fields[k]) && k in data
  {
    if k :| k in StoredNames(schema, data) {
      assert ColumnKey(schema, k) in RowData(schema, data);
    } else {
      assert forall k :: k in schema.fields && HasColumn(schema.fields[k]) ==> k !in StoredNames(schema, data);
      assert StoredNames(schema, data) == {};
      assert RowData(schema, data) == map[];
    }
    KeyErrorKind(schema, schema.rowKey, data);
  }

  lemma {:induction false} KeyErrorKind(schema: Schema, names: seq<string>, data: Data)
    requires forall k :: k in names ==> k in schema.fields
    ensures KeyParts(schema, names, data, false) != Err(EmptyColumn)
  {
    if names != [] {
      KeyErrorKind(schema, names[1..], data);
    }
  }

  /** The instances of a scan are those of its rows, one by one, and one unreadable row fails the scan. */
  lemma {:induction false} ReadEach(schema: Schema, rows: seq<Entry>)
    requires forall e :: e in rows ==> e.columns != map[]
    ensures ReadAll(schema, rows).Ok? <==>
      forall i :: 0 <= i < |rows| ==> InstanceOf(schema, rows[i].key, rows[i].columns).Ok?
    ensures ReadAll(schema, rows).Ok? ==>
      && |ReadAll(schema, rows).value| == |rows|
      && forall i :: 0 <= i < |rows| ==>
           InstanceOf(schema, rows[i].key, rows[i].columns) == Ok(Some(ReadAll(schema, rows).value[i]))
  {
    if rows != [] {
      var tail := rows[1..];
      ReadEach(schema, tail);
      assert forall i :: 0 <= i < |tail| ==> tail[i] == rows[i + 1];
      assert forall i :: 0 < i < |rows| ==> rows[i] == tail[i - 1];
    }
  }
}

/**
  The row codec of the HBase ORM: how the fields of an instance become a row key and columns,
  and how they are read back.
 */
module RowCodec {
  import opened Outcomes
  import opened Text

  datatype Kind = IntegerKind | TimestampKind

  datatype Field = Field(kind: Kind, reverse: bool, family: Option<string>)

  /** A model class: its declared fields and the order of its row key (Meta.row_key). */
  datatype Schema = Schema(fields: map<string, Field>, rowKey: seq<string>)

  datatype Value = IntValue(n: int) | StrValue(s: string)

  /** The attributes of an instance that are not None. */
  type Data = map<string, Value>

  predicate ValidSchema(schema: Schema) {
    && (forall k :: k in schema.rowKey ==> k in schema.fields)
    && (forall k :: k in schema.fields && schema.fields[k].family.Some? ==>
          ':' !in schema.fields[k].family.value)
  }

  predicate HasColumn(f: Field) {
    f.family.Some? && f.family.value != ""
  }

  // ---------- writing ----------

  function ValueText(v: Value): string {
    match v
    case IntValue(n) => StrInt(n)
    case StrValue(s) => s
  }

  function FieldText(f: Field, v: Value): string {
    var text := if f.kind.IntegerKind? then Pad16(ValueText(v)) else ValueText(v);
    if f.reverse then Rev(text) else text
  }

  function KeyParts(schema: Schema, names: seq<string>, data: Data, isPrefix: bool): Result<seq<string>>
    requires forall k :: k in names ==> k in schema.fields
  {
    if names == [] then Ok([])
    else if names[0] !in data then
      if isPrefix then Ok([]) else Err(BadRowKey(names[0]))
    else
      var text := FieldText(schema.fields[names[0]], data[names[0]]);
      if ':' in text then Err(BadRowKey(names[0]))
      else
        var rest :- KeyParts(schema, names[1..], data, isPrefix);
        Ok([text] + rest)
  }

  function Join(parts: seq<string>): string {
    if parts == [] then ""
    else if |parts| == 1 then parts[0]
    else parts[0] + ":" + Join(parts[1..])
  }

  function RowKey(schema: Schema, data: Data, isPrefix: bool): Result<string>
    requires ValidSchema(schema)
  {
    var parts :- KeyParts(schema, schema.rowKey, data, isPrefix);
    Ok(Join(parts))
  }

  function ColumnKey(schema: Schema, name: string): string
    requires name in schema.fields && HasColumn(schema.fields[name])
  {
    schema.fields[name].family.value + ":" + name
  }

  /** find(':'): the first position of a colon, or -1. */
  function Find(s: string): (i: int)
    ensures -1 <= i < |s|
    ensures i == -1 ==> ':' !in s
    ensures i >= 0 ==> s[i] == ':' && forall j :: 0 <= j < i ==> s[j] != ':'
  {
    if s == [] then -1
    else if s[0] == ':' then 0
    else
      var i := Find(s[1..]);
      if i == -1 then -1 else i + 1
  }

  function NameOf(column: string): string {
    column[Find(column) + 1..]
  }

  function StoredNames(schema: Schema, data: Data): set<string> {
    set k | k in schema.fields && k in data && HasColumn(schema.fields[k])
  }

  function RowData(schema: Schema, data: Data): map<string, string>
    requires ValidSchema(schema)
  {
    var columns := set k | k in StoredNames(schema, data) :: ColumnKey(schema, k);
    assert forall c :: c in columns ==> NameOf(c) in StoredNames(schema, data) by {
      forall k | k in StoredNames(schema, data) ensures NameOf(ColumnKey(schema, k)) == k {
        NameOfColumn(schema, k);
      }
    }
    map c | c in columns :: FieldText(schema.fields[NameOf(c)], data[NameOf(c)])
  }

  // ---------- reading ----------

  function DeserializeField(schema: Schema, name: string, text: string): Result<Value> {
    if name !in schema.fields then Err(UnknownField)
    else
      match ParseInt(if schema.fields[name].reverse then Rev(text) else text)
      case Some(n) => Ok(IntValue(n))
      case None => Err(NotAnInteger)
  }

  function DecodeKey(schema: Schema, names: seq<string>, text: string, read: Data): Result<Data> {
    if names == [] || Find(text) == -1 then Ok(read)
    else
      var value :- DeserializeField(schema, names[0], text[..Find(text)]);
      DecodeKey(schema, names[1..], text[Find(text) + 1..], read[names[0] := value])
  }

  function DecodeRowKey(schema: Schema, key: string): Result<Data> {
    DecodeKey(schema, schema.rowKey, key + ":", map[])
  }

  /** Every column was written for a declared field of the schema. */
  predicate OwnColumns(schema: Schema, columns: map<string, string>) {
    forall c :: c in columns ==>
      && NameOf(c) in schema.fields
      && HasColumn(schema.fields[NameOf(c)])
      && ColumnKey(schema, NameOf(c)) == c
  }

  /** The field k has a column in this row. */
  predicate InRow(schema: Schema, columns: map<string, string>, k: string) {
    k in schema.fields && HasColumn(schema.fields[k]) && ColumnKey(schema, k) in columns
  }

  function ReadColumn(schema: Schema, columns: map<string, string>, k: string): Result<Value>
    requires InRow(schema, columns, k)
  {
    DeserializeField(schema, k, columns[ColumnKey(schema, k)])
  }

  predicate ReadableColumns(schema: Schema, columns: map<string, string>) {
    forall k :: k in schema.fields && InRow(schema, columns, k) ==> ReadColumn(schema, columns, k).Ok?
  }

  function ColumnValues(schema: Schema, columns: map<string, string>): Data
    requires ReadableColumns(schema, columns)
  {
    map k | k in schema.fields && InRow(schema, columns, k) :: ReadColumn(schema, columns, k).value
  }

  /** The instance of a row: None for a row without columns. */
  function InstanceOf(schema: Schema, key: string, columns: map<string, string>): Result<Option<Data>> {
    if columns == map[] then Ok(None)
    else
      var data :- DecodeRowKey(schema, key);
      if ReadableColumns(schema, columns) then Ok(Some(data + ColumnValues(schema, columns)))
      else Err(NotAnInteger)
  }

  // ---------- lemmas ----------

  lemma FindAfter(head: string, tail: string)
    requires ':' !in head
    ensures Find(head + ":" + tail) == |head|
  {
    var s := head + ":" + tail;
    assert s[|head|] == ':';
    assert forall j :: 0 <= j < |head| ==> s[j] == head[j];
  }

  lemma NameOfColumn(schema: Schema, name: string)
    requires ValidSchema(schema) && name in schema.fields && HasColumn(schema.fields[name])
    ensures NameOf(ColumnKey(schema, name)) == name
  {
    var family := schema.fields[name].family.value;
    FindAfter(family, name);
  }

  lemma NaturalFieldText(f: Field, n: nat)
    ensures FieldText(f, IntValue(n)) != "" && AllDigits(FieldText(f, IntValue(n)))
    ensures ':' !in FieldText(f, IntValue(n))
  {
  }

  lemma ReadBack(schema: Schema, name: string, v: Value)
    requires name in schema.fields
    ensures DeserializeField(schema, name, FieldText(schema.fields[name], v))
        == match ParseInt(if schema.fields[name].kind.IntegerKind? then Pad16(ValueText(v)) else ValueText(v))
           case Some(m) => Ok(IntValue(m))
           case None => Err(NotAnInteger)
  {
    RevRev(if schema.fields[name].kind.IntegerKind? then Pad16(ValueText(v)) else ValueText(v));
  }

  lemma ParseOfNatural(n: nat)
    ensures ParseInt(Str(n)) == Some(n) && ParseInt(Pad16(Str(n))) == Some(n)
  {
    PadKeepsNumber(Str(n));
    DigitsOfStr(n);
  }

  /** A minus sign survives the padding exactly when there are fifteen digits behind it. */
  lemma ParseOfNegative(n: nat)
    requires n > 0
    ensures ParseInt("-" + Str(n)) == Some(0 - n)
    ensures ParseInt(Pad16("-" + Str(n))) == Some(0 - n) <==> |Str(n)| > 14
  {
    var text := "-" + Str(n);
    MinusSign(text, n);
    if |text| < 16 {
      PaddedNegative(text);
    }
  }

  lemma MinusSign(text: string, n: nat)
    requires text == "-" + Str(n)
    ensures ParseInt(text) == Some(0 - n)
  {
    assert text[0] == '-' && text[1..] == Str(n);
    DigitsOfStr(n);
  }

  lemma PaddedNegative(text: string)
    requires 0 < |text| < 16 && text[0] == '-'
    ensures ParseInt(Pad16(text)) == None
  {
    var stored := Pad16(text);
    assert stored[16 - |text|] == '-' && stored[0] == '0';
  }

  const TEN_TO_14 := 100000000000000

  lemma ParseOfText(n: int)
    ensures ParseInt(StrInt(n)) == Some(n)
    ensures ParseInt(Pad16(StrInt(n))) == Some(n) <==> n >= 0 || n <= 0 - TEN_TO_14
  {
    if n >= 0 {
      ParseOfNatural(n);
    } else {
      ParseOfNegative(-n);
      FifteenDigits(-n);
    }
  }

  lemma FifteenDigits(n: nat)
    ensures |Str(n)| > 14 <==> n >= TEN_TO_14
  {
    StrLength(n, 14);
    assert Pow10(7) == 10000000;
    assert Pow10(14) == TEN_TO_14;
  }

  /**
    A field gives its integer back exactly when it is not negative, or not padded, or so
    negative that padding adds nothing: "-5" is stored as 00000000000000-5, which int() rejects.
   */
  lemma FieldRoundTrip(schema: Schema, name: string, n: int)
    requires name in schema.fields
    ensures DeserializeField(schema, name, FieldText(schema.fields[name], IntValue(n))) == Ok(IntValue(n))
        <==> n >= 0 || schema.fields[name].kind.TimestampKind? || n <= 0 - TEN_TO_14
  {
    ReadBack(schema, name, IntValue(n));
    ParseOfText(n);
  }

  /** The row key fields present before the first missing one. */
  function Leading(names: seq<string>, data: Data): seq<string> {
    if names == [] || names[0] !in data then [] else [names[0]] + Leading(names[1..], data)
  }

  function LeadingData(names: seq<string>, data: Data): Data {
    map k | k in Leading(names, data) && k in data :: data[k]
  }

  ghost predicate Naturals(names: seq<string>, data: Data) {
    forall k :: k in names && k in data ==> data[k].IntValue? && data[k].n >= 0
  }

  function Tail(parts: seq<string>): string {
    if parts == [] then "" else Join(parts) + ":"
  }

  /** Natural-number fields never meet the colon check, so only a missing field is an error. */
  lemma {:induction false} KeyPartsOfNaturals(schema: Schema, names: seq<string>, data: Data, isPrefix: bool)
    requires forall k :: k in names ==> k in schema.fields
    requires Naturals(names, data)
    ensures KeyParts(schema, names, data, isPrefix).Ok? <==> isPrefix || Leading(names, data) == names
    ensures KeyParts(schema, names, data, isPrefix).Ok? ==>
        |KeyParts(schema, names, data, isPrefix).value| == |Leading(names, data)|
  {
    if names != [] && names[0] in data {
      NaturalFieldText(schema.fields[names[0]], data[names[0]].n);
      KeyPartsOfNaturals(schema, names[1..], data, isPrefix);
      assert names == [names[0]] + names[1..];
    }
  }

  lemma {:induction false} DecodeParts(schema: Schema, names: seq<string>, data: Data, isPrefix: bool, read: Data)
    requires forall k :: k in names ==> k in schema.fields
    requires Naturals(names, data)
    requires KeyParts(schema, names, data, isPrefix).Ok?
    ensures DecodeKey(schema, names, Tail(KeyParts(schema, names, data, isPrefix).value), read)
        == Ok(read + LeadingData(names, data))
  {
    if names == [] || names[0] !in data {
      assert Leading(names, data) == [];
      assert read + LeadingData(names, data) == read;
    } else {
      var name := names[0];
      var text := FieldText(schema.fields[name], data[name]);
      var rest := KeyParts(schema, names[1..], data, isPrefix).value;
      NaturalFieldText(schema.fields[name], data[name].n);
      FieldRoundTrip(schema, name, data[name].n);
      DecodeHead(schema, names, text, rest, data[name], read);
      DecodeParts(schema, names[1..], data, isPrefix, read[name := data[name]]);
      LeadingStep(names, data, read);
    }
  }

  lemma DecodeHead(schema: Schema, names: seq<string>, text: string, rest: seq<string>, value: Value, read: Data)
    requires names != [] && ':' !in text
    requires DeserializeField(schema, names[0], text) == Ok(value)
    ensures DecodeKey(schema, names, Tail([text] + rest), read)
        == DecodeKey(schema, names[1..], Tail(rest), read[names[0] := value])
  {
    var parts := [text] + rest;
    assert parts[1..] == rest;
    assert Tail(parts) == text + ":" + Tail(rest);
    FindAfter(text, Tail(rest));
    assert Tail(parts)[..|text|] == text;
    assert Tail(parts)[|text| + 1..] == Tail(rest);
  }

  lemma LeadingStep(names: seq<string>, data: Data, read: Data)
    requires names != [] && names[0] in data
    ensures read[names[0] := data[names[0]]] + LeadingData(names[1..], data) == read + LeadingData(names, data)
  {
    assert Leading(names, data) == [names[0]] + Leading(names[1..], data);
  }

  /**
    A serialized key, whole or prefix, decodes to the leading fields it was made of. The one
    exception is the empty prefix: int('') fails, unless the schema has no key at all.
   */
  lemma KeyRoundTrip(schema: Schema, data: Data, isPrefix: bool)
    requires ValidSchema(schema) && Naturals(schema.rowKey, data)
    ensures RowKey(schema, data, isPrefix).Ok? <==> isPrefix || forall k :: k in schema.rowKey ==> k in data
    ensures RowKey(schema, data, isPrefix).Ok? ==>
        var lead := Leading(schema.rowKey, data);
        var decoded := DecodeRowKey(schema, RowKey(schema, data, isPrefix).value);
        && (decoded.Ok? <==> lead != [] || schema.rowKey == [])
        && (decoded.Ok? ==> decoded.value == LeadingData(schema.rowKey, data))
  {
    KeyPartsOfNaturals(schema, schema.rowKey, data, isPrefix);
    LeadingIsAll(schema.rowKey, data);
    if RowKey(schema, data, isPrefix).Ok? {
      var parts := KeyParts(schema, schema.rowKey, data, isPrefix).value;
      if parts == [] && schema.rowKey != [] {
        EmptyKeyFails(schema);
      } else {
        WholeDecode(schema, data, isPrefix, parts);
      }
    }
  }

  lemma WholeDecode(schema: Schema, data: Data, isPrefix: bool, parts: seq<string>)
    requires ValidSchema(schema) && Naturals(schema.rowKey, data)
    requires KeyParts(schema, schema.rowKey, data, isPrefix) == Ok(parts) && (parts != [] || schema.rowKey == [])
    ensures DecodeRowKey(schema, Join(parts)) == Ok(LeadingData(schema.rowKey, data))
  {
    DecodeParts(schema, schema.rowKey, data, isPrefix, map[]);
    assert map[] + LeadingData(schema.rowKey, data) == LeadingData(schema.rowKey, data);
    assert schema.rowKey == [] || Tail(parts) == Join(parts) + ":";
  }

  lemma EmptyKeyFails(schema: Schema)
    requires schema.rowKey != []
    ensures DecodeRowKey(schema, "").Err?
  {
    FindAfter("", "");
    var text := "" + ":";
    assert text == "" + ":" + "";
    assert text[..Find(text)] == "";
    assert DeserializeField(schema, schema.rowKey[0], "").Err?;
  }

  lemma {:induction false} LeadingIsAll(names: seq<string>, data: Data)
    ensures Leading(names, data) == names <==> forall k :: k in names ==> k in data
  {
    if names != [] && names[0] in data {
      LeadingIsAll(names[1..], data);
      assert names == [names[0]] + names[1..];
    }
  }

  /** Two instances with the same row key agree on every row key field. */
  lemma KeyInjective(schema: Schema, a: Data, b: Data)
    requires ValidSchema(schema) && Naturals(schema.rowKey, a) && Naturals(schema.rowKey, b)
    requires RowKey(schema, a, false).Ok? && RowKey(schema, a, false) == RowKey(schema, b, false)
    ensures forall k :: k in schema.rowKey ==> k in a && k in b && a[k] == b[k]
  {
    KeyRoundTrip(schema, a, false);
    KeyRoundTrip(schema, b, false);
    LeadingIsAll(schema.rowKey, a);
    LeadingIsAll(schema.rowKey, b);
    var ma := LeadingData(schema.rowKey, a);
    var mb := LeadingData(schema.rowKey, b);
    if schema.rowKey != [] {
      assert ma == mb;
      forall k | k in schema.rowKey ensures a[k] == b[k] {
        assert ma[k] == mb[k];
      }
    }
  }

  /** The part of an instance that a stored row keeps: its key fields and its columns. */
  function Kept(schema: Schema, data: Data): Data {
    map k | k in data && k in schema.fields && (k in schema.rowKey || HasColumn(schema.fields[k])) :: data[k]
  }

  /**
    Round trip of a whole row for any schema: with its key complete and at least one column set,
    a stored instance of natural numbers is read back with every field that the row keeps, and
    with nothing else.
   */
  lemma RowRoundTrip(schema: Schema, data: Data)
    requires ValidSchema(schema)
    requires forall k :: k in data ==> data[k].IntValue? && data[k].n >= 0
    requires RowKey(schema, data, false).Ok? && RowData(schema, data) != map[]
    ensures OwnColumns(schema, RowData(schema, data))
    ensures InstanceOf(schema, RowKey(schema, data, false).value, RowData(schema, data))
        == Ok(Some(Kept(schema, data)))
  {
    WholeKeyRoundTrip(schema, data);
    ColumnsRoundTrip(schema, data);
    KeptParts(schema, data);
  }

  lemma KeptParts(schema: Schema, data: Data)
    requires ValidSchema(schema)
    ensures (map k | k in schema.rowKey && k in data :: data[k]) + (map k | k in StoredNames(schema, data) :: data[k])
        == Kept(schema, data)
  {
  }

  lemma WholeKeyRoundTrip(schema: Schema, data: Data)
    requires ValidSchema(schema) && Naturals(schema.rowKey, data)
    requires RowKey(schema, data, false).Ok?
    ensures DecodeRowKey(schema, RowKey(schema, data, false).value)
        == Ok(map k | k in schema.rowKey && k in data :: data[k])
  {
    KeyRoundTrip(schema, data, false);
    LeadingIsAll(schema.rowKey, data);
  }

  lemma ColumnsRoundTrip(schema: Schema, data: Data)
    requires ValidSchema(schema)
    requires forall k :: k in data ==> data[k].IntValue? && data[k].n >= 0
    ensures OwnColumns(schema, RowData(schema, data))
    ensures ReadableColumns(schema, RowData(schema, data))
    ensures ColumnValues(schema, RowData(schema, data)) == map k | k in StoredNames(schema, data) :: data[k]
  {
    var columns := RowData(schema, data);
    forall k | k in schema.fields
      ensures InRow(schema, columns, k) <==> k in StoredNames(schema, data)
      ensures InRow(schema, columns, k) ==> ReadColumn(schema, columns, k) == Ok(data[k])
    {
      ColumnRoundTrip(schema, data, k);
    }
    forall c | c in columns ensures NameOf(c) in StoredNames(schema, data) && ColumnKey(schema, NameOf(c)) == c {
      var k :| k in StoredNames(schema, data) && c == ColumnKey(schema, k);
      NameOfColumn(schema, k);
    }
  }

  lemma ColumnRoundTrip(schema: Schema, data: Data, k: string)
    requires ValidSchema(schema) && k in schema.fields
    requires k in data ==> data[k].IntValue? && data[k].n >= 0
    ensures InRow(schema, RowData(schema, data), k) <==> k in StoredNames(schema, data)
    ensures InRow(schema, RowData(schema, data), k) ==> ReadColumn(schema, RowData(schema, data), k) == Ok(data[k])
  {
    if HasColumn(schema.fields[k]) {
      NameOfColumn(schema, k);
      if k in data {
        FieldRoundTrip(schema, k, data[k].n);
      }
      forall j | j in StoredNames(schema, data) && ColumnKey(schema, j) == ColumnKey(schema, k) ensures j == k {
        NameOfColumn(schema, j);
      }
    }
  }

  // ---------- keys of any values ----------

  lemma {:induction false} PartsExactly(schema: Schema, names: seq<string>, data: Data, isPrefix: bool, n: nat)
    requires forall k :: k in names ==> k in schema.fields
    requires n <= |names| && (forall i :: 0 <= i < n ==> names[i] in data) && (n < |names| ==> names[n] !in data)
    ensures var parts := KeyParts(schema, names, data, isPrefix);
      && (parts.Ok? <==>
            (n == |names| || isPrefix)
            && forall i :: 0 <= i < n ==> ':' !in FieldText(schema.fields[names[i]], data[names[i]]))
      && (parts.Ok? ==>
            |parts.value| == n
            && forall i :: 0 <= i < n ==> parts.value[i] == FieldText(schema.fields[names[i]], data[names[i]]))
  {
    if n > 0 {
      var rest := names[1..];
      PartsExactly(schema, rest, data, isPrefix, n - 1);
      assert forall i :: 0 <= i < n - 1 ==> rest[i] == names[i + 1];
      assert forall i :: 0 < i < n ==> names[i] == rest[i - 1];
    }
  }

  /**
    A key is an error exactly when a field is missing and the key is no prefix, or a field before
    the first missing one has a colon in its text; whatever the values are.
   */
  lemma KeyExactly(schema: Schema, data: Data, isPrefix: bool, n: nat)
    requires ValidSchema(schema) && n <= |schema.rowKey|
    requires forall i :: 0 <= i < n ==> schema.rowKey[i] in data
    requires n < |schema.rowKey| ==> schema.rowKey[n] !in data
    ensures RowKey(schema, data, isPrefix).Ok? <==>
      (n == |schema.rowKey| || isPrefix)
      && forall i :: 0 <= i < n ==> ':' !in FieldText(schema.fields[schema.rowKey[i]], data[schema.rowKey[i]])
  {
    PartsExactly(schema, schema.rowKey, data, isPrefix, n);
  }

  lemma {:induction false} JoinInjective(a: seq<string>, b: seq<string>)
    requires |a| == |b| && (forall s :: s in a ==> ':' !in s) && (forall s :: s in b ==> ':' !in s)
    requires Join(a) == Join(b)
    ensures a == b
  {
    if |a| > 1 {
      HeadsAgree(a[0], Join(a[1..]), b[0], Join(b[1..]));
      JoinInjective(a[1..], b[1..]);
      assert a == [a[0]] + a[1..] && b == [b[0]] + b[1..];
    }
  }

  lemma HeadsAgree(a: string, x: string, b: string, y: string)
    requires ':' !in a && ':' !in b && a + ":" + x == b + ":" + y
    ensures a == b && x == y
  {
    FindAfter(a, x);
    FindAfter(b, y);
    assert (a + ":" + x)[..|a|] == a && (b + ":" + y)[..|b|] == b;
    assert (a + ":" + x)[|a| + 1..] == x && (b + ":" + y)[|b| + 1..] == y;
  }

  /** Equal keys come from equal field texts, whatever the values are. */
  lemma KeyTextsAgree(schema: Schema, a: Data, b: Data)
    requires ValidSchema(schema) && RowKey(schema, a, false).Ok? && RowKey(schema, a, false) == RowKey(schema, b, false)
    ensures forall k :: k in schema.rowKey ==>
      k in a && k in b && FieldText(schema.fields[k], a[k]) == FieldText(schema.fields[k], b[k])
  {
    AllPresent(schema, schema.rowKey, a);
    AllPresent(schema, schema.rowKey, b);
    var names := schema.rowKey;
    PartsExactly(schema, names, a, false, |names|);
    PartsExactly(schema, names, b, false, |names|);
    var p, q := KeyParts(schema, names, a, false).value, KeyParts(schema, names, b, false).value;
    NoColons(p, schema, names, a);
    NoColons(q, schema, names, b);
    JoinInjective(p, q);
    forall k | k in names ensures FieldText(schema.fields[k], a[k]) == FieldText(schema.fields[k], b[k]) {
      var i :| 0 <= i < |names| && names[i] == k;
      assert p[i] == q[i];
    }
  }

  lemma {:induction false} AllPresent(schema: Schema, names: seq<string>, data: Data)
    requires (forall k :: k in names ==> k in schema.fields) && KeyParts(schema, names, data, false).Ok?
    ensures forall k :: k in names ==> k in data
  {
    if names != [] {
      AllPresent(schema, names[1..], data);
      assert names == [names[0]] + names[1..];
    }
  }

  lemma NoColons(parts: seq<string>, schema: Schema, names: seq<string>, data: Data)
    requires (forall k :: k in names ==> k in schema.fields && k in data) && |parts| == |names|
    requires forall i :: 0 <= i < |names| ==>
      parts[i] == FieldText(schema.fields[names[i]], data[names[i]]) && ':' !in parts[i]
    ensures forall s :: s in parts ==> ':' !in s
  {
  }

  /** An unpadded field keeps its text; padding identifies texts that differ in leading zeros only. */
  lemma FieldTexts(f: Field, s: string, t: string)
    ensures f.kind.TimestampKind? || |s| == |t| ==> (FieldText(f, StrValue(s)) == FieldText(f, StrValue(t)) <==> s == t)
    ensures f.kind.IntegerKind? ==> FieldText(f, StrValue("1")) == FieldText(f, StrValue("01"))
  {
    SameReversed(s, t);
    SameReversed(Pad16(s), Pad16(t));
    SamePadded(s, t);
    assert Zeros(15) + "1" == Zeros(14) + "01";
  }

  lemma SameReversed(s: string, t: string)
    ensures Rev(s) == Rev(t) <==> s == t
  {
    RevRev(s);
    RevRev(t);
  }

  lemma SamePadded(s: string, t: string)
    ensures |s| == |t| ==> (Pad16(s) == Pad16(t) <==> s == t)
  {
    if |s| == |t| < 16 {
      assert Pad16(s)[16 - |s|..] == s && Pad16(t)[16 - |t|..] == t;
    }
  }
}

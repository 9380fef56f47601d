/**
  An HBase table as this program uses it: rows kept in byte order of their keys,
  with put, delete, row and scan.
 */
module HTable {
  import opened Outcomes
  import opened Text
  import opened Feed

  datatype Entry = Entry(key: string, columns: map<string, string>)

  ghost predicate Sorted(entries: seq<Entry>) {
    forall i, j :: 0 <= i < j < |entries| ==> Less(entries[i].key, entries[j].key)
  }

  /** put adds columns to a row, creating the row when it is new. */
  function Put(entries: seq<Entry>, key: string, columns: map<string, string>): seq<Entry> {
    if entries == [] then [Entry(key, columns)]
    else if entries[0].key == key then [Entry(key, entries[0].columns + columns)] + entries[1..]
    else if Less(key, entries[0].key) then [Entry(key, columns)] + entries
    else [entries[0]] + Put(entries[1..], key, columns)
  }

  function PutAll(entries: seq<Entry>, puts: seq<Entry>): seq<Entry>
    decreases |puts|
  {
    if puts == [] then entries
    else PutAll(Put(entries, puts[0].key, puts[0].columns), puts[1..])
  }

  function Remove(entries: seq<Entry>, key: string): seq<Entry> {
    if entries == [] then []
    else if entries[0].key == key then entries[1..]
    else [entries[0]] + Remove(entries[1..], key)
  }

  /** The columns of a row; a missing row has none. */
  function Columns(entries: seq<Entry>, key: string): map<string, string> {
    if entries == [] then map[]
    else if entries[0].key == key then entries[0].columns
    else Columns(entries[1..], key)
  }

  /** What a scan visits. A key range is half open, except that equal ends mean that one row. */
  datatype Range =
    | WithPrefix(prefix: string)
    | Upward(start: Option<string>, stop: Option<string>)
    | Downward(start: Option<string>, stop: Option<string>)

  predicate Hits(range: Range, key: string) {
    match range
    case WithPrefix(prefix) => Prefix(prefix, key)
    case Upward(start, stop) =>
      || (start.Some? && start == stop && key == start.value)
      || ((start.Some? ==> !Less(key, start.value)) && (stop.Some? ==> Less(key, stop.value)))
    case Downward(start, stop) =>
      || (start.Some? && start == stop && key == start.value)
      || ((start.Some? ==> !Less(start.value, key)) && (stop.Some? ==> Less(stop.value, key)))
  }

  function Select(entries: seq<Entry>, range: Range): seq<Entry> {
    if entries == [] then []
    else if Hits(range, entries[0].key) then [entries[0]] + Select(entries[1..], range)
    else Select(entries[1..], range)
  }

  function Scan(entries: seq<Entry>, range: Range, limit: Option<nat>, reverse: bool): seq<Entry> {
    var hits := Select(entries, range);
    var ordered := if reverse then Rev(hits) else hits;
    if limit.Some? then Take(ordered, limit.value) else ordered
  }

  // ---------- lemmas ----------

  lemma {:induction false} SelectSome(entries: seq<Entry>, range: Range)
    ensures forall e :: e in Select(entries, range) ==> e in entries
  {
    if entries != [] {
      SelectSome(entries[1..], range);
    }
  }

  lemma ScanSome(entries: seq<Entry>, range: Range, limit: Option<nat>, reverse: bool)
    ensures forall e :: e in Scan(entries, range, limit, reverse) ==> e in entries
  {
    SelectSome(entries, range);
  }

  /** A put keeps the order and changes exactly the row it names. */
  lemma {:induction false} PutEffect(entries: seq<Entry>, key: string, columns: map<string, string>)
    requires Sorted(entries)
    ensures Sorted(Put(entries, key, columns))
    ensures forall e :: e in Put(entries, key, columns) <==>
        || e == Entry(key, Columns(entries, key) + columns)
        || (e in entries && e.key != key)
  {
    if entries == [] {
      assert map[] + columns == columns;
    } else {
      LessIrreflexive(key);
      if entries[0].key == key {
        forall e | e in entries[1..] ensures e.key != key {
          assert Less(key, e.key);
        }
      } else if Less(key, entries[0].key) {
        AbsentBelow(entries, key);
        assert map[] + columns == columns;
        forall e | e in entries ensures Less(key, e.key) && e.key != key {
          if e != entries[0] {
            LessTransitive(key, entries[0].key, e.key);
          }
        }
      } else {
        LessTotal(key, entries[0].key);
        PutEffect(entries[1..], key, columns);
        var rest := Put(entries[1..], key, columns);
        forall e | e in rest ensures Less(entries[0].key, e.key) {
        }
      }
    }
  }

  lemma {:induction false} AbsentBelow(entries: seq<Entry>, key: string)
    requires Sorted(entries)
    requires entries == [] || Less(key, entries[0].key)
    ensures Columns(entries, key) == map[]
  {
    if entries != [] {
      LessIrreflexive(key);
      if |entries| > 1 {
        LessTransitive(key, entries[0].key, entries[1].key);
      }
      AbsentBelow(entries[1..], key);
    }
  }

  lemma {:induction false} RemoveEffect(entries: seq<Entry>, key: string)
    requires Sorted(entries)
    ensures Sorted(Remove(entries, key))
    ensures forall e :: e in Remove(entries, key) <==> e in entries && e.key != key
  {
    if entries != [] {
      LessIrreflexive(key);
      if entries[0].key == key {
        forall e | e in entries[1..] ensures e.key != key {
          assert Less(key, e.key);
        }
      } else {
        RemoveEffect(entries[1..], key);
      }
    }
  }

  // ---------- what the functions mean, on the stored rows alone ----------

  /** A stored row is found, and a missing row has no columns. */
  lemma {:induction false} ColumnsOf(entries: seq<Entry>, key: string)
    requires Sorted(entries)
    ensures forall e :: e in entries && e.key == key ==> Columns(entries, key) == e.columns
    ensures (forall e :: e in entries ==> e.key != key) ==> Columns(entries, key) == map[]
  {
    if entries != [] {
      ColumnsOf(entries[1..], key);
      LessIrreflexive(key);
      forall e | e in entries[1..] && e.key == key ensures entries[0].key != key {
        assert Less(entries[0].key, e.key);
      }
    }
  }

  /** A put leaves the other rows alone and adds to the columns its row had, or creates the row. */
  lemma PutAdds(entries: seq<Entry>, key: string, columns: map<string, string>)
    requires Sorted(entries)
    ensures Sorted(Put(entries, key, columns))
    ensures forall e: Entry :: e.key != key ==> (e in Put(entries, key, columns) <==> e in entries)
    ensures forall e :: e in entries && e.key == key ==> Entry(key, e.columns + columns) in Put(entries, key, columns)
    ensures (forall e :: e in entries ==> e.key != key) ==> Entry(key, columns) in Put(entries, key, columns)
  {
    PutEffect(entries, key, columns);
    ColumnsOf(entries, key);
    assert map[] + columns == columns;
  }

  /** The columns that a sequence of puts gives one row: those of later puts win. */
  function Merged(puts: seq<Entry>, key: string): map<string, string> {
    if puts == [] then map[]
    else (if puts[0].key == key then puts[0].columns else map[]) + Merged(puts[1..], key)
  }

  /** A batch of puts adds to each row the columns of its own puts, in order. */
  lemma {:induction false} PutAllRows(entries: seq<Entry>, puts: seq<Entry>, key: string)
    requires Sorted(entries)
    ensures Sorted(PutAll(entries, puts))
    ensures Columns(PutAll(entries, puts), key) == Columns(entries, key) + Merged(puts, key)
    decreases |puts|
  {
    if puts == [] {
      NothingAdded(Columns(entries, key));
    } else {
      var own: map<string, string> := if puts[0].key == key then puts[0].columns else map[];
      PutColumns(entries, puts[0], key);
      PutAllRows(Put(entries, puts[0].key, puts[0].columns), puts[1..], key);
      AddedInTurn(Columns(entries, key), own, Merged(puts[1..], key));
    }
  }

  lemma {:induction false} PutColumns(entries: seq<Entry>, put: Entry, key: string)
    requires Sorted(entries)
    ensures Sorted(Put(entries, put.key, put.columns))
    ensures Columns(Put(entries, put.key, put.columns), key)
        == Columns(entries, key) + if put.key == key then put.columns else map[]
  {
    PutEffect(entries, put.key, put.columns);
    NothingAdded(Columns(entries, key));
    NothingAdded(put.columns);
    if entries != [] {
      if entries[0].key == put.key {
      } else if Less(put.key, entries[0].key) {
        AbsentBelow(entries, put.key);
      } else {
        PutColumns(entries[1..], put, key);
      }
    }
  }

  lemma NothingAdded(m: map<string, string>)
    ensures m + map[] == m && map[] + m == m
  {
  }

  lemma AddedInTurn(a: map<string, string>, b: map<string, string>, c: map<string, string>)
    ensures (a + b) + c == a + (b + c)
  {
  }

  lemma {:induction false} SelectMembers(entries: seq<Entry>, range: Range)
    requires Sorted(entries)
    ensures Sorted(Select(entries, range))
    ensures forall e :: e in Select(entries, range) <==> e in entries && Hits(range, e.key)
  {
    if entries != [] {
      SelectMembers(entries[1..], range);
      forall e | e in Select(entries[1..], range) ensures Less(entries[0].key, e.key) {
      }
    }
  }

  /** A scan visits exactly the stored rows in its range, in key order or against it, up to the limit. */
  lemma ScanVisits(entries: seq<Entry>, range: Range, limit: nat, reverse: bool)
    requires Sorted(entries)
    ensures var all := Scan(entries, range, None, reverse);
      && (forall e :: e in all <==> e in entries && Hits(range, e.key))
      && Sorted(if reverse then Rev(all) else all)
      && Scan(entries, range, Some(limit), reverse) == if |all| < limit then all else all[..limit]
  {
    var hits := Select(entries, range);
    SelectMembers(entries, range);
    RevRev(hits);
    forall e ensures e in Rev(hits) <==> e in hits {
      InRev(hits, e);
    }
  }

  /** The ends of a scan: open where none is given, the far one excluded, and equal ends mean that one row. */
  lemma RangeEnds(a: string, b: string, prefix: string, key: string)
    ensures Hits(WithPrefix(prefix), key) <==> exists rest :: key == prefix + rest
    ensures Hits(Upward(None, None), key) && Hits(Downward(None, None), key)
    ensures Hits(Upward(Some(a), None), key) <==> key == a || Less(a, key)
    ensures Hits(Upward(None, Some(b)), key) <==> Less(key, b)
    ensures Hits(Downward(Some(a), None), key) <==> key == a || Less(key, a)
    ensures Hits(Downward(None, Some(b)), key) <==> Less(b, key)
    ensures a != b ==> (Hits(Upward(Some(a), Some(b)), key) <==> (key == a || Less(a, key)) && Less(key, b))
    ensures a != b ==> (Hits(Downward(Some(a), Some(b)), key) <==> (key == a || Less(key, a)) && Less(b, key))
    ensures Hits(Upward(Some(a), Some(a)), key) <==> key == a
    ensures Hits(Downward(Some(a), Some(a)), key) <==> key == a
  {
    AtOrAfter(a, key);
    AtOrAfter(key, a);
    PrefixAndRest(prefix, key);
  }

  lemma AtOrAfter(a: string, b: string)
    ensures !Less(b, a) <==> a == b || Less(a, b)
  {
    LessTotal(a, b);
    LessIrreflexive(a);
    if Less(a, b) && Less(b, a) {
      LessTransitive(a, b, a);
    }
  }

  lemma PrefixAndRest(prefix: string, key: string)
    ensures Prefix(prefix, key) <==> exists rest :: key == prefix + rest
  {
    if Prefix(prefix, key) {
      assert key == prefix + key[|prefix|..];
    }
  }
}

/** The SQLite table create_db (screed/__init__.py) builds, as a value: a field tuple and
    the rows inserted under the integer primary key 1, 2, 3, ... in iteration order, with a
    UNIQUE index on the first field. Also the read-only lookups screedDB answers from it. */
module Store {
  import opened Wrappers
  import opened Text
  import opened Lines

  /** The dictionary table: the field tuple, and row i (0-based) holds the row whose primary
      key is i + 1. */
  datatype Table = Table(schema: seq<string>, rows: seq<seq<string>>)

  /** What building a store can fail with: a field tuple that is bad in the model's sense
      (no field, or a name repeated), a record without one of the fields (KeyError), a
      second record with the same first field (the UNIQUE index), or the parser's IOError. */
  datatype BuildError =
    | BadSchema
    | MissingField(field: string)
    | DuplicateKey(key: string)
    | Format(error: FormatError)

  predicate Distinct(s: seq<string>) {
    forall i, j :: 0 <= i < j < |s| ==> s[i] != s[j]
  }

  /** The field tuples the model accepts: at least one field, and no name repeated. (SQLite
      refuses more tuples than these; the model does not capture its naming rules.) */
  predicate GoodSchema(fields: seq<string>) {
    |fields| > 0 && Distinct(fields)
  }

  /** A record dict holds every field of the tuple. */
  predicate HasFields(fields: seq<string>, record: map<string, string>) {
    forall f :: f in fields ==> f in record
  }

  /** `tuple([record[key] for key in fields])`: the record's values in field order, or the
      first field (in field order) the record lacks. */
  function Project(fields: seq<string>, record: map<string, string>): (r: Result<seq<string>, string>)
    ensures r.Success? <==> HasFields(fields, record)
    ensures r.Success? ==> |r.value| == |fields| && forall i :: 0 <= i < |fields| ==> r.value[i] == record[fields[i]]
    ensures r.Failure? ==> r.error in fields && r.error !in record
    ensures r.Failure? ==> forall i :: 0 <= i < IndexOf(fields, r.error) ==> fields[i] in record
  {
    if fields == [] then Success([])
    else if fields[0] !in record then Failure(fields[0])
    else match Project(fields[1..], record)
      case Success(rest) => Success([record[fields[0]]] + rest)
      case Failure(f) => Failure(f)
  }

  /** The first column of every row: the keys of the UNIQUE index, in row order. */
  function KeyColumn(rows: seq<seq<string>>): (keys: seq<string>)
    requires forall i :: 0 <= i < |rows| ==> rows[i] != []
    ensures |keys| == |rows| && forall i :: 0 <= i < |rows| ==> keys[i] == rows[i][0]
  {
    seq(|rows|, i requires 0 <= i < |rows| => rows[i][0])
  }

  /** The records a build accepts: every one holds every field, and no two share the first
      field. */
  predicate Accepted(fields: seq<string>, records: seq<map<string, string>>)
    requires |fields| > 0
  {
    (forall i :: 0 <= i < |records| ==> HasFields(fields, records[i])) &&
    (forall i, j :: 0 <= i < j < |records| ==> records[i][fields[0]] != records[j][fields[0]])
  }

  /** The rows the insert loop of create_db leaves after inserting `records` in order, or
      the error of the first insert that fails. */
  function Rows(fields: seq<string>, records: seq<map<string, string>>): (r: Result<seq<seq<string>>, BuildError>)
    requires |fields| > 0
    ensures r.Success? <==> Accepted(fields, records)
    ensures r.Success? ==> |r.value| == |records|
    ensures r.Success? ==> forall i :: 0 <= i < |records| ==>
      Project(fields, records[i]) == Success(r.value[i])
    ensures r.Failure? ==> r.error.MissingField? || r.error.DuplicateKey?
    decreases |records|
  {
    if records == [] then Success([])
    else
      var init := records[..|records| - 1];
      var last := records[|records| - 1];
      match Rows(fields, init)
      case Failure(e) => Failure(e)
      case Success(rows) =>
        match Project(fields, last)
        case Failure(f) => Failure(MissingField(f))
        case Success(row) =>
          if row[0] in KeyColumn(rows) then Failure(DuplicateKey(row[0]))
          else
            assert forall i :: 0 <= i < |init| ==> records[i] == init[i];
            Success(rows + [row])
  }

  /** Once an insert has failed, the rest of the records are never inserted. */
  lemma {:induction false} RowsFailureStays(fields: seq<string>, records: seq<map<string, string>>, n: nat)
    requires |fields| > 0 && n <= |records| && Rows(fields, records[..n]).Failure?
    ensures Rows(fields, records) == Rows(fields, records[..n])
    decreases |records| - n
  {
    if n < |records| {
      var longer := records[..n + 1];
      assert longer[..|longer| - 1] == records[..n];
      RowsFailureStays(fields, records, n + 1);
    } else {
      assert records[..n] == records;
    }
  }

  /** The store create_db leaves, or its error: the field tuple is checked when the table
      is created, then the records are inserted one by one, and the parser's error surfaces
      when the loop asks for the record after the last one it yielded. */
  function Build(fields: seq<string>, stream: Parsed<map<string, string>>): (r: Result<Table, BuildError>)
    ensures !GoodSchema(fields) ==> r == Failure(BadSchema)
    ensures r.Success? ==> stream.error == None && r.value.schema == fields && |r.value.rows| == |stream.records|
  {
    if !GoodSchema(fields) then Failure(BadSchema)
    else match Rows(fields, stream.records)
      case Failure(e) => Failure(e)
      case Success(rows) =>
        if stream.error.Some? then Failure(Format(stream.error.value))
        else Success(Table(fields, rows))
  }

  /** The tables a successful build leaves: a good field tuple, rows as wide as it, and
      distinct keys in the first column. */
  predicate WellFormed(t: Table) {
    GoodSchema(t.schema) &&
    (forall i :: 0 <= i < |t.rows| ==> |t.rows[i]| == |t.schema|) &&
    Distinct(KeyColumn(t.rows))
  }

  /** The path create_db writes: the extension is appended when it is missing. The
      extension comes from a module that is not part of this model. */
  function NormalisePath(path: string, ext: string): (r: string)
    ensures EndsWith(r, ext)
    ensures r == path || r == path + ext
    ensures r == path <==> EndsWith(path, ext)
  {
    if EndsWith(path, ext) then path else path + ext
  }

  lemma NormalisePathIdempotent(path: string, ext: string)
    ensures NormalisePath(NormalisePath(path, ext), ext) == NormalisePath(path, ext)
  {
  }

  /** create_db: normalise the path, check the field tuple, then insert the records one by
      one, each projected on the field tuple, refusing a key the UNIQUE index already
      holds. The file system and SQLite are replaced by the returned path and table. */
  method CreateDb(filepath: string, ext: string, fields: seq<string>, stream: Parsed<map<string, string>>)
    returns (path: string, r: Result<Table, BuildError>)
    ensures path == NormalisePath(filepath, ext)
    ensures r == Build(fields, stream)
  {
    path := filepath;
    if !EndsWith(path, ext) {
      path := path + ext;
    }
    if |fields| == 0 || !Distinct(fields) {
      return path, Failure(BadSchema);
    }
    var rows := InsertRows(fields, stream.records);
    if rows.Failure? {
      return path, Failure(rows.error);
    }
    if stream.error.Some? {
      return path, Failure(Format(stream.error.value));
    }
    return path, Success(Table(fields, rows.value));
  }

  /** The insert loop of create_db: project each record on the field tuple and insert it,
      stopping at the first record that lacks a field or repeats a key. */
  method InsertRows(fields: seq<string>, records: seq<map<string, string>>) returns (r: Result<seq<seq<string>>, BuildError>)
    requires |fields| > 0
    ensures r == Rows(fields, records)
  {
    var rows: seq<seq<string>> := [];
    var i := 0;
    while i < |records|
      invariant 0 <= i <= |records|
      invariant Rows(fields, records[..i]) == Success(rows)
    {
      assert records[..i + 1][..i] == records[..i];
      var data := Project(fields, records[i]);
      if data.Failure? {
        RowsFailureStays(fields, records, i + 1);
        return Failure(MissingField(data.error));
      }
      if data.value[0] in KeyColumn(rows) {
        RowsFailureStays(fields, records, i + 1);
        return Failure(DuplicateKey(data.value[0]));
      }
      rows := rows + [data.value];
      i := i + 1;
    }
    assert records[..i] == records;
    return Success(rows);
  }

  /** A successful build leaves a well-formed table with one row per record, in record
      order, each row the record's values in field order. */
  lemma BuildRows(fields: seq<string>, stream: Parsed<map<string, string>>)
    requires Build(fields, stream).Success?
    ensures WellFormed(Build(fields, stream).value)
    ensures Build(fields, stream).value.schema == fields
    ensures stream.error == None
    ensures |Build(fields, stream).value.rows| == |stream.records|
    ensures forall i :: 0 <= i < |stream.records| ==>
      Project(fields, stream.records[i]) == Success(Build(fields, stream).value.rows[i])
  {
    var t := Build(fields, stream).value;
    var records := stream.records;
    forall i, j | 0 <= i < j < |t.rows|
      ensures KeyColumn(t.rows)[i] != KeyColumn(t.rows)[j]
    {
      assert Project(fields, records[i]).value[0] == records[i][fields[0]];
      assert Project(fields, records[j]).value[0] == records[j][fields[0]];
    }
  }

  /** A build fails exactly when the field tuple is bad, a record lacks a field, two
      records share a key, or the parser raised. */
  lemma BuildFails(fields: seq<string>, stream: Parsed<map<string, string>>)
    ensures Build(fields, stream).Failure? <==>
      !GoodSchema(fields) || !Accepted(fields, stream.records) || stream.error.Some?
  {
  }

  /** The record screedDB builds from row i: its 0-based id and its fields by name. */
  datatype Record = Record(id: nat, fields: map<string, string>)

  function RowFields(schema: seq<string>, row: seq<string>): (m: map<string, string>)
    requires |row| == |schema|
    ensures m.Keys == set f | f in schema
  {
    map f | f in schema :: row[IndexOf(schema, f)]
  }

  lemma RowFieldsAt(schema: seq<string>, row: seq<string>, i: nat)
    requires |row| == |schema| && Distinct(schema) && i < |schema|
    ensures schema[i] in RowFields(schema, row) && RowFields(schema, row)[schema[i]] == row[i]
  {
    assert IndexOf(schema, schema[i]) == i;
  }

  function RecordAt(t: Table, i: nat): Record
    requires WellFormed(t) && i < |t.rows|
  {
    Record(i, RowFields(t.schema, t.rows[i]))
  }

  /** The errors the dictionary view raises. */
  datatype StoreError =
    | KeyError        // no such key or index
    | AttributeError  // a mutator, or any query on a closed store (its handle is None)
    | TypeError       // len() of an empty store, whose MAX(id) is None; db[k] = v

  /** `db[key]`: the record whose first field is key. */
  function ByKey(t: Table, key: string): (r: Result<Record, StoreError>)
    requires WellFormed(t)
    ensures r.Success? <==> key in KeyColumn(t.rows)
    ensures r.Success? ==> r.value.id < |t.rows| && t.rows[r.value.id][0] == key && r.value == RecordAt(t, r.value.id)
    ensures r.Failure? ==> r.error == KeyError
  {
    var k := IndexOf(KeyColumn(t.rows), key);
    if k == |t.rows| then Failure(KeyError) else Success(RecordAt(t, k))
  }

  /** `db.loadRecordByIndex(index)`: the row whose primary key is index + 1. */
  function ByIndex(t: Table, index: int): (r: Result<Record, StoreError>)
    requires WellFormed(t)
    ensures r.Success? <==> 0 <= index < |t.rows|
    ensures r.Success? ==> r.value.id == index
    ensures r.Failure? ==> r.error == KeyError
  {
    var rowId := index + 1;
    if 1 <= rowId <= |t.rows| then Success(RecordAt(t, rowId - 1)) else Failure(KeyError)
  }

  /** `SELECT MAX(id)`: the number of rows, or None (SQL NULL) for an empty table. */
  function MaxRowId(t: Table): (n: Option<nat>)
    ensures n.None? <==> t.rows == []
    ensures n.Some? ==> n.value == |t.rows|
  {
    if t.rows == [] then None else Some(|t.rows|)
  }

  /** Every record in row-id order, as itervalues yields them. */
  function AllRecords(t: Table): (rs: seq<Record>)
    requires WellFormed(t)
    ensures |rs| == |t.rows|
    ensures forall i :: 0 <= i < |rs| ==> rs[i].id == i && (forall f :: f in rs[i].fields <==> f in t.schema)
  {
    seq(|t.rows|, i requires 0 <= i < |t.rows| => RecordAt(t, i))
  }

  /** The record looked up by a key carries that key in its first field. */
  lemma KeyLookupFindsKey(t: Table, key: string)
    requires WellFormed(t) && ByKey(t, key).Success?
    ensures ByKey(t, key).value.fields[t.schema[0]] == key
  {
    var r := ByKey(t, key).value;
    RowFieldsAt(t.schema, t.rows[r.id], 0);
  }

  /** Looking a record up by its index gives the record found by its key, and the other way
      round: `loadRecordByIndex(db[k].id) == db[k]`. */
  lemma IndexAndKeyAgree(t: Table, i: nat)
    requires WellFormed(t) && i < |t.rows|
    ensures ByKey(t, t.rows[i][0]) == ByIndex(t, i)
    ensures ByIndex(t, ByKey(t, t.rows[i][0]).value.id) == ByKey(t, t.rows[i][0])
  {
    var keys := KeyColumn(t.rows);
    assert keys[i] == t.rows[i][0];
    var r := ByKey(t, keys[i]).value;
    assert keys[r.id] == keys[i];
  }

  /** Looking up every key of the store, in key order, gives exactly itervalues. */
  lemma KeysThenLookupIsValues(t: Table)
    requires WellFormed(t)
    ensures forall k :: k in KeyColumn(t.rows) ==> ByKey(t, k).Success?
    ensures seq(|t.rows|, i requires 0 <= i < |t.rows| => ByKey(t, KeyColumn(t.rows)[i]).value) == AllRecords(t)
  {
    forall i | 0 <= i < |t.rows|
      ensures ByKey(t, KeyColumn(t.rows)[i]) == Success(AllRecords(t)[i])
    {
      IndexAndKeyAgree(t, i);
    }
  }
  /** The row create_db stores for a record gives back the record's dict. */
  lemma RowFieldsBack(schema: seq<string>, row: seq<string>, m: map<string, string>)
    requires Distinct(schema) && |row| == |schema|
    requires m.Keys == set f | f in schema
    requires forall i :: 0 <= i < |schema| ==> m[schema[i]] == row[i]
    ensures RowFields(schema, row) == m
  {
    forall f | f in m.Keys
      ensures RowFields(schema, row)[f] == m[f]
    {
      var i := IndexOf(schema, f);
      RowFieldsAt(schema, row, i);
    }
  }

  /** The store create_db builds from records that yield the dicts `ms`, with distinct
      first fields: itervalues gives back every dict, in order. */
  lemma BuiltRecords(fields: seq<string>, ms: seq<map<string, string>>)
    requires GoodSchema(fields)
    requires forall i :: 0 <= i < |ms| ==> ms[i].Keys == set f | f in fields
    requires forall i, j :: 0 <= i < j < |ms| ==> ms[i][fields[0]] != ms[j][fields[0]]
    ensures Build(fields, Parsed(ms, None)).Success?
    ensures WellFormed(Build(fields, Parsed(ms, None)).value)
    ensures |AllRecords(Build(fields, Parsed(ms, None)).value)| == |ms|
    ensures forall i :: 0 <= i < |ms| ==> AllRecords(Build(fields, Parsed(ms, None)).value)[i].fields == ms[i]
  {
    assert Accepted(fields, ms);
    var stream := Parsed(ms, None);
    BuildRows(fields, stream);
    var t := Build(fields, stream).value;
    forall i | 0 <= i < |ms|
      ensures AllRecords(t)[i].fields == ms[i]
    {
      var row := t.rows[i];
      assert Project(fields, ms[i]) == Success(row);
      RowFieldsBack(fields, row, ms[i]);
    }
  }

  /** In a store built from dicts with distinct first fields, `db[k]` for the first field
      of the i-th dict and `loadRecordByIndex(i)` both give that dict, with id i. */
  lemma BuiltLookup(fields: seq<string>, ms: seq<map<string, string>>, i: nat)
    requires GoodSchema(fields)
    requires forall j :: 0 <= j < |ms| ==> ms[j].Keys == set f | f in fields
    requires forall j, k :: 0 <= j < k < |ms| ==> ms[j][fields[0]] != ms[k][fields[0]]
    requires i < |ms|
    ensures Build(fields, Parsed(ms, None)).Success?
    ensures WellFormed(Build(fields, Parsed(ms, None)).value)
    ensures ByKey(Build(fields, Parsed(ms, None)).value, ms[i][fields[0]]) == Success(Record(i, ms[i]))
    ensures ByIndex(Build(fields, Parsed(ms, None)).value, i) == Success(Record(i, ms[i]))
  {
    var stream := Parsed(ms, None);
    BuiltRecords(fields, ms);
    BuildRows(fields, stream);
    var t := Build(fields, stream).value;
    assert t.rows[i][0] == ms[i][fields[0]] by {
      assert Project(fields, ms[i]) == Success(t.rows[i]);
    }
    assert ByIndex(t, i) == Success(Record(i, ms[i])) by {
      assert AllRecords(t)[i] == RecordAt(t, i);
    }
    IndexAndKeyAgree(t, i);
  }
}

/** The class screedDB of screed/__init__.py: a read-only dictionary view over a store
    built by create_db. The SQLite handle becomes the table it reads and a flag that close()
    clears; every query on a closed store fails the way `None.cursor()` does. */
module ScreedDb {
  import opened Wrappers
  import opened Text
  import opened Store

  class ScreedDB {
    /** The store the handle reads; nothing can change it. */
    const table: Table
    /** `_len`: MAX(id) read when the store is opened. */
    const len: Option<nat>
    /** `_db is not None` */
    var isOpen: bool

    ghost predicate Valid() {
      WellFormed(table) && len == MaxRowId(table)
    }

    /** Opens a store: reads its length as the largest row id. */
    constructor (t: Table)
      requires WellFormed(t)
      ensures table == t && isOpen
      ensures len == MaxRowId(t)
      ensures Valid()
    {
      table := t;
      len := MaxRowId(t);
      isOpen := true;
    }

    /** Closes the handle once; closing a closed store does nothing. */
    method Close()
      modifies this
      ensures !isOpen
      ensures old(!isOpen) ==> unchanged(this)
    {
      if isOpen {
        isOpen := false;
      }
    }

    /** `db[key]`: the record whose first field is key, or KeyError. */
    method GetItem(key: string) returns (r: Result<Record, StoreError>)
      requires Valid()
      ensures !isOpen ==> r == Failure(AttributeError)
      ensures isOpen ==> (r.Success? <==> key in KeyColumn(table.rows))
      ensures isOpen && r.Success? ==> table.schema[0] in r.value.fields && r.value.fields[table.schema[0]] == key
      ensures isOpen && r.Success? ==> r.value.id < |table.rows| && r.value == AllRecords(table)[r.value.id]
      ensures isOpen && r.Failure? ==> r.error == KeyError
      ensures isOpen ==> r == ByKey(table, key)
    {
      if !isOpen {
        return Failure(AttributeError);
      }
      r := ByKey(table, key);
      if r.Success? {
        KeyLookupFindsKey(table, key);
      }
    }

    /** `db.get(key)`: the record, or None where `db[key]` raises KeyError. */
    method Get(key: string) returns (r: Result<Option<Record>, StoreError>)
      requires Valid()
      ensures !isOpen ==> r == Failure(AttributeError)
      ensures isOpen ==> r.Success?
      ensures isOpen ==> (r.value.Some? <==> key in KeyColumn(table.rows))
      ensures isOpen && r.value.Some? ==> table.schema[0] in r.value.value.fields && r.value.value.fields[table.schema[0]] == key
      ensures isOpen && r.value.Some? ==> ByKey(table, key) == Success(r.value.value)
    {
      var item := GetItem(key);
      if item.Success? {
        return Success(Some(item.value));
      } else if item.error == KeyError {
        return Success(None);
      }
      return Failure(item.error);
    }

    /** `key in db`: whether some record has key as its first field; never KeyError. */
    method Contains(key: string) returns (r: Result<bool, StoreError>)
      requires Valid()
      ensures !isOpen ==> r == Failure(AttributeError)
      ensures isOpen ==> r == Success(key in KeyColumn(table.rows))
    {
      if !isOpen {
        return Failure(AttributeError);
      }
      var found := ByKey(table, key);
      return Success(found.Success?);
    }

    /** `db.has_key(key)` is `key in db`. */
    method HasKey(key: string) returns (r: Result<bool, StoreError>)
      requires Valid()
      ensures !isOpen ==> r == Failure(AttributeError)
      ensures isOpen ==> r == Success(key in KeyColumn(table.rows))
    {
      r := Contains(key);
    }

    /** `db.loadRecordByIndex(index)`: the record in row index + 1, or KeyError. */
    method LoadRecordByIndex(index: int) returns (r: Result<Record, StoreError>)
      requires Valid()
      ensures !isOpen ==> r == Failure(AttributeError)
      ensures isOpen ==> (r.Success? <==> 0 <= index < |table.rows|)
      ensures isOpen && r.Success? ==> r.value.id == index && r.value == AllRecords(table)[index]
      ensures isOpen && r.Failure? ==> r.error == KeyError
    {
      if !isOpen {
        return Failure(AttributeError);
      }
      r := ByIndex(table, index);
    }

    /** `len(db)`: the largest row id, which is the number of records; an empty store has
        MAX(id) NULL, and len() refuses the None it returns. It does not use the handle. */
    method Length() returns (r: Result<nat, StoreError>)
      requires Valid()
      ensures r.Success? <==> table.rows != []
      ensures r.Success? ==> r.value == |table.rows|
      ensures r.Failure? ==> r.error == TypeError
    {
      if len.None? {
        return Failure(TypeError);
      }
      return Success(len.value);
    }

    /** `db.values()`: the records of itervalues, which reads row ids 1 .. len(db). */
    method Values() returns (r: Result<seq<Record>, StoreError>)
      requires Valid()
      ensures !isOpen ==> r == Failure(AttributeError)
      ensures isOpen && table.rows == [] ==> r == Failure(TypeError)
      ensures isOpen && table.rows != [] ==> r == Success(AllRecords(table))
    {
      if !isOpen {
        return Failure(AttributeError);
      }
      var n := Length();
      if n.Failure? {
        return Failure(n.error);
      }
      var out: seq<Record> := [];
      var index := 1;
      while index < n.value + 1
        invariant 1 <= index <= n.value + 1
        invariant out == AllRecords(table)[..index - 1]
      {
        out := out + [RecordAt(table, index - 1)];
        index := index + 1;
      }
      assert AllRecords(table)[..index - 1] == AllRecords(table);
      return Success(out);
    }

    /** `db.keys()`: the first field of every row, as iterkeys reads them. The SELECT has
        no ORDER BY; the model takes row-id order. An empty store has no keys. */
    method Keys() returns (r: Result<seq<string>, StoreError>)
      requires Valid()
      ensures !isOpen ==> r == Failure(AttributeError)
      ensures isOpen ==> r == Success(KeyColumn(table.rows))
    {
      if !isOpen {
        return Failure(AttributeError);
      }
      var out: seq<string> := [];
      var i := 0;
      while i < |table.rows|
        invariant 0 <= i <= |table.rows|
        invariant out == KeyColumn(table.rows)[..i]
      {
        out := out + [table.rows[i][0]];
        i := i + 1;
      }
      assert KeyColumn(table.rows)[..i] == KeyColumn(table.rows);
      return Success(out);
    }

    /** `db.items()`: every record of itervalues paired with str() of its id, not its key. */
    method Items() returns (r: Result<seq<(string, Record)>, StoreError>)
      requires Valid()
      ensures !isOpen ==> r == Failure(AttributeError)
      ensures isOpen && table.rows == [] ==> r == Failure(TypeError)
      ensures isOpen && table.rows != [] ==> r.Success? && |r.value| == |table.rows|
      ensures isOpen && table.rows != [] ==> forall i :: 0 <= i < |table.rows| ==>
        r.value[i] == (NatToString(i), AllRecords(table)[i])
    {
      var values := Values();
      if values.Failure? {
        return Failure(values.error);
      }
      var out: seq<(string, Record)> := [];
      var i := 0;
      while i < |values.value|
        invariant 0 <= i <= |values.value|
        invariant |out| == i
        invariant forall j :: 0 <= j < i ==> out[j] == (NatToString(j), AllRecords(table)[j])
      {
        var v := values.value[i];
        out := out + [(NatToString(v.id), v)];
        i := i + 1;
      }
      return Success(out);
    }

    /** `db.copy()` returns the store itself. */
    method Copy() returns (c: ScreedDB)
      ensures c == this
    {
      return this;
    }

    /** `db[key] = value`: __setitem__ takes one argument, so the call itself fails with
        TypeError before its body could raise AttributeError. */
    method SetItem(key: string, value: Record) returns (e: StoreError)
      ensures e == TypeError
    {
      return TypeError;
    }

    method Clear() returns (e: StoreError)
      ensures e == AttributeError
    {
      return AttributeError;
    }

    method Update(other: map<string, Record>) returns (e: StoreError)
      ensures e == AttributeError
    {
      return AttributeError;
    }

    method SetDefault(key: string) returns (e: StoreError)
      ensures e == AttributeError
    {
      return AttributeError;
    }

    method Pop() returns (e: StoreError)
      ensures e == AttributeError
    {
      return AttributeError;
    }

    method PopItem() returns (e: StoreError)
      ensures e == AttributeError
    {
      return AttributeError;
    }
  }
}

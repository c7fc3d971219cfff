/** The example parser of screed/seqparse.py for the made-up 'hava' format: every record is
    six consecutive lines, one per field, and a blank line (or end of file) where a record
    would start ends the file. */
module Hava {
  import opened Wrappers
  import opened Lines
  import opened Store

  datatype HavaRecord = HavaRecord(hava: string, quarzk: string, muchalo: string,
                                   fakours: string, selimizicka: string, marshoon: string) {
    /** The dict the generator yields for this record. */
    function Fields(): map<string, string> {
      map["hava" := hava, "quarzk" := quarzk, "muchalo" := muchalo,
          "fakours" := fakours, "selimizicka" := selimizicka, "marshoon" := marshoon]
    }
  }

  /** The field tuple read_hava_sequences gives create_db; 'hava' is the store key. */
  const FieldTypes: seq<string> := ["hava", "quarzk", "muchalo", "fakours", "selimizicka", "marshoon"]

  /** Where the i-th record after line `pos` starts. */
  function Boundary(pos: nat, i: nat): nat {
    pos + 6 * i
  }

  /** The six lines from `start` on, read one per field; past the end of the file every
      read gives ''. */
  function RecordAt(lines: seq<string>, start: nat): HavaRecord {
    HavaRecord(LineAt(lines, start), LineAt(lines, start + 1), LineAt(lines, start + 2),
               LineAt(lines, start + 3), LineAt(lines, start + 4), LineAt(lines, start + 5))
  }

  /** One turn of havaiter: with six lines left, the record's fields in field order are
      exactly those lines; at the end of the file every field is ''. */
  lemma RecordAtLines(lines: seq<string>, start: nat)
    ensures var r := RecordAt(lines, start);
      start + 6 <= |lines| ==> [r.hava, r.quarzk, r.muchalo, r.fakours, r.selimizicka, r.marshoon] == lines[start..start + 6]
    ensures |lines| <= start ==> RecordAt(lines, start) == HavaRecord("", "", "", "", "", "")
  {
  }

  /** The records havaiter yields from line `pos` on. */
  function RecordsFrom(lines: seq<string>, pos: nat): (rs: seq<HavaRecord>)
    ensures |rs| > 0 ==> pos < |lines| && 6 * (|rs| - 1) < |lines| - pos
    decreases |lines| - pos
  {
    if LineAt(lines, pos) == "" then [] else [RecordAt(lines, pos)] + RecordsFrom(lines, pos + 6)
  }

  /** The records havaiter yields on a file whose stripped lines are `lines`; it never
      raises. */
  function Records(lines: seq<string>): Parsed<HavaRecord> {
    Parsed(RecordsFrom(lines, 0), None)
  }

  /** havaiter, run to the end: the while loop of the source, six readline() calls per
      record and one more for the line that decides whether another record follows. */
  method ParseHava(lines: seq<string>) returns (p: Parsed<HavaRecord>)
    ensures p == Records(lines)
  {
    var out: seq<HavaRecord> := [];
    var pos := 0;
    var line := LineAt(lines, pos);
    while line != ""
      invariant line == LineAt(lines, pos)
      invariant RecordsFrom(lines, 0) == out + RecordsFrom(lines, pos)
      decreases |lines| - pos
    {
      var record := ReadRecord(lines, pos);
      RecordsFromStep(lines, pos, record);
      out := out + [record];
      pos := pos + 6;
      line := LineAt(lines, pos);
    }
    return Parsed(out, None);
  }

  /** The body of havaiter's loop: five more readline() calls after the one that gave the
      'hava' line, one per remaining field. */
  method ReadRecord(lines: seq<string>, pos: nat) returns (record: HavaRecord)
    ensures record == RecordAt(lines, pos)
  {
    var hava := LineAt(lines, pos);
    var quarzk := LineAt(lines, pos + 1);
    var muchalo := LineAt(lines, pos + 2);
    var fakours := LineAt(lines, pos + 3);
    var selimizicka := LineAt(lines, pos + 4);
    var marshoon := LineAt(lines, pos + 5);
    record := HavaRecord(hava, quarzk, muchalo, fakours, selimizicka, marshoon);
  }

  /** At a non-blank line, havaiter yields the record of the six lines from there and goes
      on six lines further. */
  lemma RecordsFromStep(lines: seq<string>, pos: nat, r: HavaRecord)
    requires LineAt(lines, pos) != ""
    requires r == RecordAt(lines, pos)
    ensures pos < |lines|
    ensures RecordsFrom(lines, pos) == [r] + RecordsFrom(lines, pos + 6)
  {
  }

  /** A record starts at the i-th boundary after `pos`. */
  predicate StartsRecord(lines: seq<string>, pos: nat, i: nat) {
    LineAt(lines, Boundary(pos, i)) != ""
  }

  /** The layout of a hava file: when the first blank line at a record boundary is the
      k-th one, the parse yields exactly k records, the i-th made of the six lines from
      boundary i in field order. Blank lines anywhere else are read as empty fields. */
  lemma {:induction false} Layout(lines: seq<string>, pos: nat, k: nat)
    requires forall i :: 0 <= i < k ==> StartsRecord(lines, pos, i)
    requires !StartsRecord(lines, pos, k)
    ensures RecordsFrom(lines, pos) == seq(k, i requires 0 <= i < k => RecordAt(lines, Boundary(pos, i)))
    decreases k
  {
    if k > 0 {
      assert StartsRecord(lines, pos, 0);
      var next := pos + 6;
      forall i | 0 <= i < k - 1
        ensures StartsRecord(lines, next, i)
      {
        assert Boundary(next, i) == Boundary(pos, i + 1);
        assert StartsRecord(lines, pos, i + 1);
      }
      assert Boundary(next, k - 1) == Boundary(pos, k);
      Layout(lines, next, k - 1);
      var tail := seq(k - 1, i requires 0 <= i < k - 1 => RecordAt(lines, Boundary(next, i)));
      var all := seq(k, i requires 0 <= i < k => RecordAt(lines, Boundary(pos, i)));
      assert all == [RecordAt(lines, pos)] + tail by {
        forall i | 1 <= i < k
          ensures all[i] == tail[i - 1]
        {
          assert Boundary(next, i - 1) == Boundary(pos, i);
        }
      }
    }
  }

  /** On a file with no blank line, n lines give ceil(n / 6) records. (How the last one is
      padded is what Layout states.) */
  lemma RecordCount(lines: seq<string>)
    requires forall j :: 0 <= j < |lines| ==> lines[j] != ""
    ensures |Records(lines).records| == (|lines| + 5) / 6
  {
    var k := (|lines| + 5) / 6;
    forall i | 0 <= i < k
      ensures StartsRecord(lines, 0, i)
    {
      assert Boundary(0, i) < |lines|;
    }
    Layout(lines, 0, k);
  }

  /** read_hava_sequences hands the records to create_db under the field tuple whose first
      field is 'hava': when no two records share that field, `db[k]` for the i-th record's
      hava line gives that record, with id i, and its 'hava' field is k. */
  lemma HavaKeyLookup(lines: seq<string>, i: nat)
    requires i < |Records(lines).records|
    requires forall j, k :: 0 <= j < k < |Records(lines).records| ==>
      Records(lines).records[j].hava != Records(lines).records[k].hava
    ensures var built := Build(FieldTypes, FieldMaps(Records(lines), (r: HavaRecord) => r.Fields()));
      built.Success? && WellFormed(built.value) &&
      ByKey(built.value, Records(lines).records[i].hava) == Success(Record(i, Records(lines).records[i].Fields())) &&
      Records(lines).records[i].Fields()["hava"] == Records(lines).records[i].hava
  {
    var rs := Records(lines).records;
    var ms := FieldMaps(Records(lines), (r: HavaRecord) => r.Fields()).records;
    assert FieldMaps(Records(lines), (r: HavaRecord) => r.Fields()) == Parsed(ms, None);
    forall j | 0 <= j < |ms|
      ensures ms[j].Keys == set f | f in FieldTypes
      ensures ms[j][FieldTypes[0]] == rs[j].hava
    {
      assert ms[j] == rs[j].Fields();
    }
    BuiltLookup(FieldTypes, ms, i);
  }
}

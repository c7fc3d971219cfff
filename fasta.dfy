/** The FASTA record parser `faiter` of screed/__init__.py: a record is a '>' line
    (name, then an optional description after the first space) followed by the sequence
    lines up to the next '>' line; the first blank line ends the whole file. */
module Fasta {
  import opened Wrappers
  import opened Text
  import opened Lines

  datatype FastaRecord = FastaRecord(name: string, description: string, sequence: string) {
    /** The dict the generator yields for this record. */
    function Fields(): map<string, string> {
      map["name" := name, "description" := description, "sequence" := sequence]
    }
  }

  /** FASTAFIELDTYPES: the column order of a FASTA store. */
  const FieldTypes: seq<string> := ["name", "description", "sequence"]

  /** name and description of a '>' line: the halves of line[1:].split(' ', 1), each
      stripped, with description '' when there is no space. */
  function Header(line: string): (h: (string, string))
    requires line != []
    ensures ' ' !in h.0
    ensures Trimmed(h.0) && Trimmed(h.1)
  {
    var p := SplitOnce(line[1..], ' ');
    StripKeeps(p.0);
    (Strip(p.0), Strip(p.1))
  }

  /** Neither half holds a newline the line does not hold. */
  lemma HeaderNoNewline(line: string)
    requires line != [] && '\n' !in line
    ensures '\n' !in Header(line).0 && '\n' !in Header(line).1
  {
    var s := line[1..];
    assert forall x :: x in s ==> x in line;
    SplitOnceKeeps(s, ' ');
    StripKeeps(SplitOnce(s, ' ').0);
    StripKeeps(SplitOnce(s, ' ').1);
  }

  lemma HeaderSplit(line: string, name: string, description: string)
    requires line != [] && ' ' !in name
    requires line[1..] == name + " " + description
    ensures Header(line) == (Strip(name), Strip(description))
  {
    SplitOnceAt(line[1..], ' ', name, description);
  }

  lemma HeaderWithoutSpace(line: string)
    requires line != [] && ' ' !in line[1..]
    ensures Header(line) == (Strip(line[1..]), "")
  {
  }

  /** The record made of the '>' line at `pos` and the sequence lines after it, up to
      line `next`. */
  function RecordOf(lines: seq<string>, pos: nat, next: nat): FastaRecord
    requires pos < next <= |lines| && lines[pos] != []
  {
    var h := Header(lines[pos]);
    FastaRecord(h.0, h.1, Joined(lines, pos + 1, next))
  }

  /** The records faiter yields from line `pos` on, and the error it raises, if any. */
  function RecordsFrom(lines: seq<string>, pos: nat): (p: Parsed<FastaRecord>)
    requires pos <= |lines|
    ensures p.error.Some? ==> p.error.value == MissingFastaMarker
    ensures |p.records| <= |lines| - pos
    decreases |lines| - pos
  {
    if pos == |lines| || lines[pos] == "" then Parsed([], None)
    else if !StartsWith(lines[pos], '>') then Parsed([], Some(MissingFastaMarker))
    else
      var next := SkipWhile(lines, pos + 1, SequenceLine);
      Prepend([RecordOf(lines, pos, next)], RecordsFrom(lines, next))
  }

  /** At a '>' line whose sequence lines run up to line `next`, faiter yields the record
      made of them and goes on at `next`. */
  lemma RecordsFromStep(lines: seq<string>, pos: nat, next: nat, r: FastaRecord)
    requires pos < next <= |lines| && StartsWith(lines[pos], '>')
    requires SkipWhile(lines, pos + 1, SequenceLine) == next
    requires RecordOf(lines, pos, next) == r
    ensures RecordsFrom(lines, pos) == Prepend([r], RecordsFrom(lines, next))
  {
  }

  /** The records faiter yields on a file whose stripped lines are `lines`. */
  function Records(lines: seq<string>): Parsed<FastaRecord> {
    RecordsFrom(lines, 0)
  }

  /** One turn of faiter's outer loop at a '>' line: split the header, collect the sequence
      lines, and stop at the line that follows them. */
  method ReadRecord(lines: seq<string>, pos: nat) returns (record: FastaRecord, next: nat)
    requires pos < |lines| && StartsWith(lines[pos], '>')
    ensures pos < next <= |lines|
    ensures RecordsFrom(lines, pos) == Prepend([record], RecordsFrom(lines, next))
  {
    var header := Header(lines[pos]);
    var name, description := header.0, header.1;
    var sequenceList;
    next, sequenceList := CollectWhile(lines, pos + 1, SequenceLine);
    record := FastaRecord(name, description, Concat(sequenceList));
    JoinedSlice(lines, pos + 1, next);
  }

  /** faiter, run to the end: the while loops of the source over the lines of the file. */
  method ParseFasta(lines: seq<string>) returns (p: Parsed<FastaRecord>)
    ensures p == Records(lines)
  {
    var out: seq<FastaRecord> := [];
    var pos := 0;
    var line := LineAt(lines, pos);
    while line != ""
      invariant pos <= |lines| && line == LineAt(lines, pos)
      invariant Records(lines) == Prepend(out, RecordsFrom(lines, pos))
      decreases |lines| - pos
    {
      if !StartsWith(line, '>') {
        return Parsed(out, Some(MissingFastaMarker));
      }
      var record;
      record, pos := ReadRecord(lines, pos);
      PrependTwice(out, [record], RecordsFrom(lines, pos));
      out := out + [record];
      line := LineAt(lines, pos);
    }
    return Parsed(out, None);
  }

  /** The first blank line ends the parse: nothing after it is read. */
  lemma {:induction false} BlankLineEndsParse(lines: seq<string>, pos: nat, k: nat)
    requires pos <= k < |lines| && lines[k] == ""
    ensures RecordsFrom(lines, pos) == RecordsFrom(lines[..k], pos)
    decreases |lines| - pos
  {
    var pre := lines[..k];
    if pos < k && lines[pos] != "" && StartsWith(lines[pos], '>') {
      var next := SkipWhile(lines, pos + 1, SequenceLine);
      SkipWhileStops(lines, pos + 1, SequenceLine);
      assert next <= k by {
        assert !Keeps(SequenceLine, lines[k]);
      }
      SkipWhileIs(pre, pos + 1, SequenceLine, next);
      JoinedPrefix(lines, k, pos + 1, next);
      if next < k {
        BlankLineEndsParse(lines, next, k);
      }
    }
  }

  /** Every record's name holds no space, and name and description are stripped; on lines
      without newlines no field holds one. */
  lemma {:induction false} RecordsAreTrimmed(lines: seq<string>, pos: nat)
    requires pos <= |lines|
    ensures forall r :: r in RecordsFrom(lines, pos).records ==>
      ' ' !in r.name && Trimmed(r.name) && Trimmed(r.description)
    ensures (forall i :: 0 <= i < |lines| ==> '\n' !in lines[i]) ==>
      forall r :: r in RecordsFrom(lines, pos).records ==> '\n' !in r.name && '\n' !in r.description
    decreases |lines| - pos
  {
    if pos < |lines| && lines[pos] != "" && StartsWith(lines[pos], '>') {
      if '\n' !in lines[pos] {
        HeaderNoNewline(lines[pos]);
      }
      RecordsAreTrimmed(lines, SkipWhile(lines, pos + 1, SequenceLine));
    }
  }
}

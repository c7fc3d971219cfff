/** The FASTQ record parser `fqiter` of screed/__init__.py: a record is an '@' line (name,
    then optional annotations after the first space), the sequence lines up to the first
    line starting with '+', and the accuracy lines after it up to the next '@' line or the
    first blank line. */
module Fastq {
  import opened Wrappers
  import opened Text
  import opened Lines

  datatype FastqRecord = FastqRecord(name: string, annotations: string, sequence: string, accuracy: string) {
    /** The dict the generator yields for this record. */
    function Fields(): map<string, string> {
      map["name" := name, "annotations" := annotations, "sequence" := sequence, "accuracy" := accuracy]
    }
  }

  /** FASTQFIELDTYPES: the column order of a FASTQ store. */
  const FieldTypes: seq<string> := ["name", "annotations", "sequence", "accuracy"]

  /** name and annotations of an '@' line: line[1:].split(' ', 1), neither half stripped,
      with annotations '' when there is no space. */
  function Header(line: string): (h: (string, string))
    requires line != []
    ensures ' ' !in h.0
  {
    SplitOnce(line[1..], ' ')
  }

  /** Neither half holds a newline the line does not hold. */
  lemma HeaderNoNewline(line: string)
    requires line != [] && '\n' !in line
    ensures '\n' !in Header(line).0 && '\n' !in Header(line).1
  {
    var s := line[1..];
    assert forall x :: x in s ==> x in line;
    SplitOnceKeeps(s, ' ');
  }

  /** The name is everything after the '@' up to the first space and the annotations
      everything after that space; without a space the whole rest is the name. */
  lemma HeaderSplits(line: string)
    requires line != []
    ensures ' ' in line[1..] ==> line[1..] == Header(line).0 + " " + Header(line).1
    ensures ' ' !in line[1..] ==> Header(line) == (line[1..], "")
  {
    if ' ' in line[1..] {
      SplitOnceJoins(line[1..], ' ');
    }
  }

  /** One turn of fqiter's outer loop at the '@' line `pos`: the record and the line after
      its last accuracy line, or the error that ends the parse there. The sequence is the
      lines before the first '+' line, and a file without one is refused. */
  function RecordAt(lines: seq<string>, pos: nat): (r: Result<(FastqRecord, nat), FormatError>)
    requires pos < |lines| && lines[pos] != []
    ensures r.Success? ==> pos < r.value.1 <= |lines|
    ensures r.Success? ==> |r.value.0.sequence| == |r.value.0.accuracy|
    ensures r.Success? ==> ' ' !in r.value.0.name
    ensures r.Failure? ==> r.error == NoSeparator || r.error == LengthMismatch
  {
    var plus := SkipWhile(lines, pos + 1, BeforeSeparator);
    if plus == |lines| then Failure(NoSeparator)
    else RecordBetween(lines, pos, plus, SkipWhile(lines, plus + 1, AccuracyLine))
  }

  /** The record of the '@' line `pos`, the '+' line `plus` and the accuracy lines up to
      `stop`: the sequence is the lines between the first two, the accuracy the lines after
      the '+' line, and a record whose two differ in length is refused. */
  function RecordBetween(lines: seq<string>, pos: nat, plus: nat, stop: nat): (r: Result<(FastqRecord, nat), FormatError>)
    requires pos < plus < stop <= |lines| && lines[pos] != []
    ensures r.Success? ==> r.value.1 == stop
    ensures r.Success? <==> |Joined(lines, pos + 1, plus)| == |Joined(lines, plus + 1, stop)|
  {
    var h := Header(lines[pos]);
    var sequence := Joined(lines, pos + 1, plus);
    var accuracy := Joined(lines, plus + 1, stop);
    if |sequence| != |accuracy| then Failure(LengthMismatch)
    else Success((FastqRecord(h.0, h.1, sequence, accuracy), stop))
  }

  /** The records fqiter yields from line `pos` on, and the error that ends it, if any. */
  function RecordsFrom(lines: seq<string>, pos: nat): (p: Parsed<FastqRecord>)
    requires pos <= |lines|
    ensures p.error.Some? ==> p.error.value in {MissingFastqMarker, NoSeparator, LengthMismatch}
    ensures |p.records| <= |lines| - pos
    decreases |lines| - pos
  {
    if pos == |lines| || lines[pos] == "" then Parsed([], None)
    else if !StartsWith(lines[pos], '@') then Parsed([], Some(MissingFastqMarker))
    else match RecordAt(lines, pos)
      case Failure(e) => Parsed([], Some(e))
      case Success((record, next)) => Prepend([record], RecordsFrom(lines, next))
  }

  /** When the sequence loop from an '@' line stops at a '+' line, the accuracy loop after
      it stops at `stop`, and the header and the two runs of lines make up r, RecordAt reads
      r there and goes on at `stop`. */
  lemma RecordAtIs(lines: seq<string>, pos: nat, plus: nat, stop: nat, r: FastqRecord)
    requires pos < plus < stop <= |lines| && lines[pos] != []
    requires SkipWhile(lines, pos + 1, BeforeSeparator) == plus
    requires SkipWhile(lines, plus + 1, AccuracyLine) == stop
    requires Header(lines[pos]) == (r.name, r.annotations)
    requires Joined(lines, pos + 1, plus) == r.sequence && Joined(lines, plus + 1, stop) == r.accuracy
    requires |r.sequence| == |r.accuracy|
    ensures RecordAt(lines, pos) == Success((r, stop))
  {
    RecordBetweenIs(lines, pos, plus, stop, r);
  }

  /** The header and the two runs of lines that make up r, with as many quality characters
      as bases, are read back as r. */
  lemma RecordBetweenIs(lines: seq<string>, pos: nat, plus: nat, stop: nat, r: FastqRecord)
    requires pos < plus < stop <= |lines| && lines[pos] != []
    requires Header(lines[pos]) == (r.name, r.annotations)
    requires Joined(lines, pos + 1, plus) == r.sequence && Joined(lines, plus + 1, stop) == r.accuracy
    requires |r.sequence| == |r.accuracy|
    ensures RecordBetween(lines, pos, plus, stop) == Success((r, stop))
  {
  }

  /** At an '@' line where RecordAt finds a record, fqiter yields it and goes on after
      its last accuracy line. */
  lemma RecordsFromStep(lines: seq<string>, pos: nat, stop: nat, r: FastqRecord)
    requires pos < |lines| && StartsWith(lines[pos], '@')
    requires RecordAt(lines, pos) == Success((r, stop))
    ensures RecordsFrom(lines, pos) == Prepend([r], RecordsFrom(lines, stop))
  {
  }

  /** At an '@' line followed by such a record, fqiter yields it and goes on at `stop`. */
  lemma RecordsFromRun(lines: seq<string>, pos: nat, plus: nat, stop: nat, r: FastqRecord)
    requires pos < plus < stop <= |lines| && StartsWith(lines[pos], '@')
    requires SkipWhile(lines, pos + 1, BeforeSeparator) == plus
    requires SkipWhile(lines, plus + 1, AccuracyLine) == stop
    requires Header(lines[pos]) == (r.name, r.annotations)
    requires Joined(lines, pos + 1, plus) == r.sequence && Joined(lines, plus + 1, stop) == r.accuracy
    requires |r.sequence| == |r.accuracy|
    ensures RecordsFrom(lines, pos) == Prepend([r], RecordsFrom(lines, stop))
  {
    RecordAtIs(lines, pos, plus, stop, r);
    RecordsFromStep(lines, pos, stop, r);
  }

  /** The records fqiter yields on a file whose stripped lines are `lines`. */
  function Records(lines: seq<string>): Parsed<FastqRecord> {
    RecordsFrom(lines, 0)
  }

  /** One turn of fqiter's outer loop at an '@' line: split the header, collect the
      sequence lines up to the '+' line and the accuracy lines after it, and check their
      lengths. */
  method ReadRecord(lines: seq<string>, pos: nat) returns (r: Result<(FastqRecord, nat), FormatError>)
    requires pos < |lines| && StartsWith(lines[pos], '@')
    ensures r == RecordAt(lines, pos)
  {
    var header := Header(lines[pos]);
    var name, annotations := header.0, header.1;
    var plus, sequence := CollectWhile(lines, pos + 1, BeforeSeparator);
    if plus == |lines| {
      return Failure(NoSeparator);
    }
    var stop, accuracy := CollectWhile(lines, plus + 1, AccuracyLine);
    JoinedSlice(lines, pos + 1, plus);
    JoinedSlice(lines, plus + 1, stop);
    var record := FastqRecord(name, annotations, Concat(sequence), Concat(accuracy));
    if |record.sequence| != |record.accuracy| {
      return Failure(LengthMismatch);
    }
    return Success((record, stop));
  }

  /** fqiter, run to the end: the while loops of the source over the lines of the file. */
  method ParseFastq(lines: seq<string>) returns (p: Parsed<FastqRecord>)
    ensures p == Records(lines)
  {
    var out: seq<FastqRecord> := [];
    var pos := 0;
    var line := LineAt(lines, pos);
    while line != ""
      invariant pos <= |lines| && line == LineAt(lines, pos)
      invariant Records(lines) == Prepend(out, RecordsFrom(lines, pos))
      decreases |lines| - pos
    {
      if !StartsWith(line, '@') {
        return Parsed(out, Some(MissingFastqMarker));
      }
      var r := ReadRecord(lines, pos);
      if r.Failure? {
        return Parsed(out, Some(r.error));
      }
      PrependTwice(out, [r.value.0], RecordsFrom(lines, r.value.1));
      out := out + [r.value.0];
      pos := r.value.1;
      line := LineAt(lines, pos);
    }
    return Parsed(out, None);
  }

  /** Every record fqiter yields has a sequence and an accuracy of the same length. */
  lemma {:induction false} EqualLengths(lines: seq<string>, pos: nat)
    requires pos <= |lines|
    ensures forall r :: r in RecordsFrom(lines, pos).records ==> |r.sequence| == |r.accuracy|
    decreases |lines| - pos
  {
    if pos < |lines| && lines[pos] != "" && StartsWith(lines[pos], '@') && RecordAt(lines, pos).Success? {
      EqualLengths(lines, RecordAt(lines, pos).value.1);
    }
  }

  /** No record name holds a space; on lines without newlines no name or annotation
      holds one. */
  lemma {:induction false} HeadersSplitAtSpace(lines: seq<string>, pos: nat)
    requires pos <= |lines|
    ensures forall r :: r in RecordsFrom(lines, pos).records ==> ' ' !in r.name
    ensures (forall i :: 0 <= i < |lines| ==> '\n' !in lines[i]) ==>
      forall r :: r in RecordsFrom(lines, pos).records ==> '\n' !in r.name && '\n' !in r.annotations
    decreases |lines| - pos
  {
    if pos < |lines| && lines[pos] != "" && StartsWith(lines[pos], '@') && RecordAt(lines, pos).Success? {
      if '\n' !in lines[pos] {
        HeaderNoNewline(lines[pos]);
      }
      HeadersSplitAtSpace(lines, RecordAt(lines, pos).value.1);
    }
  }
}

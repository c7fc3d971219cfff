/** Writing records out with the toFasta / toFastq templates of screed/__init__.py and
    reading the text back with faiter / fqiter gives the same records, as long as the text
    can hold them: the parsers strip every line, so the sequence must be free of whitespace,
    the name must hold no space, and no wrapped line may look like the start of the next
    part of a record. */
module Recover {
  import opened Wrappers
  import opened Text
  import opened Lines
  import opened Store
  import opened Serialize
  import Fasta
  import Fastq
  import Hava

  /** None of the lines linewrap cuts s into starts with c. */
  predicate WrappedLinesAvoid(s: string, c: char) {
    forall i :: 0 <= i < |Chunks(s)| ==> Chunks(s)[i][0] != c
  }

  /** The lines linewrap writes for a sequence without whitespace hold no whitespace
      either. */
  lemma {:induction false} ChunkLines(s: string)
    requires NoSpace(s)
    ensures forall i :: 0 <= i < |Chunks(s)| ==> NoSpace(Chunks(s)[i])
    decreases |s|
  {
    if |s| > MaxLineLen {
      ChunkLines(s[MaxLineLen..]);
      assert Chunks(s)[1..] == Chunks(s[MaxLineLen..]);
    }
  }

  /** The lines linewrap writes for a sequence without whitespace hold no newline and
      strip() leaves them unchanged. */
  lemma ChunksStripped(s: string)
    requires NoSpace(s)
    ensures forall i :: 0 <= i < |Chunks(s)| ==> '\n' !in Chunks(s)[i]
    ensures StripAll(Chunks(s)) == Chunks(s)
  {
    ChunkLines(s);
    StripAllNoSpace(Chunks(s));
  }

  /** The lines of a list of groups of lines, one group after the other. */
  function Flatten(gs: seq<seq<string>>): seq<string> {
    if gs == [] then [] else gs[0] + Flatten(gs[1..])
  }

  lemma {:induction false} FlattenAppend(a: seq<seq<string>>, b: seq<seq<string>>)
    ensures Flatten(a + b) == Flatten(a) + Flatten(b)
  {
    if a == [] {
      assert a + b == b;
    } else {
      assert (a + b)[1..] == a[1..] + b;
      FlattenAppend(a[1..], b);
    }
  }

  /** The lines from pos on start with group. */
  predicate LinesAt(lines: seq<string>, pos: nat, group: seq<string>) {
    pos + |group| <= |lines| && forall k {:trigger group[k]} :: 0 <= k < |group| ==> lines[pos + k] == group[k]
  }

  lemma LinesAtSplit(lines: seq<string>, pos: nat, a: seq<string>, b: seq<string>)
    requires LinesAt(lines, pos, a + b)
    ensures LinesAt(lines, pos, a) && LinesAt(lines, pos + |a|, b)
  {
    forall k | 0 <= k < |a|
      ensures lines[pos + k] == a[k]
    {
      assert a[k] == (a + b)[k];
    }
    forall k | 0 <= k < |b|
      ensures lines[pos + |a| + k] == b[k]
    {
      assert b[k] == (a + b)[|a| + k];
    }
  }

  /** A loop of the parsers started at pos over lines that all pass its test stops right
      after them when the next line fails it, having taken exactly those lines. */
  lemma SkipOver(lines: seq<string>, pos: nat, group: seq<string>, test: LineTest)
    requires LinesAt(lines, pos, group)
    requires forall j :: 0 <= j < |group| ==> Keeps(test, group[j])
    requires pos + |group| < |lines| ==> !Keeps(test, lines[pos + |group|])
    ensures SkipWhile(lines, pos, test) == pos + |group|
    ensures Joined(lines, pos, pos + |group|) == Concat(group)
  {
    forall j | pos <= j < pos + |group|
      ensures Keeps(test, lines[j])
    {
      assert lines[j] == group[j - pos];
    }
    SkipWhileIs(lines, pos, test, pos + |group|);
    JoinedLinesAt(lines, pos, group);
  }

  /** The lines where a group sits glue into the group's text. */
  lemma {:induction false} JoinedLinesAt(lines: seq<string>, pos: nat, group: seq<string>)
    requires LinesAt(lines, pos, group)
    ensures Joined(lines, pos, pos + |group|) == Concat(group)
    decreases |group|
  {
    if group != [] {
      assert lines[pos] == group[0] by {
        assert lines[pos + 0] == group[0];
      }
      assert LinesAt(lines, pos + 1, group[1..]) by {
        forall k | 0 <= k < |group[1..]|
          ensures lines[pos + 1 + k] == group[1..][k]
        {
          assert lines[pos + (k + 1)] == group[k + 1];
        }
      }
      JoinedLinesAt(lines, pos + 1, group[1..]);
    }
  }

  /** What the templates write as comments and qualities for the records of each parser:
      a FASTA record's description, a FASTQ record's annotations, nothing for a hava record;
      toFastq on a FASTA store writes a '"' for every base. */
  lemma TemplateFieldsByFormat(fa: Fasta.FastaRecord, fq: Fastq.FastqRecord, hv: Hava.HavaRecord)
    ensures GetComments(fa.Fields()) == fa.description
    ensures GetComments(fq.Fields()) == fq.annotations
    ensures GetComments(hv.Fields()) == ""
    ensures GenerateAccuracy(fa.Fields()) == Success(Wrap(Repeat(NullAccuracy, |fa.sequence|)))
    ensures GenerateAccuracy(fq.Fields()) == Success(Wrap(fq.accuracy))
    ensures GenerateAccuracy(hv.Fields()) == Failure(KeyError)
  {
  }

  // ---------------------------------------------------------------------------------
  // FASTA

  /** The FASTA records toFasta writes so that faiter reads them back unchanged. */
  predicate FastaFits(r: Fasta.FastaRecord) {
    ' ' !in r.name && '\n' !in r.name && '\n' !in r.description &&
    Trimmed(r.name) && Trimmed(r.description) &&
    r.sequence != [] && NoSpace(r.sequence) && WrappedLinesAvoid(r.sequence, '>')
  }

  /** The lines toFasta writes for one record: '>name description', then the sequence
      wrapped at 80 characters. */
  function FastaWritten(r: Fasta.FastaRecord): seq<string> {
    [">" + r.name + " " + r.description] + Chunks(r.sequence)
  }

  /** The header line as readline().strip() gives it back: the space written before an
      empty description is gone. */
  function FastaHeaderLine(r: Fasta.FastaRecord): string {
    if r.description == "" then ">" + r.name else ">" + r.name + " " + r.description
  }

  /** The lines faiter sees for one written record. */
  function FastaRead(r: Fasta.FastaRecord): seq<string> {
    [FastaHeaderLine(r)] + Chunks(r.sequence)
  }

  function FastaWrittenAll(rs: seq<Fasta.FastaRecord>): seq<seq<string>> {
    seq(|rs|, i requires 0 <= i < |rs| => FastaWritten(rs[i]))
  }

  function FastaReadAll(rs: seq<Fasta.FastaRecord>): seq<seq<string>> {
    seq(|rs|, i requires 0 <= i < |rs| => FastaRead(rs[i]))
  }

  /** The text written for a run of records. */
  function FastaText(rs: seq<Fasta.FastaRecord>): string {
    Unlines(Flatten(FastaWrittenAll(rs)))
  }

  /** The toFasta template for one record is the text of its written lines. */
  lemma FastaEntry(r: Fasta.FastaRecord)
    requires r.sequence != []
    ensures Entry(FastaFormat, r.Fields()) == Success(Unlines(FastaWritten(r)))
  {
    var header := ">" + r.name + " " + r.description;
    var cs := Chunks(r.sequence);
    assert GetComments(r.Fields()) == r.description;
    JoinThenNewline(cs);
    var text := ">" + (r.name + " " + r.description + "\n") + (Wrap(r.sequence) + "\n");
    assert Entry(FastaFormat, r.Fields()) == Success(text);
    assert text == header + "\n" + (Wrap(r.sequence) + "\n");
    assert FastaWritten(r)[1..] == cs;
    assert Unlines(FastaWritten(r)) == header + "\n" + Unlines(cs);
  }

  /** Stripping the written lines of a fitting record gives the lines faiter sees, and
      none of the written lines holds a newline. */
  lemma FastaStripped(r: Fasta.FastaRecord)
    requires FastaFits(r)
    ensures forall i :: 0 <= i < |FastaWritten(r)| ==> '\n' !in FastaWritten(r)[i]
    ensures StripAll(FastaWritten(r)) == FastaRead(r)
  {
    var cs := Chunks(r.sequence);
    ChunkLines(r.sequence);
    forall i | 0 <= i < |cs|
      ensures '\n' !in cs[i] && Strip(cs[i]) == cs[i]
    {
      NoSpaceStripped(cs[i]);
    }
    var written := ">" + r.name + " " + r.description;
    assert Trimmed(">" + r.name) by {
      assert (">" + r.name)[0] == '>';
    }
    if r.description == "" {
      assert written == (">" + r.name) + " ";
      StripTrailingSpace(">" + r.name);
    } else {
      assert written[0] == '>';
      assert written[|written| - 1] == r.description[|r.description| - 1];
    }
    assert '\n' !in written;
  }

  /** The header line faiter sees splits back into the record's name and description. */
  lemma FastaHeaderBack(r: Fasta.FastaRecord)
    requires FastaFits(r)
    ensures Fasta.Header(FastaHeaderLine(r)) == (r.name, r.description)
  {
    var line := FastaHeaderLine(r);
    if r.description == "" {
      assert line[1..] == r.name;
      Fasta.HeaderWithoutSpace(line);
    } else {
      assert line[1..] == r.name + " " + r.description;
      Fasta.HeaderSplit(line, r.name, r.description);
    }
  }

  /** faiter's sequence loop run over the lines linewrap writes for a sequence whose lines
      do not start with '>' takes exactly those lines, which glue back into the sequence. */
  lemma FastaChunksSkipped(lines: seq<string>, pos: nat, stop: nat, s: string)
    requires WrappedLinesAvoid(s, '>') && LinesAt(lines, pos, Chunks(s)) && stop == pos + |Chunks(s)|
    requires stop < |lines| ==> !Keeps(SequenceLine, lines[stop])
    ensures SkipWhile(lines, pos, SequenceLine) == stop
    ensures Joined(lines, pos, stop) == s
  {
    var cs := Chunks(s);
    forall j | 0 <= j < |cs|
      ensures Keeps(SequenceLine, cs[j])
    {
    }
    SkipOver(lines, pos, cs, SequenceLine);
    ConcatChunks(s);
  }

  /** How faiter's loops run over a record's lines: the sequence loop stops right after
      them, and the lines make up the record. */
  lemma FastaLinesRun(lines: seq<string>, pos: nat, r: Fasta.FastaRecord)
    requires FastaFits(r)
    requires LinesAt(lines, pos, FastaRead(r))
    requires pos + |FastaRead(r)| < |lines| ==> !Keeps(SequenceLine, lines[pos + |FastaRead(r)|])
    ensures StartsWith(lines[pos], '>')
    ensures SkipWhile(lines, pos + 1, SequenceLine) == pos + |FastaRead(r)|
    ensures Fasta.RecordOf(lines, pos, pos + |FastaRead(r)|) == r
  {
    var h, cs := FastaHeaderLine(r), Chunks(r.sequence);
    LinesAtSplit(lines, pos, [h], cs);
    assert lines[pos] == h by {
      assert lines[pos + 0] == [h][0];
    }
    assert h[0] == '>';
    FastaChunksSkipped(lines, pos + 1, pos + |FastaRead(r)|, r.sequence);
    FastaHeaderBack(r);
  }

  /** The lines faiter sees for a run of written FASTA records: the lines of the first
      record, which start with its '>' header, then those of the others. */
  lemma FastaRunHead(rs: seq<Fasta.FastaRecord>)
    requires rs != []
    ensures Flatten(FastaReadAll(rs)) == FastaRead(rs[0]) + Flatten(FastaReadAll(rs[1..]))
    ensures !Keeps(SequenceLine, Flatten(FastaReadAll(rs))[0])
  {
    var groups := FastaReadAll(rs);
    assert groups[0] == FastaRead(rs[0]) && groups[1..] == FastaReadAll(rs[1..]);
    assert Flatten(groups)[0] == FastaHeaderLine(rs[0]);
    assert FastaHeaderLine(rs[0])[0] == '>';
  }

  /** faiter reads back every record of a run of written FASTA records, and nothing else. */
  lemma {:induction false} FastaRecordsLines(lines: seq<string>, pos: nat, rs: seq<Fasta.FastaRecord>)
    requires forall i :: 0 <= i < |rs| ==> FastaFits(rs[i])
    requires LinesAt(lines, pos, Flatten(FastaReadAll(rs))) && pos + |Flatten(FastaReadAll(rs))| == |lines|
    ensures Fasta.RecordsFrom(lines, pos) == Parsed(rs, None)
    decreases |rs|
  {
    if rs == [] {
      assert FastaReadAll(rs) == [];
    } else {
      var r, tail := rs[0], rs[1..];
      var next := pos + |FastaRead(r)|;
      assert Prepend([r], Parsed(tail, None)) == Parsed(rs, None) by {
        assert [r] + tail == rs;
      }
      FastaRunHead(rs);
      LinesAtSplit(lines, pos, FastaRead(r), Flatten(FastaReadAll(tail)));
      if tail != [] {
        FastaRunHead(tail);
        assert lines[next] == Flatten(FastaReadAll(tail))[0];
      } else {
        assert FastaReadAll(tail) == [];
      }
      FastaLinesRun(lines, pos, r);
      Fasta.RecordsFromStep(lines, pos, next, r);
      FastaRecordsLines(lines, next, tail);
    }
  }

  /** Stripping every written line of a run of records gives the lines faiter sees. */
  lemma {:induction false} FastaStrippedAll(rs: seq<Fasta.FastaRecord>)
    requires forall i :: 0 <= i < |rs| ==> FastaFits(rs[i])
    ensures forall i :: 0 <= i < |Flatten(FastaWrittenAll(rs))| ==> '\n' !in Flatten(FastaWrittenAll(rs))[i]
    ensures StripAll(Flatten(FastaWrittenAll(rs))) == Flatten(FastaReadAll(rs))
    decreases |rs|
  {
    if rs != [] {
      var written := FastaWrittenAll(rs);
      assert written[0] == FastaWritten(rs[0]) && written[1..] == FastaWrittenAll(rs[1..]);
      assert FastaReadAll(rs)[0] == FastaRead(rs[0]) && FastaReadAll(rs)[1..] == FastaReadAll(rs[1..]);
      FastaStripped(rs[0]);
      FastaStrippedAll(rs[1..]);
      StripAllAppend(FastaWritten(rs[0]), Flatten(FastaWrittenAll(rs[1..])));
    }
  }

  /** The round trip of the tests: the FASTA text written for fitting records reads back as
      exactly those records, with no error. */
  lemma FastaRoundTrip(rs: seq<Fasta.FastaRecord>)
    requires forall i :: 0 <= i < |rs| ==> FastaFits(rs[i])
    ensures Fasta.Records(ReadLines(FastaText(rs))) == Parsed(rs, None)
  {
    var written := Flatten(FastaWrittenAll(rs));
    FastaStrippedAll(rs);
    SplitUnlines(written);
    var lines := ReadLines(Unlines(written));
    assert LinesAt(lines, 0, lines);
    FastaRecordsLines(lines, 0, rs);
  }

  // ---------------------------------------------------------------------------------
  // FASTQ

  /** s does not end in whitespace, so strip() leaves its end alone. */
  predicate EndTrimmed(s: string) {
    s == [] || !IsSpace(s[|s| - 1])
  }

  /** The FASTQ records toFastq writes so that fqiter reads them back unchanged: the header
      line must survive strip(), no sequence line may start with '+', no quality line with
      '@', and neither may be empty or hold whitespace. */
  predicate FastqFits(r: Fastq.FastqRecord) {
    ' ' !in r.name && '\n' !in r.name && '\n' !in r.annotations &&
    (if r.annotations == "" then EndTrimmed(r.name) else EndTrimmed(r.annotations)) &&
    r.sequence != [] && NoSpace(r.sequence) && WrappedLinesAvoid(r.sequence, '+') &&
    |r.accuracy| == |r.sequence| && NoSpace(r.accuracy) && WrappedLinesAvoid(r.accuracy, '@')
  }

  /** The lines toFastq writes for one record: '@name annotations', the wrapped sequence,
      '+', the wrapped accuracy. */
  function FastqWritten(r: Fastq.FastqRecord): seq<string> {
    ["@" + r.name + " " + r.annotations] + Chunks(r.sequence) + ["+"] + Chunks(r.accuracy)
  }

  /** The header line as readline().strip() gives it back. */
  function FastqHeaderLine(r: Fastq.FastqRecord): string {
    if r.annotations == "" then "@" + r.name else "@" + r.name + " " + r.annotations
  }

  /** The lines fqiter sees for one written record. */
  function FastqRead(r: Fastq.FastqRecord): seq<string> {
    [FastqHeaderLine(r)] + Chunks(r.sequence) + ["+"] + Chunks(r.accuracy)
  }

  function FastqWrittenAll(rs: seq<Fastq.FastqRecord>): seq<seq<string>> {
    seq(|rs|, i requires 0 <= i < |rs| => FastqWritten(rs[i]))
  }

  function FastqReadAll(rs: seq<Fastq.FastqRecord>): seq<seq<string>> {
    seq(|rs|, i requires 0 <= i < |rs| => FastqRead(rs[i]))
  }

  /** The text written for a run of records. */
  function FastqText(rs: seq<Fastq.FastqRecord>): string {
    Unlines(Flatten(FastqWrittenAll(rs)))
  }

  /** The toFastq template for one record is the text of its written lines. */
  lemma FastqEntry(r: Fastq.FastqRecord)
    requires r.sequence != [] && r.accuracy != []
    ensures Entry(FastqFormat, r.Fields()) == Success(Unlines(FastqWritten(r)))
  {
    var header := "@" + r.name + " " + r.annotations;
    var cs := Chunks(r.sequence);
    var qs := Chunks(r.accuracy);
    assert GetComments(r.Fields()) == r.annotations;
    assert GenerateAccuracy(r.Fields()) == Success(Wrap(r.accuracy));
    JoinThenNewline(cs);
    JoinThenNewline(qs);
    var text := "@" + (r.name + " " + r.annotations + "\n") + (Wrap(r.sequence) + "\n") + "+\n" + Wrap(r.accuracy) + "\n";
    assert Entry(FastqFormat, r.Fields()) == Success(text);
    assert text == header + "\n" + (Wrap(r.sequence) + "\n") + "+\n" + (Wrap(r.accuracy) + "\n");
    FastqWrittenText(r);
  }

  /** The text of a record's written lines: the header, the sequence lines, '+' and the
      accuracy lines, each ended by a newline. */
  lemma FastqWrittenText(r: Fastq.FastqRecord)
    ensures Unlines(FastqWritten(r)) == "@" + r.name + " " + r.annotations + "\n" +
      Unlines(Chunks(r.sequence)) + "+\n" + Unlines(Chunks(r.accuracy))
  {
    var header := "@" + r.name + " " + r.annotations;
    var cs := Chunks(r.sequence);
    var qs := Chunks(r.accuracy);
    UnlinesAppend([header] + cs + ["+"], qs);
    UnlinesAppend([header] + cs, ["+"]);
    UnlinesAppend([header], cs);
    assert Unlines([header]) == header + "\n";
    assert Unlines(["+"]) == "+\n";
  }

  /** The written header line holds no newline and strip() turns it into the header line
      fqiter sees. */
  lemma FastqHeaderStripped(r: Fastq.FastqRecord)
    requires FastqFits(r)
    ensures '\n' !in "@" + r.name + " " + r.annotations
    ensures Strip("@" + r.name + " " + r.annotations) == FastqHeaderLine(r)
  {
    var written := "@" + r.name + " " + r.annotations;
    if r.annotations == "" {
      assert Trimmed("@" + r.name) by {
        assert ("@" + r.name)[0] == '@';
        assert r.name != [] ==> ("@" + r.name)[|r.name|] == r.name[|r.name| - 1];
      }
      assert written == ("@" + r.name) + " ";
      StripTrailingSpace("@" + r.name);
    } else {
      assert written[0] == '@';
      assert written[|written| - 1] == r.annotations[|r.annotations| - 1];
    }
  }

  /** Stripping the written lines of a fitting record gives the lines fqiter sees, and none
      of the written lines holds a newline. */
  lemma FastqStripped(r: Fastq.FastqRecord)
    requires FastqFits(r)
    ensures forall i :: 0 <= i < |FastqWritten(r)| ==> '\n' !in FastqWritten(r)[i]
    ensures StripAll(FastqWritten(r)) == FastqRead(r)
  {
    FastqHeaderStripped(r);
    ChunksStripped(r.sequence);
    ChunksStripped(r.accuracy);
    StripFastqParts("@" + r.name + " " + r.annotations, FastqHeaderLine(r), Chunks(r.sequence), Chunks(r.accuracy));
  }

  /** strip() on the four parts of a written FASTQ record, each line on its own. */
  lemma StripFastqParts(header: string, stripped: string, cs: seq<string>, qs: seq<string>)
    requires '\n' !in header && Strip(header) == stripped
    requires forall i :: 0 <= i < |cs| ==> '\n' !in cs[i]
    requires forall i :: 0 <= i < |qs| ==> '\n' !in qs[i]
    requires StripAll(cs) == cs && StripAll(qs) == qs
    ensures forall i :: 0 <= i < |[header] + cs + ["+"] + qs| ==> '\n' !in ([header] + cs + ["+"] + qs)[i]
    ensures StripAll([header] + cs + ["+"] + qs) == [stripped] + cs + ["+"] + qs
  {
    var front := [header] + cs + ["+"];
    assert StripAll([header]) == [stripped];
    assert StripAll(["+"]) == ["+"];
    StripAllAppend([header], cs);
    StripAllAppend([header] + cs, ["+"]);
    StripAllAppend(front, qs);
  }

  /** The header line fqiter sees splits back into the record's name and annotations. */
  lemma FastqHeaderBack(r: Fastq.FastqRecord)
    requires FastqFits(r)
    ensures StartsWith(FastqHeaderLine(r), '@')
    ensures Fastq.Header(FastqHeaderLine(r)) == (r.name, r.annotations)
  {
    var line := FastqHeaderLine(r);
    if r.annotations == "" {
      assert line[1..] == r.name;
    } else {
      assert line[1..] == r.name + " " + r.annotations;
      SplitOnceAt(line[1..], ' ', r.name, r.annotations);
    }
  }

  /** fqiter's sequence loop run over the lines linewrap writes for a sequence whose lines
      do not start with '+' takes exactly those lines and stops at the '+' line after them;
      they glue back into the sequence. */
  lemma SequenceChunksSkipped(lines: seq<string>, pos: nat, stop: nat, s: string)
    requires WrappedLinesAvoid(s, '+') && LinesAt(lines, pos, Chunks(s)) && stop == pos + |Chunks(s)|
    requires stop < |lines| && lines[stop] == "+"
    ensures SkipWhile(lines, pos, BeforeSeparator) == stop
    ensures Joined(lines, pos, stop) == s
  {
    var cs := Chunks(s);
    forall j | 0 <= j < |cs|
      ensures Keeps(BeforeSeparator, cs[j])
    {
    }
    SkipOver(lines, pos, cs, BeforeSeparator);
    ConcatChunks(s);
  }

  /** fqiter's accuracy loop run over the lines linewrap writes for an accuracy whose lines
      do not start with '@' takes exactly those lines, when the line after them is blank or
      an '@' line; they glue back into the accuracy. */
  lemma AccuracyChunksSkipped(lines: seq<string>, pos: nat, stop: nat, s: string)
    requires WrappedLinesAvoid(s, '@') && LinesAt(lines, pos, Chunks(s)) && stop == pos + |Chunks(s)|
    requires stop < |lines| ==> !Keeps(AccuracyLine, lines[stop])
    ensures SkipWhile(lines, pos, AccuracyLine) == stop
    ensures Joined(lines, pos, stop) == s
  {
    var cs := Chunks(s);
    forall j | 0 <= j < |cs|
      ensures Keeps(AccuracyLine, cs[j])
    {
    }
    SkipOver(lines, pos, cs, AccuracyLine);
    ConcatChunks(s);
  }

  /** Where a record's lines sit: its header line, its sequence lines, the '+' line and
      its accuracy lines, one after the other. */
  lemma FastqLinesAt(lines: seq<string>, pos: nat, r: Fastq.FastqRecord)
    requires LinesAt(lines, pos, FastqRead(r))
    ensures var cs, qs := Chunks(r.sequence), Chunks(r.accuracy);
      |FastqRead(r)| == 2 + |cs| + |qs| && lines[pos] == FastqHeaderLine(r) &&
      LinesAt(lines, pos + 1, cs) && lines[pos + 1 + |cs|] == "+" &&
      LinesAt(lines, pos + 2 + |cs|, qs)
  {
    var h, cs, qs := FastqHeaderLine(r), Chunks(r.sequence), Chunks(r.accuracy);
    LinesAtSplit(lines, pos, [h] + cs + ["+"], qs);
    LinesAtSplit(lines, pos, [h] + cs, ["+"]);
    LinesAtSplit(lines, pos, [h], cs);
    assert lines[pos + 0] == [h][0];
    assert lines[pos + 1 + |cs| + 0] == ["+"][0];
  }

  /** How fqiter's loops run over a record's lines: the sequence loop stops at its '+'
      line, the accuracy loop right after its last line, and the header and the two runs of
      lines make up the record. */
  lemma FastqLinesRun(lines: seq<string>, pos: nat, r: Fastq.FastqRecord)
    requires FastqFits(r)
    requires LinesAt(lines, pos, FastqRead(r))
    requires pos + |FastqRead(r)| < |lines| ==> !Keeps(AccuracyLine, lines[pos + |FastqRead(r)|])
    ensures var plus, stop := pos + 1 + |Chunks(r.sequence)|, pos + |FastqRead(r)|;
      plus < stop <= |lines| && StartsWith(lines[pos], '@') &&
      Fastq.Header(lines[pos]) == (r.name, r.annotations) &&
      SkipWhile(lines, pos + 1, BeforeSeparator) == plus &&
      SkipWhile(lines, plus + 1, AccuracyLine) == stop &&
      Joined(lines, pos + 1, plus) == r.sequence && Joined(lines, plus + 1, stop) == r.accuracy
  {
    var plus := pos + 1 + |Chunks(r.sequence)|;
    FastqLinesAt(lines, pos, r);
    FastqHeaderBack(r);
    SequenceChunksSkipped(lines, pos + 1, plus, r.sequence);
    AccuracyChunksSkipped(lines, plus + 1, pos + |FastqRead(r)|, r.accuracy);
  }

  /** At the lines of a fitting record, followed by a line that cannot continue its
      accuracy, fqiter yields the record and goes on after its lines. */
  lemma FastqReadsRecord(lines: seq<string>, pos: nat, r: Fastq.FastqRecord)
    requires FastqFits(r)
    requires LinesAt(lines, pos, FastqRead(r))
    requires pos + |FastqRead(r)| < |lines| ==> !Keeps(AccuracyLine, lines[pos + |FastqRead(r)|])
    ensures Fastq.RecordsFrom(lines, pos) == Prepend([r], Fastq.RecordsFrom(lines, pos + |FastqRead(r)|))
  {
    FastqLinesRun(lines, pos, r);
    Fastq.RecordsFromRun(lines, pos, pos + 1 + |Chunks(r.sequence)|, pos + |FastqRead(r)|, r);
  }

  /** The lines fqiter sees for a run of written FASTQ records: the lines of the first
      record, which start with its '@' header, then those of the others. */
  lemma FastqRunHead(rs: seq<Fastq.FastqRecord>)
    requires rs != []
    ensures Flatten(FastqReadAll(rs)) == FastqRead(rs[0]) + Flatten(FastqReadAll(rs[1..]))
    ensures !Keeps(AccuracyLine, Flatten(FastqReadAll(rs))[0])
  {
    var groups := FastqReadAll(rs);
    assert groups[0] == FastqRead(rs[0]) && groups[1..] == FastqReadAll(rs[1..]);
    assert Flatten(groups)[0] == FastqHeaderLine(rs[0]);
    assert FastqHeaderLine(rs[0])[0] == '@';
  }

  /** fqiter reads back every record of a run of written FASTQ records, and nothing else. */
  lemma {:induction false} FastqRecordsLines(lines: seq<string>, pos: nat, rs: seq<Fastq.FastqRecord>)
    requires forall i :: 0 <= i < |rs| ==> FastqFits(rs[i])
    requires LinesAt(lines, pos, Flatten(FastqReadAll(rs))) && pos + |Flatten(FastqReadAll(rs))| == |lines|
    ensures Fastq.RecordsFrom(lines, pos) == Parsed(rs, None)
    decreases |rs|
  {
    if rs == [] {
      assert FastqReadAll(rs) == [];
    } else {
      var r, tail := rs[0], rs[1..];
      var next := pos + |FastqRead(r)|;
      assert Prepend([r], Parsed(tail, None)) == Parsed(rs, None) by {
        assert [r] + tail == rs;
      }
      FastqRunHead(rs);
      LinesAtSplit(lines, pos, FastqRead(r), Flatten(FastqReadAll(tail)));
      if tail != [] {
        FastqRunHead(tail);
        assert lines[next] == Flatten(FastqReadAll(tail))[0];
      } else {
        assert FastqReadAll(tail) == [];
      }
      FastqReadsRecord(lines, pos, r);
      FastqRecordsLines(lines, next, tail);
    }
  }

  /** Stripping every written line of a run of records gives the lines fqiter sees. */
  lemma {:induction false} FastqStrippedAll(rs: seq<Fastq.FastqRecord>)
    requires forall i :: 0 <= i < |rs| ==> FastqFits(rs[i])
    ensures forall i :: 0 <= i < |Flatten(FastqWrittenAll(rs))| ==> '\n' !in Flatten(FastqWrittenAll(rs))[i]
    ensures StripAll(Flatten(FastqWrittenAll(rs))) == Flatten(FastqReadAll(rs))
    decreases |rs|
  {
    if rs != [] {
      var written := FastqWrittenAll(rs);
      assert written[0] == FastqWritten(rs[0]) && written[1..] == FastqWrittenAll(rs[1..]);
      assert FastqReadAll(rs)[0] == FastqRead(rs[0]) && FastqReadAll(rs)[1..] == FastqReadAll(rs[1..]);
      FastqStripped(rs[0]);
      FastqStrippedAll(rs[1..]);
      StripAllAppend(FastqWritten(rs[0]), Flatten(FastqWrittenAll(rs[1..])));
    }
  }

  /** The round trip of the tests: the FASTQ text written for fitting records reads back as
      exactly those records, with no error. */
  lemma FastqRoundTrip(rs: seq<Fastq.FastqRecord>)
    requires forall i :: 0 <= i < |rs| ==> FastqFits(rs[i])
    ensures Fastq.Records(ReadLines(FastqText(rs))) == Parsed(rs, None)
  {
    var written := Flatten(FastqWrittenAll(rs));
    FastqStrippedAll(rs);
    SplitUnlines(written);
    var lines := ReadLines(Unlines(written));
    assert LinesAt(lines, 0, lines);
    FastqRecordsLines(lines, 0, rs);
  }

  // ---------------------------------------------------------------------------------
  // Through the store: create_db, then toFasta / toFastq, then create_db again

  /** The text of a run of groups of lines is the texts of the groups, one after the
      other. */
  lemma {:induction false} UnlinesFlatten(gs: seq<seq<string>>)
    ensures Unlines(Flatten(gs)) == Concat(seq(|gs|, i requires 0 <= i < |gs| => Unlines(gs[i])))
  {
    var texts := seq(|gs|, i requires 0 <= i < |gs| => Unlines(gs[i]));
    if gs != [] {
      UnlinesAppend(gs[0], Flatten(gs[1..]));
      UnlinesFlatten(gs[1..]);
      assert texts[1..] == seq(|gs[1..]|, i requires 0 <= i < |gs[1..]| => Unlines(gs[1..][i]));
    }
  }

  /** When every record goes through the template, the dump loop writes their texts one
      after the other. */
  lemma {:induction false} EntriesText(format: OutFormat, values: seq<Record>, texts: seq<string>)
    requires |values| == |texts|
    requires forall i :: 0 <= i < |values| ==> Entry(format, values[i].fields) == Success(texts[i])
    ensures Entries(format, values) == Success(Concat(texts))
    decreases |values|
  {
    if values != [] {
      var n := |values| - 1;
      EntriesText(format, values[..n], texts[..n]);
      EntriesStep(format, values, Concat(texts[..n]), texts[n]);
      ConcatLast(texts);
    }
  }

  /** The dump of the records is the dump of all but the last followed by the last one's
      text. */
  lemma EntriesStep(format: OutFormat, values: seq<Record>, init: string, last: string)
    requires values != []
    requires Entries(format, values[..|values| - 1]) == Success(init)
    requires Entry(format, values[|values| - 1].fields) == Success(last)
    ensures Entries(format, values) == Success(init + last)
  {
  }

  lemma ConcatLast(texts: seq<string>)
    requires texts != []
    ensures Concat(texts[..|texts| - 1]) + texts[|texts| - 1] == Concat(texts)
  {
    var n := |texts| - 1;
    ConcatAppend(texts[..n], [texts[n]]);
    assert texts[..n] + [texts[n]] == texts;
    assert Concat([texts[n]]) == texts[n];
  }

  function FastaDicts(rs: seq<Fasta.FastaRecord>): seq<map<string, string>> {
    seq(|rs|, i requires 0 <= i < |rs| => rs[i].Fields())
  }

  /** The dicts of records with distinct names are what create_db accepts for a Fasta
      store. */
  lemma FastaDictsAccepted(rs: seq<Fasta.FastaRecord>)
    requires forall i, j :: 0 <= i < j < |rs| ==> rs[i].name != rs[j].name
    ensures GoodSchema(Fasta.FieldTypes)
    ensures forall i :: 0 <= i < |rs| ==> FastaDicts(rs)[i].Keys == set f | f in Fasta.FieldTypes
    ensures forall i, j :: 0 <= i < j < |rs| ==>
      FastaDicts(rs)[i][Fasta.FieldTypes[0]] != FastaDicts(rs)[j][Fasta.FieldTypes[0]]
  {
  }

  /** toFasta on the store built from fitting records writes exactly the text of their
      written lines. */
  lemma FastaDump(rs: seq<Fasta.FastaRecord>)
    requires rs != []
    requires forall i :: 0 <= i < |rs| ==> FastaFits(rs[i])
    requires forall i, j :: 0 <= i < j < |rs| ==> rs[i].name != rs[j].name
    ensures Build(Fasta.FieldTypes, Parsed(FastaDicts(rs), None)).Success?
    ensures WellFormed(Build(Fasta.FieldTypes, Parsed(FastaDicts(rs), None)).value)
    ensures Dump(FastaFormat, Build(Fasta.FieldTypes, Parsed(FastaDicts(rs), None)).value) == Success(FastaText(rs))
  {
    var ms := FastaDicts(rs);
    FastaDictsAccepted(rs);
    BuiltRecords(Fasta.FieldTypes, ms);
    var t := Build(Fasta.FieldTypes, Parsed(ms, None)).value;
    var values := AllRecords(t);
    var groups := FastaWrittenAll(rs);
    var texts := seq(|groups|, i requires 0 <= i < |groups| => Unlines(groups[i]));
    forall i | 0 <= i < |values|
      ensures Entry(FastaFormat, values[i].fields) == Success(texts[i])
    {
      FastaEntry(rs[i]);
    }
    EntriesText(FastaFormat, values, texts);
    UnlinesFlatten(groups);
  }

  /** The recovery test for Fasta: build a store from records, write it out, read the text
      back with the parser into a new store: it is the same store. */
  lemma FastaStoreRoundTrip(rs: seq<Fasta.FastaRecord>)
    requires rs != []
    requires forall i :: 0 <= i < |rs| ==> FastaFits(rs[i])
    requires forall i, j :: 0 <= i < j < |rs| ==> rs[i].name != rs[j].name
    ensures var built := Build(Fasta.FieldTypes, Parsed(FastaDicts(rs), None));
      built.Success? && WellFormed(built.value) &&
      Dump(FastaFormat, built.value) == Success(FastaText(rs)) &&
      Build(Fasta.FieldTypes, FieldMaps(Fasta.Records(ReadLines(FastaText(rs))), (r: Fasta.FastaRecord) => r.Fields())) == built
  {
    FastaDump(rs);
    FastaRoundTrip(rs);
    assert FieldMaps(Parsed(rs, None), (r: Fasta.FastaRecord) => r.Fields()) == Parsed(FastaDicts(rs), None);
  }

  function FastqDicts(rs: seq<Fastq.FastqRecord>): seq<map<string, string>> {
    seq(|rs|, i requires 0 <= i < |rs| => rs[i].Fields())
  }

  /** The dicts of records with distinct names are what create_db accepts for a Fastq
      store. */
  lemma FastqDictsAccepted(rs: seq<Fastq.FastqRecord>)
    requires forall i, j :: 0 <= i < j < |rs| ==> rs[i].name != rs[j].name
    ensures GoodSchema(Fastq.FieldTypes)
    ensures forall i :: 0 <= i < |rs| ==> FastqDicts(rs)[i].Keys == set f | f in Fastq.FieldTypes
    ensures forall i, j :: 0 <= i < j < |rs| ==>
      FastqDicts(rs)[i][Fastq.FieldTypes[0]] != FastqDicts(rs)[j][Fastq.FieldTypes[0]]
  {
  }

  /** toFastq on the store built from fitting records writes exactly the text of their
      written lines. */
  lemma FastqDump(rs: seq<Fastq.FastqRecord>)
    requires rs != []
    requires forall i :: 0 <= i < |rs| ==> FastqFits(rs[i])
    requires forall i, j :: 0 <= i < j < |rs| ==> rs[i].name != rs[j].name
    ensures Build(Fastq.FieldTypes, Parsed(FastqDicts(rs), None)).Success?
    ensures WellFormed(Build(Fastq.FieldTypes, Parsed(FastqDicts(rs), None)).value)
    ensures Dump(FastqFormat, Build(Fastq.FieldTypes, Parsed(FastqDicts(rs), None)).value) == Success(FastqText(rs))
  {
    var ms := FastqDicts(rs);
    FastqDictsAccepted(rs);
    BuiltRecords(Fastq.FieldTypes, ms);
    var t := Build(Fastq.FieldTypes, Parsed(ms, None)).value;
    var values := AllRecords(t);
    var groups := FastqWrittenAll(rs);
    var texts := seq(|groups|, i requires 0 <= i < |groups| => Unlines(groups[i]));
    forall i | 0 <= i < |values|
      ensures Entry(FastqFormat, values[i].fields) == Success(texts[i])
    {
      FastqEntry(rs[i]);
    }
    EntriesText(FastqFormat, values, texts);
    UnlinesFlatten(groups);
  }

  /** The recovery test for Fastq: build a store from records, write it out, read the text
      back with the parser into a new store: it is the same store. */
  lemma FastqStoreRoundTrip(rs: seq<Fastq.FastqRecord>)
    requires rs != []
    requires forall i :: 0 <= i < |rs| ==> FastqFits(rs[i])
    requires forall i, j :: 0 <= i < j < |rs| ==> rs[i].name != rs[j].name
    ensures var built := Build(Fastq.FieldTypes, Parsed(FastqDicts(rs), None));
      built.Success? && WellFormed(built.value) &&
      Dump(FastqFormat, built.value) == Success(FastqText(rs)) &&
      Build(Fastq.FieldTypes, FieldMaps(Fastq.Records(ReadLines(FastqText(rs))), (r: Fastq.FastqRecord) => r.Fields())) == built
  {
    FastqDump(rs);
    FastqRoundTrip(rs);
    assert FieldMaps(Parsed(rs, None), (r: Fastq.FastqRecord) => r.Fields()) == Parsed(FastqDicts(rs), None);
  }
}

/** What the three record parsers share: the input as the list of lines that successive
    `handle.readline().strip()` calls return, the format errors they raise, and the shape of
    what a parser produces when its generator is run to the end. */
module Lines {
  import opened Wrappers
  import opened Text

  /** The IOErrors the parsers raise, plus the input on which the FASTQ parser never
      returns. */
  datatype FormatError =
    | MissingFastaMarker   // a FASTA record line that does not start with '>'
    | MissingFastqMarker   // a FASTQ record line that does not start with '@'
    | LengthMismatch       // a FASTQ record whose sequence and accuracy differ in length
    | NoSeparator          // a FASTQ record with no '+' line after it: the source loops forever

  /** Everything a parser generator yields, in order, and the error that ended it, if any.
      create_db consumes the generator lazily, so records yielded before an error are
      inserted before that error surfaces. */
  datatype Parsed<R> = Parsed(records: seq<R>, error: Option<FormatError>)

  function Prepend<R>(rs: seq<R>, p: Parsed<R>): Parsed<R> {
    Parsed(rs + p.records, p.error)
  }

  lemma PrependTwice<R>(a: seq<R>, b: seq<R>, p: Parsed<R>)
    ensures Prepend(a, Prepend(b, p)) == Prepend(a + b, p)
  {
    assert a + (b + p.records) == (a + b) + p.records;
  }

  /** What the i-th readline().strip() returns: past the end of the file it keeps
      returning '', so a blank line and end of file look alike. */
  function LineAt(lines: seq<string>, i: nat): string {
    if i < |lines| then lines[i] else ""
  }

  /** The tests the parsers' inner loops apply to each line. */
  datatype LineTest =
    | SequenceLine     // faiter's sequence loop
    | BeforeSeparator  // fqiter's sequence loop
    | AccuracyLine     // fqiter's accuracy loop

  /** Whether the loop with this test appends the line and reads on. faiter's sequence
      loop and fqiter's accuracy loop stop at a blank line and at the next record's marker
      line; fqiter's sequence loop stops only at a line starting with '+', so it takes
      blank lines too. */
  predicate Keeps(test: LineTest, line: string) {
    match test
    case SequenceLine => line != "" && !StartsWith(line, '>')
    case BeforeSeparator => !StartsWith(line, '+')
    case AccuracyLine => line != "" && !StartsWith(line, '@')
  }

  /** Where a `while test(line)` loop started at line `pos` stops: the first line from
      `pos` on that the test rejects, or the end of the file. */
  function SkipWhile(lines: seq<string>, pos: nat, test: LineTest): (next: nat)
    requires pos <= |lines|
    ensures pos <= next <= |lines|
    decreases |lines| - pos
  {
    if pos < |lines| && Keeps(test, lines[pos]) then SkipWhile(lines, pos + 1, test) else pos
  }

  /** The loop kept every line before where it stopped, and not the line it stopped at. */
  lemma {:induction false} SkipWhileStops(lines: seq<string>, pos: nat, test: LineTest)
    requires pos <= |lines|
    ensures forall j :: pos <= j < SkipWhile(lines, pos, test) ==> Keeps(test, lines[j])
    ensures SkipWhile(lines, pos, test) < |lines| ==> !Keeps(test, lines[SkipWhile(lines, pos, test)])
    decreases |lines| - pos
  {
    if pos < |lines| && Keeps(test, lines[pos]) {
      SkipWhileStops(lines, pos + 1, test);
    }
  }

  /** A loop that kept the lines from pos up to next and stopped there ran to
      SkipWhile. */
  lemma {:induction false} SkipWhileIs(lines: seq<string>, pos: nat, test: LineTest, next: nat)
    requires pos <= next <= |lines|
    requires forall j :: pos <= j < next ==> Keeps(test, lines[j])
    requires next < |lines| ==> !Keeps(test, lines[next])
    ensures SkipWhile(lines, pos, test) == next
    decreases next - pos
  {
    if pos < next {
      SkipWhileIs(lines, pos + 1, test, next);
    }
  }

  /** An inner loop of the parsers: starting at line `pos`, append every line that
      passes the test and stop at the first line that does not. The loop also stops at the
      end of the file: where the test rejects '' (FASTA, FASTQ accuracy) the source stops there
      too, and where it accepts '' (the FASTQ sequence loop) the source would keep reading
      '' forever, which the caller reports as an error. */
  method CollectWhile(lines: seq<string>, pos: nat, test: LineTest) returns (next: nat, taken: seq<string>)
    requires pos <= |lines|
    ensures next == SkipWhile(lines, pos, test)
    ensures taken == lines[pos..next]
  {
    next := pos;
    taken := [];
    var line := LineAt(lines, next);
    while next < |lines| && Keeps(test, line)
      invariant pos <= next <= |lines| && line == LineAt(lines, next)
      invariant taken == lines[pos..next]
      invariant forall j :: pos <= j < next ==> Keeps(test, lines[j])
      decreases |lines| - next
    {
      taken := taken + [line];
      next := next + 1;
      line := LineAt(lines, next);
    }
    SkipWhileIs(lines, pos, test, next);
  }

  /** ''.join(lines[from:to]): the lines from `from` up to `to`, glued together. */
  function Joined(lines: seq<string>, from: nat, to: nat): string
    requires from <= to <= |lines|
    decreases |lines| - from
  {
    if from == to then [] else lines[from] + Joined(lines, from + 1, to)
  }

  /** Joined glues the slice of the lines, as ''.join does. */
  lemma {:induction false} JoinedSlice(lines: seq<string>, from: nat, to: nat)
    requires from <= to <= |lines|
    ensures Concat(lines[from..to]) == Joined(lines, from, to)
    decreases |lines| - from
  {
    if from < to {
      assert lines[from..to][1..] == lines[from + 1..to];
      JoinedSlice(lines, from + 1, to);
    }
  }

  /** Lines after `to` do not take part. */
  lemma {:induction false} JoinedPrefix(lines: seq<string>, k: nat, from: nat, to: nat)
    requires from <= to <= k <= |lines|
    ensures Joined(lines[..k], from, to) == Joined(lines, from, to)
    decreases |lines| - from
  {
    if from < to {
      JoinedPrefix(lines, k, from + 1, to);
    }
  }

  /** The dicts a parser yields, record by record. */
  function FieldMaps<R>(p: Parsed<R>, fields: R -> map<string, string>): Parsed<map<string, string>> {
    Parsed(seq(|p.records|, i requires 0 <= i < |p.records| => fields(p.records[i])), p.error)
  }
}

/** The helpers screed/__init__.py uses to write a store back out as FASTA or FASTQ text:
    linewrap, getComments, generateAccuracy, the record templates of toFasta and toFastq, and
    the two dump loops over itervalues. */
module Serialize {
  import opened Wrappers
  import opened Text
  import opened Store
  import opened ScreedDb

  /** _MAXLINELEN */
  const MaxLineLen: nat := 80

  /** _null_accuracy: the quality character written when a record has no accuracy. */
  const NullAccuracy: char := '"'

  function Min(a: int, b: int): int {
    if a <= b then a else b
  }

  /** The pieces linewrap cuts a string into: full lines of 80 characters and a shorter
      last one; nothing for the empty string. */
  function Chunks(s: string): (cs: seq<string>)
    ensures forall i :: 0 <= i < |cs| ==> 0 < |cs[i]| <= MaxLineLen
    ensures forall i :: 0 <= i < |cs| - 1 ==> |cs[i]| == MaxLineLen
    decreases |s|
  {
    if s == [] then []
    else if |s| <= MaxLineLen then [s]
    else [s[..MaxLineLen]] + Chunks(s[MaxLineLen..])
  }

  /** The i-th piece: `s[80 * i : 80 * i + 80]`. */
  function Chunk(s: string, i: nat): string
    requires MaxLineLen * i <= |s|
  {
    s[MaxLineLen * i..Min(MaxLineLen * i + MaxLineLen, |s|)]
  }

  /** linewrap(s): the pieces joined by newlines. */
  function Wrap(s: string): (r: string)
    ensures r == [] <==> s == []
    ensures |s| <= MaxLineLen ==> r == s
  {
    Join(Chunks(s), '\n')
  }

  /** The pieces are the consecutive 80-character slices of s, ceil(|s| / 80) of them. */
  lemma {:induction false} ChunksShape(s: string)
    ensures |Chunks(s)| == (|s| + MaxLineLen - 1) / MaxLineLen
    ensures forall i :: 0 <= i < |Chunks(s)| ==> MaxLineLen * i < |s| && Chunks(s)[i] == Chunk(s, i)
    decreases |s|
  {
    if |s| > MaxLineLen {
      var rest := s[MaxLineLen..];
      ChunksShape(rest);
      forall i | 1 <= i < |Chunks(s)|
        ensures MaxLineLen * i < |s| && Chunks(s)[i] == Chunk(s, i)
      {
        assert Chunks(s)[i] == Chunks(rest)[i - 1];
        ChunkShift(s, i);
      }
    }
  }

  /** Piece i of s is piece i - 1 of what follows the first piece. */
  lemma ChunkShift(s: string, i: nat)
    requires 1 <= i && MaxLineLen * (i - 1) < |s| - MaxLineLen
    ensures MaxLineLen * i < |s| && Chunk(s, i) == Chunk(s[MaxLineLen..], i - 1)
  {
    var k := MaxLineLen * (i - 1);
    assert MaxLineLen * i == k + MaxLineLen;
    var rest := s[MaxLineLen..];
    var end := Min(k + MaxLineLen, |rest|);
    assert rest[k..end] == s[k + MaxLineLen..end + MaxLineLen];
  }

  /** Gluing the pieces back together gives the string. */
  lemma {:induction false} ConcatChunks(s: string)
    ensures Concat(Chunks(s)) == s
    decreases |s|
  {
    if |s| > MaxLineLen {
      var cs := Chunks(s);
      assert cs[1..] == Chunks(s[MaxLineLen..]);
      ConcatChunks(s[MaxLineLen..]);
    }
  }

  /** linewrap only inserts newlines: deleting them gives back a string that had none. */
  lemma UnwrapWrap(s: string)
    requires '\n' !in s
    ensures Without(Wrap(s), '\n') == s
  {
    ChunksShape(s);
    forall i | 0 <= i < |Chunks(s)|
      ensures '\n' !in Chunks(s)[i]
    {
      assert forall c :: c in Chunk(s, i) ==> c in s;
    }
    WithoutJoin(Chunks(s), '\n');
    ConcatChunks(s);
  }

  /** A string longer than 80 characters is wrapped as its first 80 characters, a newline,
      and the wrapping of the rest. */
  lemma WrapLong(s: string)
    requires |s| > MaxLineLen
    ensures Wrap(s) == s[..MaxLineLen] + "\n" + Wrap(s[MaxLineLen..])
  {
    var cs := Chunks(s);
    assert cs[1..] == Chunks(s[MaxLineLen..]);
  }

  /** linewrap: the while loop of the source, advancing `begin` by 80 and appending the
      slice from it. */
  method LineWrap(longString: string) returns (r: string)
    ensures r == Wrap(longString)
  {
    var res: seq<string> := [];
    var begin := 0;
    while begin < |longString|
      invariant begin == MaxLineLen * |res|
      invariant begin < |longString| + MaxLineLen
      invariant forall i :: 0 <= i < |res| ==> MaxLineLen * i < |longString| && res[i] == Chunk(longString, i)
    {
      res := res + [longString[begin..Min(begin + MaxLineLen, |longString|)]];
      begin := begin + MaxLineLen;
    }
    ChunksShape(longString);
    assert |res| == |Chunks(longString)|;
    assert res == Chunks(longString);
    r := Join(res, '\n');
  }

  /** getComments: the description, else the annotations, else ''. */
  function GetComments(value: map<string, string>): (r: string)
    ensures "description" in value ==> r == value["description"]
    ensures "description" !in value && "annotations" in value ==> r == value["annotations"]
    ensures "description" !in value && "annotations" !in value ==> r == ""
  {
    if "description" in value then value["description"]
    else if "annotations" in value then value["annotations"]
    else ""
  }

  /** generateAccuracy: the wrapped accuracy, or a wrapped run of '"' as long as the
      sequence; a record with neither field raises KeyError. */
  function GenerateAccuracy(value: map<string, string>): (r: Result<string, StoreError>)
    ensures r.Success? <==> "accuracy" in value || "sequence" in value
    ensures r.Failure? ==> r.error == KeyError
    ensures "accuracy" in value ==> r == Success(Wrap(value["accuracy"]))
  {
    if "accuracy" in value then Success(Wrap(value["accuracy"]))
    else if "sequence" in value then Success(Wrap(Repeat(NullAccuracy, |value["sequence"]|)))
    else Failure(KeyError)
  }

  /** Without an accuracy the made-up quality lines line up with the sequence lines: as
      many lines, each as long as its sequence line, all made of '"'. */
  lemma NullAccuracyLinesUp(value: map<string, string>)
    requires "accuracy" !in value && "sequence" in value
    ensures GenerateAccuracy(value).Success?
    ensures var q := Repeat(NullAccuracy, |value["sequence"]|);
      GenerateAccuracy(value).value == Wrap(q) &&
      |Chunks(q)| == |Chunks(value["sequence"])| &&
      (forall i :: 0 <= i < |Chunks(q)| ==> |Chunks(q)[i]| == |Chunks(value["sequence"])[i]|) &&
      (forall i, j :: 0 <= i < |Chunks(q)| && 0 <= j < |Chunks(q)[i]| ==> Chunks(q)[i][j] == NullAccuracy)
  {
    var s := value["sequence"];
    var q := Repeat(NullAccuracy, |s|);
    ChunksAlign(s, q);
    ChunksOfRun(q, NullAccuracy);
  }

  /** Strings of the same length are cut into pieces of the same lengths. */
  lemma {:induction false} ChunksAlign(s: string, q: string)
    requires |s| == |q|
    ensures |Chunks(q)| == |Chunks(s)|
    ensures forall i :: 0 <= i < |Chunks(q)| ==> |Chunks(q)[i]| == |Chunks(s)[i]|
    decreases |s|
  {
    if |s| > MaxLineLen {
      ChunksAlign(s[MaxLineLen..], q[MaxLineLen..]);
    }
  }

  /** The pieces of a run of one character are runs of that character. */
  lemma {:induction false} ChunksOfRun(q: string, c: char)
    requires forall k :: 0 <= k < |q| ==> q[k] == c
    ensures forall i, j :: 0 <= i < |Chunks(q)| && 0 <= j < |Chunks(q)[i]| ==> Chunks(q)[i][j] == c
    decreases |q|
  {
    if |q| > MaxLineLen {
      var rest := q[MaxLineLen..];
      ChunksOfRun(rest, c);
      assert Chunks(q)[1..] == Chunks(rest);
    }
  }

  /** The output formats of toFasta and toFastq. */
  datatype OutFormat = FastaFormat | FastqFormat

  /** The text toFasta ('>%s %s\n%s\n') or toFastq ('@%s %s\n%s\n+\n%s\n') writes for one
      record; a record without a name or a sequence raises KeyError. */
  function Entry(format: OutFormat, value: map<string, string>): (r: Result<string, StoreError>)
    ensures r.Success? <==> "name" in value && "sequence" in value
    ensures r.Failure? ==> r.error == KeyError
    ensures r.Success? ==> StartsWith(r.value, if format == FastaFormat then '>' else '@')
  {
    if "name" !in value || "sequence" !in value then Failure(KeyError)
    else
      var header := value["name"] + " " + GetComments(value) + "\n";
      var sequence := Wrap(value["sequence"]) + "\n";
      match format
      case FastaFormat => Success(">" + header + sequence)
      case FastqFormat =>
        var accuracy := GenerateAccuracy(value);
        Success("@" + header + sequence + "+\n" + accuracy.value + "\n")
  }

  /** The text written for the records `values` in order, or the error of the first one that
      cannot be written. */
  function Entries(format: OutFormat, values: seq<Record>): (r: Result<string, StoreError>)
    ensures r.Success? <==> forall i :: 0 <= i < |values| ==> "name" in values[i].fields && "sequence" in values[i].fields
    ensures r.Failure? ==> r.error == KeyError
    decreases |values|
  {
    if values == [] then Success("")
    else match Entries(format, values[..|values| - 1])
      case Failure(e) => Failure(e)
      case Success(text) =>
        match Entry(format, values[|values| - 1].fields)
        case Failure(e) => Failure(e)
        case Success(entry) => Success(text + entry)
  }

  lemma {:induction false} EntriesFailureStays(format: OutFormat, values: seq<Record>, n: nat)
    requires n <= |values| && Entries(format, values[..n]).Failure?
    ensures Entries(format, values) == Entries(format, values[..n])
    decreases |values| - n
  {
    if n < |values| {
      var longer := values[..n + 1];
      assert longer[..|longer| - 1] == values[..n];
      EntriesFailureStays(format, values, n + 1);
    } else {
      assert values[..n] == values;
    }
  }

  /** What toFasta or toFastq writes for a store: every record of itervalues, which raises
      TypeError on an empty store. */
  function Dump(format: OutFormat, t: Table): (r: Result<string, StoreError>)
    requires WellFormed(t)
    ensures r.Success? <==> t.rows != [] && "name" in t.schema && "sequence" in t.schema
    ensures t.rows == [] ==> r == Failure(TypeError)
    ensures t.rows != [] && r.Failure? ==> r.error == KeyError
  {
    if t.rows == [] then Failure(TypeError)
    else
      assert "name" in AllRecords(t)[0].fields <==> "name" in t.schema;
      assert "sequence" in AllRecords(t)[0].fields <==> "sequence" in t.schema;
      Entries(format, AllRecords(t))
  }

  /** One record through the template: the source's format string with linewrap and
      getComments. */
  method WriteEntry(format: OutFormat, value: map<string, string>) returns (r: Result<string, StoreError>)
    ensures r == Entry(format, value)
  {
    if "name" !in value || "sequence" !in value {
      return Failure(KeyError);
    }
    var wrapped := LineWrap(value["sequence"]);
    var header := value["name"] + " " + GetComments(value) + "\n";
    var sequence := wrapped + "\n";
    match format {
      case FastaFormat =>
        return Success(">" + header + sequence);
      case FastqFormat =>
        var accuracy := GenerateAccuracy(value);
        return Success("@" + header + sequence + "+\n" + accuracy.value + "\n");
    }
  }

  /** toFasta / toFastq: open the store, write every record of itervalues, close it. The
      output file becomes the returned text; an error leaves the store open, as the
      exception does. */
  method ToText(format: OutFormat, t: Table) returns (r: Result<string, StoreError>)
    requires WellFormed(t)
    ensures r == Dump(format, t)
  {
    var db := new ScreedDB(t);
    var values := db.Values();
    if values.Failure? {
      return Failure(values.error);
    }
    r := WriteAll(format, values.value);
    if r.Success? {
      db.Close();
    }
  }

  /** The loop body of toFasta / toFastq over the records of itervalues: write each one's
      template in turn, stopping at the first that raises. */
  method WriteAll(format: OutFormat, vs: seq<Record>) returns (r: Result<string, StoreError>)
    ensures r == Entries(format, vs)
  {
    var out := "";
    var i := 0;
    while i < |vs|
      invariant 0 <= i <= |vs|
      invariant Entries(format, vs[..i]) == Success(out)
    {
      assert vs[..i + 1][..i] == vs[..i];
      var entry := WriteEntry(format, vs[i].fields);
      if entry.Failure? {
        EntriesFailureStays(format, vs, i + 1);
        return Failure(entry.error);
      }
      out := out + entry.value;
      i := i + 1;
    }
    assert vs[..i] == vs;
    return Success(out);
  }

  method ToFasta(t: Table) returns (r: Result<string, StoreError>)
    requires WellFormed(t)
    ensures r == Dump(FastaFormat, t)
  {
    r := ToText(FastaFormat, t);
  }

  method ToFastq(t: Table) returns (r: Result<string, StoreError>)
    requires WellFormed(t)
    ensures r == Dump(FastqFormat, t)
  {
    r := ToText(FastqFormat, t);
  }
}

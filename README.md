# screed, modelled in Dafny

screed turns FASTA, FASTQ and other sequence files into an on-disk read-only dictionary.
Three parsers read a file line by line and yield one dict per record:

- `faiter` for FASTA;
- `fqiter` for FASTQ;
- `havaiter` for the example six-line 'hava' format.

`create_db` inserts those dicts into an SQLite table. The table has an integer primary key, one
column per field of a field tuple, and a UNIQUE index on the first field. `screedDB` is the
dictionary view over that table. `toFasta` and `toFastq` write a store back out as text, using
`linewrap`, `getComments` and `generateAccuracy`.

The model, one Dafny module per concern:

- `Text` (text.dfy): the Python string operations the code relies on. These are `strip`,
  `split(' ', 1)`, `''.join`, `'\n'.join`, `s * n`, `str(n)` and reading a file with
  `readline().strip()`.
- `Lines` (lines.dfy): what the parsers share.
  - The input is the list of stripped lines. Past the end, a read gives `''`.
  - The format errors.
  - The inner `while` loops, as a method (`CollectWhile`) proved against a function
    (`SkipWhile`).
- `Fasta`, `Fastq` (fasta.dfy, fastq.dfy) and `Hava` (seqparse.dfy): each parser is a method
  with the source's loops. Each is proved equal to a recursive specification over line
  positions, and properties are proved about that specification.
- `Store` (store.dfy): the table `create_db` builds, as a value, and the `CreateDb` insert loop
  proved against it. Also the lookups the dictionary view answers.
- `ScreedDb` (screeddb.dfy): the class `screedDB`. It has the table, the length read when it is
  opened, and an open flag that `close` clears.
- `Serialize` (serialize.dfy): `linewrap` (a loop, proved against `Wrap`), `getComments`,
  `generateAccuracy`, the two templates and the dump loops of `toFasta` / `toFastq`.
- `Recover` (recover.dfy): writing records with a template and reading the text back gives the
  same records. This holds line by line and through the store, as in the recovery tests.

## Model

| member | source | states |
|---|---|---|
| Text.Strip | screed/__init__.py:119-120 | strip() leaves no whitespace at either end, and a string with none at either end comes back unchanged. |
| Text.StripMiddle | screed/__init__.py:119-120 | strip() removes only a run of whitespace at the start and a run at the end: the result is a middle slice of the string, and everything before and after it is whitespace. |
| Text.TrimLeftDrops | screed/__init__.py:119-120 | The left trim is a suffix of the string, and every character it drops is whitespace. |
| Text.TrimRightDrops | screed/__init__.py:119-120 | The right trim is a prefix of the string, and every character it drops is whitespace. |
| Text.StripKeeps | screed/__init__.py:119-120 | strip() only removes characters: every character of the result is in the input. |
| Text.StripTrailingSpace | screed/__init__.py:124 | A space written after a non-empty string that strip() leaves alone is removed again by strip(). |
| Text.NoSpaceStripped | screed/__init__.py:124 | A string without whitespace is left alone by strip() and holds no newline or space. |
| Text.SplitOnce | screed/__init__.py:113-116 | The first half of `split(' ', 1)` never holds the separator. A string without the separator is the whole first half, with '' as the second, as in the ValueError branch. |
| Text.SplitOnceJoins | screed/__init__.py:113 | When the separator occurs, first half + separator + second half is the string. |
| Text.SplitOnceKeeps | screed/__init__.py:113 | Neither half holds a character the string does not hold. |
| Text.SplitOnceAt | screed/__init__.py:113 | Splitting `a + sep + b`, where a holds no separator, gives back a and b. |
| Text.SplitUnlines | screed/__init__.py:124 | readline() on a file written line by line gives back exactly those lines, when none holds a newline. |
| Text.StripAllNoSpace | screed/__init__.py:124 | Lines without whitespace hold no newline, and strip() leaves every one of them as it is. |
| Text.ReadLines | screed/__init__.py:124 | `readline().strip()` until the end of the file gives one stripped line per line of the file, and no line only for an empty file. |
| Text.ReadLinesAreStripped | screed/__init__.py:124 | Every line `readline().strip()` yields is stripped and holds no newline. |
| Text.Repeat | screed/__init__.py:405 | `c * n` is n characters, every one of them c. |
| Text.NatToString | screed/__init__.py:253 | `str(n)` is a non-empty string of decimal digits. |
| Lines.CollectWhile | screed/__init__.py:122-127 | The inner loop appends exactly the lines from `pos` up to the first line it rejects, or the end of the file, and stops there. |
| Lines.SkipWhile | screed/__init__.py:62-64 | Where an inner `while` loop stops (the sequence and accuracy loops at screed/__init__.py:62-64, 71-73 and 125-127): never before where it starts, never past the end of the file. |
| Lines.SkipWhileStops | screed/__init__.py:125-127 | Every line before where the loop stops passes its test, and the line it stops at, if any, fails it. |
| Lines.SkipWhileIs | screed/__init__.py:62-64 | A loop whose lines from pos up to next pass the test, and which fails at next, stops at next: the stopping point is unique. |
| Lines.JoinedSlice | screed/__init__.py:129 | `''.join` of the collected lines is the recursive glue of the same lines used by the specifications. |
| Lines.JoinedPrefix | screed/__init__.py:129 | Lines after the collected ones do not change what is glued. |
| Fasta.Header | screed/__init__.py:111-120 | The name of a '>' line holds no space, and name and description are both stripped. |
| Fasta.HeaderNoNewline | screed/__init__.py:111-120 | On a '>' line without newlines, neither the name nor the description holds one. |
| Fasta.HeaderSplit | screed/__init__.py:112-120 | A '>' line `name + ' ' + rest`, where name holds no space, splits into the stripped name and the stripped rest. |
| Fasta.HeaderWithoutSpace | screed/__init__.py:114-120 | A '>' line without a space gives its stripped remainder as name and '' as description. |
| Fasta.RecordsFrom | screed/__init__.py:100-130 | The only error faiter raises is the missing '>' marker, and it yields at most one record per remaining line. |
| Fasta.RecordsFromStep | screed/__init__.py:107-130 | At a '>' line whose sequence loop stops at line next, faiter yields the record of those lines and goes on at next. |
| Fasta.ReadRecord | screed/__init__.py:107-130 | One turn at a '>' line yields one record and moves past it. What follows is the parse of the rest of the file. |
| Fasta.ParseFasta | screed/__init__.py:100-130 | The parser loop yields exactly the records of the specification, in order, and ends with a missing '>' error exactly where the specification does. |
| Fasta.BlankLineEndsParse | screed/__init__.py:106-127 | The first blank line ends the whole parse: cutting the file there changes nothing. |
| Fasta.RecordsAreTrimmed | screed/__init__.py:111-120 | Every yielded name holds no space; names and descriptions are stripped; on lines without newlines no field holds one. |
| Fastq.Header | screed/__init__.py:52-56 | The name taken from an '@' line never holds a space. |
| Fastq.HeaderNoNewline | screed/__init__.py:52-56 | On an '@' line without newlines, neither the name nor the annotations hold one. |
| Fastq.HeaderSplits | screed/__init__.py:52-56 | With a space after the '@', name + ' ' + annotations is the rest of the line, neither half stripped. Without one, the rest is the name and the annotations are ''. |
| Fastq.RecordsFrom | screed/__init__.py:40-80 | fqiter raises only a missing '@', a missing '+' line or unequal lengths, and yields at most one record per remaining line. |
| Fastq.RecordAt | screed/__init__.py:47-78 | One turn of the outer loop either moves forward to a record whose sequence and accuracy have the same length and whose name has no space, or fails with NoSeparator or LengthMismatch and nothing else. |
| Fastq.RecordBetween | screed/__init__.py:66-78 | The record is accepted exactly when the glued sequence lines and accuracy lines have the same length. It then ends after the accuracy lines. |
| Fastq.RecordAtIs | screed/__init__.py:47-80 | When the sequence loop stops at the '+' line, the accuracy loop stops at stop, and the header and the two runs of lines make up r, the turn yields r and stops at stop. |
| Fastq.RecordBetweenIs | screed/__init__.py:66-80 | A header and two runs of lines that make up r, with as many quality characters as bases, give back r. |
| Fastq.RecordsFromStep | screed/__init__.py:46-80 | At an '@' line where a turn yields r, the parse is r followed by the parse from where the turn stopped. |
| Fastq.RecordsFromRun | screed/__init__.py:46-80 | At an '@' line followed by the lines of r, as RecordAtIs describes them, fqiter yields r and goes on at stop. |
| Fastq.ReadRecord | screed/__init__.py:47-80 | One turn at an '@' line either fails, and the whole parse ends with that error, or yields one record and moves past it. The rest is the parse of the rest of the file. |
| Fastq.ParseFastq | screed/__init__.py:40-80 | The parser loop yields exactly the records of the specification, in order. It ends with the error the specification gives: a missing '@', unequal lengths, or no '+' line. |
| Fastq.EqualLengths | screed/__init__.py:66-80 | Every yielded record has a sequence and an accuracy of the same length. |
| Fastq.HeadersSplitAtSpace | screed/__init__.py:51-57 | No yielded name holds a space; on lines without newlines no name or annotation holds one. |
| Hava.RecordsFrom | screed/seqparse.py:60-76 | havaiter yields a record only when a line remains, and at most one record per six remaining lines, rounded up. |
| Hava.RecordAtLines | screed/seqparse.py:66-76 | One turn of havaiter: with six lines left, the record's fields in field order are exactly those six lines; at the end of the file every field is ''. |
| Hava.ReadRecord | screed/seqparse.py:68-73 | The loop body's six reads give the record `RecordAt` specifies. |
| Hava.ParseHava | screed/seqparse.py:60-76 | The parser loop yields exactly the records of the specification: six lines per record, stopping at a blank line at a record boundary. |
| Hava.Layout | screed/seqparse.py:66-76 | If the first blank record boundary is the k-th, the parse yields k records. Record i is the six lines from boundary i, in field order; blank lines inside a record become '' fields. |
| Hava.RecordCount | screed/seqparse.py:66-76 | A file of n lines with no blank line gives ceil(n / 6) records. (The fields of the last record past the end of the file are '', as Layout states.) |
| Hava.HavaKeyLookup | screed/seqparse.py:78-87 | In the store built from hava records with distinct first lines, `db[k]` gives the record whose `hava` field is k, with its id. |
| Store.Project | screed/__init__.py:365 | The row is the record's values in field order. It fails exactly when a field is missing, naming the first missing field. |
| Store.KeyColumn | screed/__init__.py:239-246 | There is one key per row, in row order, and key i is row i's first field. |
| Store.Rows | screed/__init__.py:349-366 | The insert loop succeeds exactly when every record has every field and no two share the first field. Then there is one row per record, in record order. |
| Store.RowsFailureStays | screed/__init__.py:364-366 | After a failed insert, no later record is inserted. |
| Store.NormalisePath | screed/__init__.py:323-324 | The path ends with the extension. The extension is appended exactly when the path does not already end with it; otherwise the path is kept. |
| Store.NormalisePathIdempotent | screed/__init__.py:323-324 | Normalising twice is normalising once. |
| Store.Build | screed/__init__.py:316-369 | A bad field tuple is refused. A successful build means the parser raised nothing, keeps the field tuple as schema and has one row per record. |
| Store.InsertRows | screed/__init__.py:364-366 | The insert loop gives exactly the rows Rows specifies, or its error. |
| Store.CreateDb | screed/__init__.py:316-369 | create_db's loop builds exactly the specified table, or fails with the specified error, and writes to the normalised path. |
| Store.BuildRows | screed/__init__.py:344-366 | A successful build has distinct keys and rows as wide as the field tuple. There is one row per record, each the record's values in field order, and the parser raised nothing. |
| Store.BuildFails | screed/__init__.py:337-366 | A build fails exactly when the field tuple is bad in the model's sense (empty, or with a repeated name), a record lacks a field, two records share a key, or the parser raised. |
| Store.ByKey | screed/__init__.py:169-184 | `db[key]` succeeds exactly when some row has key as its first field. It then gives that row's record, and raises KeyError otherwise. |
| Store.ByIndex | screed/__init__.py:199-214 | `loadRecordByIndex(i)` succeeds exactly for 0 <= i < len, giving the record with id i, and raises KeyError otherwise. |
| Store.MaxRowId | screed/__init__.py:156-159 | `MAX(id)` is the number of rows, or NULL for an empty table. |
| Store.AllRecords | screed/__init__.py:228-237 | itervalues yields one record per row; record i has id i and exactly the fields of the field tuple. |
| Store.KeyLookupFindsKey | screed/__init__.py:169-184 | The record found by a key holds that key in its first field. |
| Store.IndexAndKeyAgree | screed/__init__.py:199-214 | `db[k]` and `loadRecordByIndex` agree: `loadRecordByIndex(db[k].id) == db[k]`. |
| Store.RowFieldsBack | screed/__init__.py:364-366 | A row built from a dict with exactly the tuple's fields, in field order, gives that dict back. |
| Store.KeysThenLookupIsValues | screed/__init__.py:222-246 | Every key is found, and looking up the keys in key order gives the records of itervalues. |
| Store.BuiltRecords | screed/__init__.py:364-366 | Dicts with exactly the tuple's fields and distinct first fields build a store. Its itervalues gives back every dict, in order. |
| Store.BuiltLookup | screed/__init__.py:349-353 | In such a store, `db[k]` for the i-th dict's key and `loadRecordByIndex(i)` both give that dict, with id i. |
| ScreedDb.ScreedDB.constructor | screed/__init__.py:151-159 | Opening a store reads its length as the largest row id. |
| ScreedDb.ScreedDB.Close | screed/__init__.py:161-167 | Closing leaves the store closed; closing a closed store changes nothing. |
| ScreedDb.ScreedDB.GetItem | screed/__init__.py:169-184 | `db[key]` gives the record carrying key in its first field exactly when one exists, as ByKey states; otherwise KeyError. AttributeError once closed. |
| ScreedDb.ScreedDB.Get | screed/__init__.py:169-180 | `db.get(key)` gives exactly the record `db[key]` gives (ByKey), or None exactly when `db[key]` would raise KeyError. |
| ScreedDb.ScreedDB.Contains | screed/__init__.py:267-276 | `key in db` is whether some row has key as its first field; it never raises KeyError. |
| ScreedDb.ScreedDB.HasKey | screed/__init__.py:255-259 | `has_key` is `in`. |
| ScreedDb.ScreedDB.LoadRecordByIndex | screed/__init__.py:199-214 | It reads row index + 1. It succeeds exactly for 0 <= index < len, with id index, and raises KeyError otherwise. |
| ScreedDb.ScreedDB.Length | screed/__init__.py:216-220 | `len(db)` is the number of records. An empty store has no length (TypeError). |
| ScreedDb.ScreedDB.Values | screed/__init__.py:228-237 | itervalues yields exactly len records in row-id order. |
| ScreedDb.ScreedDB.Keys | screed/__init__.py:239-246 | iterkeys yields the first field of every row, in row order. |
| ScreedDb.ScreedDB.Items | screed/__init__.py:248-253 | iteritems pairs the i-th record with `str(i)`, its id, not its key. |
| ScreedDb.ScreedDB.Copy | screed/__init__.py:261-265 | `copy()` returns the store itself. |
| ScreedDb.ScreedDB.SetItem | screed/__init__.py:280-284 | `db[k] = v` raises TypeError. |
| ScreedDb.ScreedDB.Clear | screed/__init__.py:286-290 | `clear` always raises AttributeError. |
| ScreedDb.ScreedDB.Update | screed/__init__.py:292-296 | `update` always raises AttributeError. |
| ScreedDb.ScreedDB.SetDefault | screed/__init__.py:298-302 | `setdefault` always raises AttributeError. |
| ScreedDb.ScreedDB.Pop | screed/__init__.py:304-308 | `pop` always raises AttributeError. |
| ScreedDb.ScreedDB.PopItem | screed/__init__.py:310-314 | `popitem` always raises AttributeError. |
| Serialize.GetComments | screed/__init__.py:371-381 | The description if there is one, else the annotations if there are, else ''. |
| Serialize.Wrap | screed/__init__.py:383-394 | linewrap gives '' exactly for '', and leaves a string of at most 80 characters unchanged. |
| Serialize.GenerateAccuracy | screed/__init__.py:396-405 | The wrapped accuracy when there is one; otherwise a null accuracy, which needs the sequence; KeyError exactly when both are missing. |
| Serialize.Entry | screed/__init__.py:416-419 | The template succeeds exactly when the record has a name and a sequence, and raises KeyError otherwise. Its text starts with '>' (FASTA) or '@' (FASTQ). |
| Serialize.Chunks | screed/__init__.py:388-394 | Every piece is 1 to 80 characters long, and every piece but the last is exactly 80. |
| Serialize.ChunksShape | screed/__init__.py:388-394 | There are ceil(len / 80) pieces; piece i is `s[80 i : 80 i + 80]`. |
| Serialize.ConcatChunks | screed/__init__.py:388-394 | The pieces glued back together give the string. |
| Serialize.UnwrapWrap | screed/__init__.py:383-394 | Deleting the newlines linewrap inserted gives back a string that had none. |
| Serialize.WrapLong | screed/__init__.py:388-394 | A string longer than 80 characters is written as its first 80 characters, a newline, and the wrapping of the rest. |
| Serialize.LineWrap | screed/__init__.py:383-394 | The loop yields the consecutive 80-character slices joined by newlines. |
| Serialize.NullAccuracyLinesUp | screed/__init__.py:396-405 | Without an accuracy, the quality written is '"' repeated len(sequence) times, wrapped. Its lines match the sequence lines one for one, in length. |
| Serialize.ChunksAlign | screed/__init__.py:396-405 | Strings of the same length are cut into the same number of pieces, with the same lengths. |
| Serialize.ChunksOfRun | screed/__init__.py:405 | The pieces of a run of one character are runs of that character. |
| Serialize.Entries | screed/__init__.py:415-419 | The dump loop over a list of records succeeds exactly when every record has a name and a sequence, and raises KeyError otherwise. |
| Serialize.Dump | screed/__init__.py:407-436 | toFasta / toFastq succeed exactly when the store is non-empty and its field tuple has a name and a sequence field. An empty store raises TypeError; otherwise the only error is KeyError. |
| Serialize.EntriesFailureStays | screed/__init__.py:415-419 | Once a record cannot be written, the dump stops with its error. |
| Serialize.WriteEntry | screed/__init__.py:416-419 | The template for one record, with linewrap and getComments, gives the specified text, or KeyError when name or sequence is missing. |
| Serialize.ToText | screed/__init__.py:407-436 | The dump loop writes the records of itervalues one after the other. It stops at the first record that cannot be written, and an empty store gives TypeError. |
| Serialize.WriteAll | screed/__init__.py:415-419 | The loop writes the templates of the records one after the other. It stops at the first record that cannot be written, with its error, as Entries specifies. |
| Serialize.ToFasta | screed/__init__.py:423-436 | toFasta writes the FASTA dump of the store. |
| Serialize.ToFastq | screed/__init__.py:407-421 | toFastq writes the FASTQ dump of the store. |
| Recover.TemplateFieldsByFormat | screed/__init__.py:371-405 | getComments gives a FASTA record's description, a FASTQ record's annotations, and '' for hava. generateAccuracy gives the FASTQ accuracy wrapped, '"' per base for FASTA, and KeyError for hava. |
| Recover.ChunkLines | screed/__init__.py:383-394 | The lines linewrap writes for a string without whitespace hold no whitespace. |
| Recover.ChunksStripped | screed/__init__.py:383-394 | Those lines hold no newline, and strip() leaves them unchanged. |
| Recover.SkipOver | screed/__init__.py:125-129 | A parser loop run over a group of lines that all pass its test, followed by a line that fails it, takes exactly the group, and the group glues into its text. |
| Recover.JoinedLinesAt | screed/__init__.py:129 | The lines where a group sits glue into the group's text. |
| Recover.FastaEntry | screed/__init__.py:432-433 | The FASTA template writes '>name description', then the wrapped sequence, each line ended by a newline. |
| Recover.FastaStripped | screed/__init__.py:124 | readline().strip() of those lines drops only the space written before an empty description. |
| Recover.FastaHeaderBack | screed/__init__.py:111-120 | The header line read back splits into the record's name and description. |
| Recover.FastaChunksSkipped | screed/__init__.py:123-129 | faiter's sequence loop over the lines linewrap writes, none starting with '>', takes exactly those lines, and they glue back into the sequence. |
| Recover.FastaLinesRun | screed/__init__.py:106-130 | At a written record's lines, the outer loop finds a '>' line, the sequence loop stops right after the lines, and the lines make up the record. |
| Recover.FastaRecordsLines | screed/__init__.py:106-130 | faiter reads back every record of a run of written records, and nothing else. |
| Recover.FastaRunHead | screed/__init__.py:106-108 | The lines of a run of written records are the first record's lines and then the others'. They start with a '>' line, which ends the sequence loop before it. |
| Recover.FastaStrippedAll | screed/__init__.py:124 | Stripping every written line of a run of records gives the lines faiter sees, and no written line holds a newline. |
| Recover.FastaRoundTrip | tests/__init__.py:212-225 | FASTA text written for fitting records reads back as exactly those records, with no error. |
| Recover.FastaDump | screed/__init__.py:423-436 | toFasta on the store built from fitting records writes exactly their text. |
| Recover.FastaStoreRoundTrip | tests/__init__.py:212-225 | Build a store, write it with toFasta, read the text back into a store: the same store. |
| Recover.FastqEntry | screed/__init__.py:416-419 | The FASTQ template writes '@name annotations', the wrapped sequence, '+', the wrapped accuracy, each line ended by a newline. |
| Recover.FastqWrittenText | screed/__init__.py:416-419 | The text of a record's written lines is the header, the sequence lines, '+' and the accuracy lines, each ended by a newline. |
| Recover.FastqHeaderStripped | screed/__init__.py:46 | The written header line holds no newline, and strip() turns it into the header line fqiter sees. |
| Recover.StripFastqParts | screed/__init__.py:61-73 | Stripping the header, the sequence lines, '+' and the accuracy lines one by one gives the stripped header and the same lines, and none of them holds a newline. |
| Recover.FastqStripped | screed/__init__.py:61-73 | readline().strip() of those lines drops only the space written before empty annotations. |
| Recover.FastqHeaderBack | screed/__init__.py:51-57 | The header line read back splits into the record's name and annotations. |
| Recover.SequenceChunksSkipped | screed/__init__.py:59-66 | fqiter's sequence loop over the lines linewrap writes, none starting with '+', takes exactly those lines and stops at the '+' line after them. They glue back into the sequence. |
| Recover.AccuracyChunksSkipped | screed/__init__.py:68-75 | fqiter's accuracy loop over the lines linewrap writes, none starting with '@', takes exactly those lines when the next line is blank or an '@' line. They glue back into the accuracy. |
| Recover.FastqLinesRun | screed/__init__.py:46-80 | At a written record's lines, the header is an '@' line that splits into the record's name and annotations. The sequence loop stops at the '+' line and the accuracy loop right after the last line, and the two runs glue into the record's sequence and accuracy. |
| Recover.FastqReadsRecord | screed/__init__.py:46-80 | At a written record's lines, followed by a line that cannot continue its accuracy, fqiter yields the record and goes on after its lines. |
| Recover.FastqRecordsLines | screed/__init__.py:46-80 | fqiter reads back every record of a run of written records, and nothing else. |
| Recover.FastqRunHead | screed/__init__.py:70-73 | The lines of a run of written records are the first record's lines and then the others'. They start with an '@' line, which ends the accuracy loop before it. |
| Recover.FastqStrippedAll | screed/__init__.py:61-73 | Stripping every written line of a run of records gives the lines fqiter sees, and no written line holds a newline. |
| Recover.FastqRoundTrip | tests/__init__.py:227-240 | FASTQ text written for fitting records reads back as exactly those records, with no error. |
| Recover.EntriesText | screed/__init__.py:415-419 | When every record goes through the template, the dump writes their texts one after the other. |
| Recover.FastaDictsAccepted | screed/__init__.py:349-366 | The dicts of FASTA records with distinct names have exactly the FASTA fields and distinct first fields, and the field tuple is a valid one: create_db accepts them. |
| Recover.FastqDictsAccepted | screed/__init__.py:349-366 | The same for FASTQ records and the FASTQ field tuple. |
| Recover.FastqDump | screed/__init__.py:407-421 | toFastq on the store built from fitting records writes exactly their text. |
| Recover.FastqStoreRoundTrip | tests/__init__.py:227-240 | Build a store, write it with toFastq, read the text back into a store: the same store. |

## Left out

- SQLite, the file system and the unlinking of an old store. The table is a value. The store's
  file name is the normalised path `CreateDb` returns. Files read become a list of lines, and
  files written become a returned string.
- The database file extension comes from `dbConstants`, which is not part of this model. It is
  a parameter of `NormalisePath` and `CreateDb`.
- `screedUtility.getScreedDB` and `screedRecord._buildRecord` are not part of this model. A
  record is its 0-based id (row id − 1, as the tests use it) with its fields by name.
  - Comparisons between records and lazy field loading are not modelled.
  - SQL's case-insensitive column names are not modelled.
- Store.GoodSchema: a field tuple is refused only when it is empty or repeats a name. SQLite
  refuses more: a field named like the primary-key column (which the CREATE TABLE at
  screed/__init__.py:344-346 would then declare twice), an SQL keyword such as `order`, or a
  name that is not a bare identifier (`a b`, `a-b`), in the CREATE TABLE or in the CREATE
  UNIQUE INDEX at screed/__init__.py:352-353. For such tuples `Build` succeeds where
  `create_db` raises `sqlite3.OperationalError`. SQL's naming rules and the primary-key
  column's name (from `dbConstants`) are not part of this model.
- Atomicity: no guarantee that a failed build leaves no partial store. Records inserted before
  an error are not committed in the source either. A failed build is just an error.
- Fastq.RecordsFrom: when no '+' line follows an '@' line, the source's sequence loop reads ''
  at end of file forever. The model reports NoSeparator instead of not terminating.
- ScreedDb.ScreedDB.Keys: the source's SELECT has no ORDER BY. The model takes row-id order, as the
  tests do.
- ScreedDb.ScreedDB.SetItem: `__setitem__` takes one argument, so `db[k] = v` fails with
  TypeError before the method body runs. The model returns TypeError, the source's actual
  behaviour, not the AttributeError its body would raise.
- ScreedDb.ScreedDB.Get: `get` is inherited from `UserDict.DictMixin`, which is not part of this
  model. It is modelled as `db[key]` with KeyError turned into None. The `default` argument of
  `DictMixin.get` is dropped: a missing key always gives None.
- ScreedDb.ScreedDB.GetItem: the `str(key)` conversion at screed/__init__.py:174 is not
  modelled; keys are strings already.
- ScreedDb.ScreedDB.LoadRecordByIndex: the `int(index)` conversion at screed/__init__.py:204 is
  not modelled; the index is an integer already. So, for instance, `loadRecordByIndex(-0.5)`
  reading record 0 (since `int(-0.5)` is 0) is not captured.
- Iterating over the store with `for k in db` comes from `DictMixin` and is not modelled
  separately from `Keys`.
- An empty store: `MAX(id)` is NULL, so `len(db)` and the dump loops raise TypeError. The
  model returns that error rather than excluding the case.
- The single `data` dict that every parser reuses across yields: each record is modelled as a
  fresh value. `create_db` consumes each dict before the next one is read, so nothing observable
  is lost.
- The `read_*` wrappers are straight-line glue that opens a file, runs a parser and calls
  `create_db` (screed/seqparse.py:16-53 import modules that are not part of this model). The
  lemmas that go through the store compose `Records`, `FieldMaps` and `Build` the same way.
- The round-trip lemmas hold only for records the text format can carry, as stated in
  `FastaFits` / `FastqFits`. The sequence must be non-empty and free of whitespace. The name
  holds no space. No wrapped sequence line starts with '>' (FASTA) or '+' (FASTQ), and no
  wrapped quality line starts with '@'. These conditions are sufficient, not necessary: some
  other records also read back unchanged (for instance a FASTA record whose sequence holds a
  space in the middle of a line), but the model proves the trip only for fitting ones.
- Text.NatToString: its contract says only that `str(n)` is a non-empty string of decimal digits, not which digits. Its body computes the usual decimal expansion, but no lemma here states or needs which digits it gives.
- Python 2 `str` is modelled as a sequence of characters; no byte/encoding issues are modelled.
- setup.py and the shell-script tests.

# BySubjectRecord, modelled in Dafny

`BySubjectRecord` is the line codec of Glimmer's by-subject text format. One
record is one line:

    id<TAB>subject<TAB>relation1␣␣relation2␣␣...<LF>

The record is a mutable, reusable object. It holds a numeric id, an optional
subject and an ordered list of relations. It can:

- write itself as one line;
- parse one line from a range `[off, off + len)` of a caller-owned byte buffer;
- hand out its relations, joined by two spaces, through a reader that fills a
  caller-supplied character buffer.

The repository file that pins this behaviour down is its JUnit suite,
`BySubjectRecordTest.java`; every row below cites that file. The
implementation class is not part of this model: the model follows what the
tests assert, and fills the gaps they leave with the tolerant grammar that
their inputs imply.

The project has four modules:

- `LineFormat` (`line_format.dfy`) holds the line format as pure functions.
  `FormatLine` writes a line. `ParseLine` reads a window field by field:
  - the id is leading spaces, at least one digit, optional spaces, then a TAB;
  - the subject runs up to the second TAB, with surrounding spaces trimmed, and
    must not be empty;
  - the third field is trimmed and split on each two-space separator.

  The module also holds the write/parse lemmas, which are proved by induction
  over the relation list and over the digits.
- `Bytes` (`bytes.dfy`) holds a `byte` newtype, plus the ASCII decoding and
  encoding that the tests' `getBytes("UTF-8")` amounts to on ASCII text.
- `Record` (`record.dfy`) holds the imperative part:
  - the `BySubjectRecord` class with its setters, `WriteTo` and `Parse`;
  - the `RelationsReader` class;
  - the scanning loops that `Parse` runs directly over the `array<byte>`.

  Each loop is proved against the `LineFormat` function it computes. `Parse`
  as a whole is proved against `ParseLine` applied to the decoded window.
- `Scenarios` (`scenarios.dfy`) replays each test as a verified method on a
  fresh record. The method's contract is the test's assertions; where a test
  parses several times, the method reports what is observed after each parse.
  It also holds the general write-then-parse method.

The record's fields `id`, `subject` and `relations` are public. They stand for
`getId`, `getSubject` and `getRelations`. `RelationsCount` stands for
`getRelationsCount`: it is the length of `relations`. The byte codec
`Bytes.Decode`/`Bytes.Encode` maps each byte to the character of the same code
and back. What these definitions mean for parsing and writing is stated by
`HasRelations`, `Parse`, `DecodeEncode`, `DecodeAppend` and the scenarios.

## Model

| member | source | states |
|---|---|---|
| Record.BySubjectRecord.constructor | src/test/java/com/yahoo/glimmer/util/BySubjectRecordTest.java:34 | A new record has id 0, no subject and no relations. |
| Record.BySubjectRecord.SetId | src/test/java/com/yahoo/glimmer/util/BySubjectRecordTest.java:46 | Sets the id and changes nothing else. |
| Record.BySubjectRecord.SetSubject | src/test/java/com/yahoo/glimmer/util/BySubjectRecordTest.java:47 | Sets the subject and changes nothing else. |
| Record.BySubjectRecord.AddRelation | src/test/java/com/yahoo/glimmer/util/BySubjectRecordTest.java:48-49 | Appends the relation after the existing ones (insertion order) and changes nothing else. |
| Record.BySubjectRecord.HasRelations | src/test/java/com/yahoo/glimmer/util/BySubjectRecordTest.java:64 | True exactly when the count is positive. |
| Record.BySubjectRecord.WriteTo | src/test/java/com/yahoo/glimmer/util/BySubjectRecordTest.java:38-54 | The loop that appends relations one at a time builds exactly `FormatLine`: id, TAB, subject (empty when absent), TAB, relations two spaces apart with no trailing separator, newline. |
| Record.BySubjectRecord.Parse | src/test/java/com/yahoo/glimmer/util/BySubjectRecordTest.java:58-183 | Returns true exactly when `ParseLine` accepts the decoded window `[off, off + len)`. An empty window changes nothing. A rejected line sets only the id, to the digits scanned. An accepted line sets all three fields. |
| Record.BySubjectRecord.GetRelationsReader | src/test/java/com/yahoo/glimmer/util/BySubjectRecordTest.java:187-200 | A new reader at position 0 over the relations joined by two spaces. |
| Record.RelationsReader.Read | src/test/java/com/yahoo/glimmer/util/BySubjectRecordTest.java:191-203 | At the end of the text: returns -1 and leaves the buffer and position alone. Otherwise: copies the next `min(buffer length, remaining)` characters to the front of the buffer, returns that count, advances by it, and leaves the rest of the buffer alone. |
| Record.Window | src/test/java/com/yahoo/glimmer/util/BySubjectRecordTest.java:77-80 | The bytes a parse examines are at most `len` bytes; they are exactly `a[off..off+len]` when that range lies inside the buffer. |
| Record.ReadLine | src/test/java/com/yahoo/glimmer/util/BySubjectRecordTest.java:73-88 | Scanning the bytes `[lo, hi)` in place, with no copy, yields `ParseLine` of the text they spell; the scan stops at the first LF. |
| Record.ReadFields | src/test/java/com/yahoo/glimmer/util/BySubjectRecordTest.java:58-69 | Reading the three fields in place yields `ParseFields` of the line. |
| Record.ReadId | src/test/java/com/yahoo/glimmer/util/BySubjectRecordTest.java:128-157 | The in-place id scan computes the id value (set even when the field is malformed) and the id field's outcome. |
| Record.ReadSubject | src/test/java/com/yahoo/glimmer/util/BySubjectRecordTest.java:174-183 | The in-place subject scan computes `SubjectField`: trimmed text up to the second TAB, or failure. |
| Record.ReadRelations | src/test/java/com/yahoo/glimmer/util/BySubjectRecordTest.java:161-183 | The in-place scan of the third field computes `RelationsField`: trimmed, then split; spaces only means no relations. |
| Record.SplitBytes | src/test/java/com/yahoo/glimmer/util/BySubjectRecordTest.java:66-69 | The loop over the bytes returns exactly `Split` of their text: the pieces between two-space separators, in order. |
| Record.ReadDigits | src/test/java/com/yahoo/glimmer/util/BySubjectRecordTest.java:62 | The digit loop stops at the first non-digit and accumulates the decimal value of the digits it passed. |
| Record.ScanBytes | src/test/java/com/yahoo/glimmer/util/BySubjectRecordTest.java:174-183 | A forward scan over the bytes stops where `Scan` does on their text. |
| Record.ScanBackBytes | src/test/java/com/yahoo/glimmer/util/BySubjectRecordTest.java:174-183 | A backward scan (trailing-space trim) stops where `ScanBack` does on their text. |
| Record.FindSeparator | src/test/java/com/yahoo/glimmer/util/BySubjectRecordTest.java:66-69 | Finds the first two-space separator at or after a position, or the end. |
| LineFormat.WriteParse | src/test/java/com/yahoo/glimmer/util/BySubjectRecordTest.java:46-69 | For a valid subject and valid relations, parsing the written line gives back the id, subject and relations. |
| LineFormat.RoundTrip | src/test/java/com/yahoo/glimmer/util/BySubjectRecordTest.java:58-88 | The same holds for the line without its newline, or followed by a newline and anything after it. |
| LineFormat.ParseWriteParse | src/test/java/com/yahoo/glimmer/util/BySubjectRecordTest.java:58-69 | Writing whatever a parse accepted, then parsing that, gives the same outcome. |
| LineFormat.ParsedShape | src/test/java/com/yahoo/glimmer/util/BySubjectRecordTest.java:58-69 | An accepted parse has a subject with no TAB, newline or edge spaces, and relations whose joined text re-splits to themselves. |
| LineFormat.ParsePadded | src/test/java/com/yahoo/glimmer/util/BySubjectRecordTest.java:174-183 | Any spaces around the id and the subject, and around the third field, are ignored; so is everything from a newline on. |
| LineFormat.AcceptedLayout | src/test/java/com/yahoo/glimmer/util/BySubjectRecordTest.java:128-183 | The converse of `ParsePadded`: every accepted window is spaces, at least one digit, spaces, TAB, spaces, a non-empty trimmed subject with no TAB or newline, spaces, TAB, spaces, a trimmed relations text, spaces, then nothing or a newline and what follows; and it reads as the digits' value, that subject and the split of that text. |
| LineFormat.AcceptedSlices | src/test/java/com/yahoo/glimmer/util/BySubjectRecordTest.java:128-183 | The same layout located by positions inside an accepted line: where the digits, the two TABs, the subject and the relations text lie. |
| LineFormat.ParseFields | src/test/java/com/yahoo/glimmer/util/BySubjectRecordTest.java:128-157 | Reading a non-empty line never gives "no input", and the id it reports is the scanned digits' value, also on rejection. |
| LineFormat.SplitJoin | src/test/java/com/yahoo/glimmer/util/BySubjectRecordTest.java:66-69 | Splitting the two-space join of a non-empty list of valid relations gives those relations back, in order. The empty list joins to `""`, which splits to `[""]`; `RelationsOf` maps an empty third field to no relations instead. |
| LineFormat.JoinSplit | src/test/java/com/yahoo/glimmer/util/BySubjectRecordTest.java:203 | Joining the pieces of a split text with two spaces gives the text back: the reader's text is the relations blob. |
| LineFormat.JoinShape | src/test/java/com/yahoo/glimmer/util/BySubjectRecordTest.java:54 | The join of valid relations has no newline and no space at either end, so it survives the trimming of the third field. |
| LineFormat.DecimalRoundTrip | src/test/java/com/yahoo/glimmer/util/BySubjectRecordTest.java:46-62 | The value of the written decimal digits of `n` is `n`. |
| LineFormat.Decimal | src/test/java/com/yahoo/glimmer/util/BySubjectRecordTest.java:42 | The written id is a non-empty run of digits with no leading zero. |
| LineFormat.LineOf | src/test/java/com/yahoo/glimmer/util/BySubjectRecordTest.java:78-80 | The line is the window's prefix before its first newline. |
| LineFormat.SubjectFieldShape | src/test/java/com/yahoo/glimmer/util/BySubjectRecordTest.java:174-183 | A subject that is read is non-empty, trimmed and free of TAB and newline. |
| LineFormat.RelationsFieldShape | src/test/java/com/yahoo/glimmer/util/BySubjectRecordTest.java:66-69 | Relations that are read re-join to a trimmed text that splits back to them. |
| Bytes.DecodeEncode | src/test/java/com/yahoo/glimmer/util/BySubjectRecordTest.java:59-60 | Decoding the bytes of an ASCII text gives the text back. |
| Bytes.DecodeAppend | src/test/java/com/yahoo/glimmer/util/BySubjectRecordTest.java:77-78 | Decoding commutes with appending bytes, such as the trailing newline. |
| Scenarios.WriteThenParse | src/test/java/com/yahoo/glimmer/util/BySubjectRecordTest.java:46-69 | For a record with a valid subject and valid relations in ASCII: writing it, then parsing the bytes into a fresh record, reproduces id, subject and relations. |
| Scenarios.WriteFresh | src/test/java/com/yahoo/glimmer/util/BySubjectRecordTest.java:38-42 | A fresh record writes exactly `"0\t\t\n"`. |
| Scenarios.WriteFilled | src/test/java/com/yahoo/glimmer/util/BySubjectRecordTest.java:46-54 | After id 33, the subject and two relations are set, the record writes the record-33 line and a newline. |
| Scenarios.Doc1IsBody | src/test/java/com/yahoo/glimmer/util/BySubjectRecordTest.java:25 | The record-33 line is the id 33, the subject and the two relations in the written layout. |
| Scenarios.Record33Valid | src/test/java/com/yahoo/glimmer/util/BySubjectRecordTest.java:22-24 | The record-33 subject and relations are ones a write and a read keep. |
| Scenarios.ParseDoc1 | src/test/java/com/yahoo/glimmer/util/BySubjectRecordTest.java:58-69 | The record-33 line, alone or followed by a newline, reads as id 33, the subject and `[r1, r2]`. |
| Scenarios.ParseWhole | src/test/java/com/yahoo/glimmer/util/BySubjectRecordTest.java:58-69 | Parsing the record-33 bytes succeeds with id 33, the subject, two relations in order, and `HasRelations` true. |
| Scenarios.ParseFromBuffer | src/test/java/com/yahoo/glimmer/util/BySubjectRecordTest.java:73-88 | The same line copied to offset 20 of a zero-filled 4096-byte buffer, followed by a newline, parses to the same record. |
| Scenarios.Embedded | src/test/java/com/yahoo/glimmer/util/BySubjectRecordTest.java:75-78 | The copy places the bytes and a newline at the offset, so the window is exactly those bytes and the newline. |
| Scenarios.Doc1Window | src/test/java/com/yahoo/glimmer/util/BySubjectRecordTest.java:78-80 | The decoded window, with its trailing newline, reads as record 33: the newline is not part of the last relation. |
| Scenarios.ParseFresh | src/test/java/com/yahoo/glimmer/util/BySubjectRecordTest.java:59-60 | Parsing an ASCII line into a fresh record leaves the fields `ParseLine` decides and the defaults elsewhere. |
| Scenarios.EmptyLines | src/test/java/com/yahoo/glimmer/util/BySubjectRecordTest.java:92-124 | `""` is no input; `"\t\t\n"` and `"\t\t"` are rejected with id 0. |
| Scenarios.ParseEmpty | src/test/java/com/yahoo/glimmer/util/BySubjectRecordTest.java:92-124 | After each of the three parses (`""` into one fresh record; `"\t\t\n"`, then `"\t\t"`, into another) the parse has failed and the record shows id 0, no subject, `HasRelations` false, count 0 and an empty relation list. |
| Scenarios.EmptySubjectLine | src/test/java/com/yahoo/glimmer/util/BySubjectRecordTest.java:129-130 | `"4\t\t\n"` is rejected with id 4. |
| Scenarios.UnterminatedSubjectLine | src/test/java/com/yahoo/glimmer/util/BySubjectRecordTest.java:139-140 | `"4\t\t"` is rejected with id 4. |
| Scenarios.NoSubjectLine | src/test/java/com/yahoo/glimmer/util/BySubjectRecordTest.java:149-150 | `"4\t"` is rejected with id 4. |
| Scenarios.ParseBad | src/test/java/com/yahoo/glimmer/util/BySubjectRecordTest.java:128-157 | After each of the three parses into one record (`"4\t\t\n"`, `"4\t\t"`, `"4\t"`) the parse has failed and the record shows id 4, no subject, `HasRelations` false, count 0 and an empty relation list. |
| Scenarios.NoRelationsLine | src/test/java/com/yahoo/glimmer/util/BySubjectRecordTest.java:162-163 | `"6\thttp://sbj/\t\n"` reads as id 6, subject `http://sbj/`, no relations. |
| Scenarios.ParseNoRelations | src/test/java/com/yahoo/glimmer/util/BySubjectRecordTest.java:161-170 | That parse succeeds with id 6, the subject, and `HasRelations` false. |
| Scenarios.SpacesLine | src/test/java/com/yahoo/glimmer/util/BySubjectRecordTest.java:175-176 | `" 6 \t http://sbj/ \t  \n"` reads the same: spaces around id and subject are trimmed, and a third field of spaces holds no relations. |
| Scenarios.ParseSpaces | src/test/java/com/yahoo/glimmer/util/BySubjectRecordTest.java:174-183 | That parse succeeds with id 6, the subject, and no relations. |
| Scenarios.ReaderScenario | src/test/java/com/yahoo/glimmer/util/BySubjectRecordTest.java:187-203 | With no relations, the first read returns -1 and the 4096-character buffer stays all `'\0'`. After two relations are added, a new reader's read returns 72, and the buffer's first 72 characters are `r1 + "  " + r2`. |

## Left out

- Writers, output streams and flushing. `WriteTo` returns the line as a string instead of writing it to a `Writer`. The I/O errors a writer or reader could raise are not modelled.
- Bytes.Decode: decodes one character per byte. This is UTF-8 only for ASCII, which is all the tests use; multi-byte UTF-8 sequences are not decoded.
- Record.BySubjectRecord.SetId: the id is an unbounded `nat`. Java's 32-bit `int`, its overflow on long digit runs, and negative ids are not modelled.
- Record.BySubjectRecord.SetSubject: takes a string. Setting the subject back to `null` is not modelled; only a fresh record has no subject.
- Record.BySubjectRecord.Parse: a range that runs past the end of the buffer is cut at the end. The tests never pass such a range, and what the implementation does with one is not visible.
- The raw relations blob and its lazy split are not modelled as separate state. The record keeps the split list; `getRelations` is that list; the reader serves its two-space join. `LineFormat.JoinSplit` and `LineFormat.SplitJoin` state that the two views agree.
- `getRelations().iterator()` is modelled as the sequence itself.
- The Java `Reader` type beyond one `read(char[])` call. A reader's text is fixed when the reader is made, so later `AddRelation` calls do not change it.
- Record.RelationsReader.Read: at the end of the text it returns -1 whatever the buffer's length. `java.io.Reader.read(char[])` returns 0 for a zero-length buffer. The tests never pass one, and the implementation's reader is not part of this model.
- Behaviour the tests leave open is chosen, not pinned.
  - A non-digit character in the id field rejects the line.
  - A failed parse after a successful one keeps the earlier subject and relations.
  - Trailing spaces of the third field are trimmed as well as leading ones, and the relations are kept as the split list. So `"1\ts\tr1  r2  "` reads as `["r1", "r2"]`, and a reader then serves `"r1  r2"`. The raw remainder, spaces included, is not kept.
  - A relation that contains two spaces in a row, or starts or ends with a space, is written unchanged but reads back differently. The round-trip lemmas therefore require valid relations.
- LineFormat.RoundTrip: holds only for what a write and a read both keep, and its preconditions name those limits. Each relation must be non-empty, with no newline, no two spaces in a row and no edge space. The subject must be non-empty, since `badParseTest` shows an empty one is rejected (lines 128-137). It must also be trimmed, since `spacesTest` shows surrounding spaces are dropped (lines 174-183). And it must hold no TAB or newline, which would end the field or the line. The same limits apply to `WriteParse` and `Scenarios.WriteThenParse`.
- JUnit mechanics (`@Before`, the assertion calls). Each test is a method in `Scenarios` whose postcondition is the test's assertions.

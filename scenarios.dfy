/**
  The record's documented behaviour, end to end: a write followed by a read,
  and concrete usage scenarios, each of which starts from a fresh record and
  whose contract states what the scenario observes.
 */
module Scenarios {
  import opened LineFormat
  import opened Bytes
  import opened Record

  const Subject1: string := "http://subject/"
  const Relation1: string := "<http://predicate1> \"literal\" ."
  const Relation2: string := "<http://predicate2> <http://resource> ."
  /** The line record 33 writes, without its newline. */
  const SubjectDoc1: string := "33" + "\t" + Subject1 + "\t" + Relation1 + "  " + Relation2

  /** No separator anywhere in `s`. */
  predicate SeparatorFree(s: string) { forall m :: 0 <= m < |s| ==> !SeparatorAt(s, m) }

  lemma SeparatorFreeAppend(a: string, b: string)
    requires SeparatorFree(a) && SeparatorFree(b)
    requires a != [] && b != [] && !(a[|a| - 1] == Space && b[0] == Space)
    ensures SeparatorFree(a + b)
  {
    forall m | 0 <= m < |a + b| ensures !SeparatorAt(a + b, m) {
      if m < |a| - 1 {
        assert !SeparatorAt(a, m);
      } else if m >= |a| {
        assert !SeparatorAt(b, m - |a|);
      }
    }
  }

  lemma AsciiAppend(a: string, b: string)
    requires AllAscii(a) && AllAscii(b)
    ensures AllAscii(a + b)
  {
    forall k | 0 <= k < |a + b| ensures IsAscii((a + b)[k]) {
      if k >= |a| {
        assert (a + b)[k] == b[k - |a|];
      }
    }
  }

  lemma Relation1Valid()
    ensures ValidRelation(Relation1)
  {
    assert SeparatorFree(Relation1);
  }

  lemma Relation2Valid()
    ensures ValidRelation(Relation2)
  {
    var p, q := "<http://predicate2> ", "<http://resource> .";
    assert SeparatorFree(p) && SeparatorFree(q);
    assert Relation2 == p + q;
    SeparatorFreeAppend(p, q);
  }

  /** The record-33 values are ones a write and a read keep. */
  lemma Record33Valid()
    ensures ValidSubject(Subject1) && ValidRelations([Relation1, Relation2])
  {
    Relation1Valid();
    Relation2Valid();
  }

  lemma PiecesAscii()
    ensures AllAscii("33") && AllAscii("\t") && AllAscii("  ") && AllAscii(Subject1)
  {
  }

  lemma Relation1Ascii()
    ensures AllAscii(Relation1)
  {
  }

  lemma Relation2Ascii()
    ensures AllAscii(Relation2)
  {
  }

  lemma Doc1Ascii()
    ensures AllAscii(SubjectDoc1)
  {
    PiecesAscii();
    Relation1Ascii();
    Relation2Ascii();
    AsciiAppend("33", "\t");
    AsciiAppend("33" + "\t", Subject1);
    AsciiAppend("33" + "\t" + Subject1, "\t");
    AsciiAppend("33" + "\t" + Subject1 + "\t", Relation1);
    AsciiAppend("33" + "\t" + Subject1 + "\t" + Relation1, "  ");
    AsciiAppend("33" + "\t" + Subject1 + "\t" + Relation1 + "  ", Relation2);
  }

  lemma Doc1IsBody()
    ensures Body(33, Some(Subject1), [Relation1, Relation2]) == SubjectDoc1
  {
    assert Decimal(33) == Decimal(3) + [DigitChar(3)] == "33";
    assert Join([Relation1, Relation2]) == Relation1 + "  " + Relation2;
  }

  /** Reading the record-33 line, followed by `tail`, gives back record 33. */
  lemma ParseDoc1(tail: string)
    requires tail == [] || tail[0] == Newline
    ensures ParseLine(SubjectDoc1 + tail) == Accepted(33, Subject1, [Relation1, Relation2])
  {
    Record33Valid();
    Doc1IsBody();
    RoundTrip(33, Subject1, [Relation1, Relation2], tail);
  }

  /** Copies `s` into a new buffer, one byte per character. */
  method BufferOf(s: string) returns (a: array<byte>)
    requires AllAscii(s)
    ensures Decode(a[..]) == s
  {
    var bs := Encode(s);
    a := new byte[|bs|](k requires 0 <= k < |bs| => bs[k]);
    assert a[..] == bs;
    DecodeEncode(s);
  }

  /** Writing a record and reading the written bytes into a fresh record
      reproduces its id, subject and relations. */
  method WriteThenParse(src: BySubjectRecord) returns (dst: BySubjectRecord, ok: bool)
    requires src.subject.Some? && ValidSubject(src.subject.value) && ValidRelations(src.relations)
    requires AllAscii(FormatLine(src.id, src.subject, src.relations))
    ensures ok && dst.id == src.id && dst.subject == src.subject && dst.relations == src.relations
  {
    var line := src.WriteTo();
    var a := BufferOf(line);
    dst := new BySubjectRecord();
    ok := dst.Parse(a, 0, a.Length);
    assert Window(a[..], 0, a.Length) == a[..];
    WriteParse(src.id, src.subject.value, src.relations);
  }

  /** A fresh record writes id 0 and two TABs. */
  method WriteFresh() returns (line: string)
    ensures line == "0\t\t\n"
  {
    var r := new BySubjectRecord();
    line := r.WriteTo();
    assert Decimal(0) == "0";
  }

  /** After setting id 33, its subject and two relations, the record writes
      its line: relations in insertion order, two spaces apart. */
  method WriteFilled() returns (line: string)
    ensures line == SubjectDoc1 + "\n"
  {
    var r := new BySubjectRecord();
    r.SetId(33);
    r.SetSubject(Subject1);
    r.AddRelation(Relation1);
    r.AddRelation(Relation2);
    line := r.WriteTo();
    Doc1IsBody();
  }

  /** Reading the whole record-33 line from a buffer of its own. */
  method ParseWhole() returns (r: BySubjectRecord, ok: bool)
    ensures ok && r.id == 33 && r.subject == Some(Subject1)
    ensures r.HasRelations() && r.RelationsCount() == 2
    ensures r.relations == [Relation1, Relation2]
  {
    Doc1Ascii();
    var a := BufferOf(SubjectDoc1);
    r := new BySubjectRecord();
    ok := r.Parse(a, 0, a.Length);
    assert Window(a[..], 0, a.Length) == a[..];
    assert SubjectDoc1 + [] == SubjectDoc1;
    ParseDoc1([]);
  }

  /** Reading the record-33 line and its newline from the middle of a larger
      zero-filled buffer: only the given range is read. */
  method ParseFromBuffer() returns (r: BySubjectRecord, ok: bool)
    ensures ok && r.id == 33 && r.subject == Some(Subject1)
    ensures r.HasRelations() && r.RelationsCount() == 2
    ensures r.relations == [Relation1, Relation2]
  {
    Doc1Ascii();
    var bs := Encode(SubjectDoc1);
    var a := Embedded(bs, 20);
    r := new BySubjectRecord();
    ok := r.Parse(a, 20, |bs| + 1);
    Doc1Window(bs);
  }

  /** A zero-filled buffer of 4096 bytes holding `bs` and a newline from
      `off` on. */
  method Embedded(bs: seq<byte>, off: nat) returns (a: array<byte>)
    requires off + |bs| < 4096
    ensures a.Length == 4096
    ensures Window(a[..], off, |bs| + 1) == bs + [LF]
    ensures forall k :: 0 <= k < off ==> a[k] == 0
  {
    a := new byte[4096](_ => 0);
    var k := 0;
    while k < |bs|
      invariant 0 <= k <= |bs|
      invariant forall j :: 0 <= j < k ==> a[off + j] == bs[j]
      invariant forall j :: 0 <= j < off ==> a[j] == 0
    {
      a[off + k] := bs[k];
      k := k + 1;
    }
    a[off + |bs|] := LF;
    assert a[off..off + |bs| + 1] == bs + [LF];
  }

  /** The bytes of the record-33 line and a newline read as record 33. */
  lemma Doc1Window(bs: seq<byte>)
    requires AllAscii(SubjectDoc1) && bs == Encode(SubjectDoc1)
    ensures ParseLine(Decode(bs + [LF])) == Accepted(33, Subject1, [Relation1, Relation2])
  {
    DecodeAppend(bs, [LF]);
    DecodeEncode(SubjectDoc1);
    assert Decode([LF]) == "\n";
    ParseDoc1("\n");
  }

  /** Reading `line` with a fresh record. */
  method ParseFresh(line: string) returns (r: BySubjectRecord, ok: bool)
    requires AllAscii(line)
    ensures fresh(r)
    ensures ok == ParseLine(line).Accepted?
    ensures r.id == (if ParseLine(line).NoInput? then 0 else ParseLine(line).id)
    ensures r.subject == (if ParseLine(line).Accepted? then Some(ParseLine(line).subject) else None)
    ensures r.relations == (if ParseLine(line).Accepted? then ParseLine(line).relations else [])
  {
    var a := BufferOf(line);
    r := new BySubjectRecord();
    ok := r.Parse(a, 0, a.Length);
    assert Window(a[..], 0, a.Length) == a[..];
  }

  /** An empty window reads as no input; a line whose first field holds no
      digit is rejected with id 0. */
  lemma EmptyLines()
    ensures ParseLine("") == NoInput
    ensures ParseLine("\t\t\n") == Rejected(0) && ParseLine("\t\t") == Rejected(0)
  {
  }

  /** An id followed by an empty subject is rejected with that id. */
  lemma EmptySubjectLine()
    ensures ParseLine("4\t\t\n") == Rejected(4)
  {
  }

  lemma UnterminatedSubjectLine()
    ensures ParseLine("4\t\t") == Rejected(4)
  {
  }

  /** An id with no second TAB after it is rejected with that id. */
  lemma NoSubjectLine()
    ensures ParseLine("4\t") == Rejected(4)
  {
  }

  lemma ShortLinesAscii()
    ensures AllAscii("") && AllAscii("\t\t\n") && AllAscii("\t\t")
    ensures AllAscii("4\t\t\n") && AllAscii("4\t\t") && AllAscii("4\t")
  {
  }

  /** An empty third field holds no relations. */
  lemma NoRelationsLine()
    ensures ParseLine("6\thttp://sbj/\t\n") == Accepted(6, "http://sbj/", [])
  {
    ParsePadded("6\thttp://sbj/\t\n", [], "6", [], [], "http://sbj/", [], [], [], [], "\n");
  }

  /** Spaces around the id and the subject are dropped, and a third field of
      spaces only holds no relations. */
  lemma SpacesLine()
    ensures ParseLine(" 6 \t http://sbj/ \t  \n") == Accepted(6, "http://sbj/", [])
  {
    ParsePadded(" 6 \t http://sbj/ \t  \n", " ", "6", " ", " ", "http://sbj/", " ", "  ", [], [], "\n");
  }

  lemma SbjLinesAscii()
    ensures AllAscii("6\thttp://sbj/\t\n") && AllAscii(" 6 \t http://sbj/ \t  \n")
  {
  }

  /** What a test looks at after each parse: the result of the parse, the
      id, the subject, whether there are relations, how many and which. */
  datatype Observed = Observed(ok: bool, id: nat, subject: Option<string>,
                               hasRelations: bool, count: nat, relations: seq<string>)

  /** What is observed of `r` after a parse that returned `ok`. */
  function Observe(r: BySubjectRecord, ok: bool): (o: Observed)
    reads r
    ensures o.count == |o.relations| && (o.hasRelations <==> o.count > 0)
  {
    Observed(ok, r.id, r.subject, r.HasRelations(), r.RelationsCount(), r.relations)
  }

  /** An empty window and lines with no id are rejected, and leave a fresh
      record as it was, with id 0: observed after each of the three parses. */
  method ParseEmpty() returns (o1: Observed, o2: Observed, o3: Observed)
    ensures o1 == Observed(false, 0, None, false, 0, [])
    ensures o2 == Observed(false, 0, None, false, 0, [])
    ensures o3 == Observed(false, 0, None, false, 0, [])
  {
    EmptyLines();
    ShortLinesAscii();
    var r1, ok1 := ParseFresh("");
    o1 := Observe(r1, ok1);
    var r, ok2 := ParseFresh("\t\t\n");
    o2 := Observe(r, ok2);
    var b := BufferOf("\t\t");
    var ok3 := r.Parse(b, 0, b.Length);
    assert Window(b[..], 0, b.Length) == b[..];
    o3 := Observe(r, ok3);
  }

  /** A line with an id but an empty subject, or with no second TAB, is
      rejected but still sets the id: observed after each of the three
      parses into the same record. */
  method ParseBad() returns (o1: Observed, o2: Observed, o3: Observed)
    ensures o1 == Observed(false, 4, None, false, 0, [])
    ensures o2 == Observed(false, 4, None, false, 0, [])
    ensures o3 == Observed(false, 4, None, false, 0, [])
  {
    EmptySubjectLine();
    UnterminatedSubjectLine();
    NoSubjectLine();
    ShortLinesAscii();
    var r, ok1 := ParseFresh("4\t\t\n");
    o1 := Observe(r, ok1);
    var b := BufferOf("4\t\t");
    var ok2 := r.Parse(b, 0, b.Length);
    assert Window(b[..], 0, b.Length) == b[..];
    o2 := Observe(r, ok2);
    var c := BufferOf("4\t");
    var ok3 := r.Parse(c, 0, c.Length);
    assert Window(c[..], 0, c.Length) == c[..];
    o3 := Observe(r, ok3);
  }

  /** A line with an empty third field has no relations. */
  method ParseNoRelations() returns (r: BySubjectRecord, ok: bool)
    ensures ok && r.id == 6 && r.subject == Some("http://sbj/")
    ensures !r.HasRelations() && r.RelationsCount() == 0
  {
    NoRelationsLine();
    SbjLinesAscii();
    r, ok := ParseFresh("6\thttp://sbj/\t\n");
  }

  /** Spaces around the id and the subject are ignored. */
  method ParseSpaces() returns (r: BySubjectRecord, ok: bool)
    ensures ok && r.id == 6 && r.subject == Some("http://sbj/")
    ensures !r.HasRelations() && r.RelationsCount() == 0
  {
    SpacesLine();
    SbjLinesAscii();
    r, ok := ParseFresh(" 6 \t http://sbj/ \t  \n");
  }

  /** With no relations the reader is at its end at once and leaves the
      buffer alone; with two relations one read hands out all 72 characters
      of their joined text. */
  method ReaderScenario() returns (n1: int, first: seq<char>, n2: int, buf: array<char>)
    ensures n1 == -1 && |first| == 4096
    ensures forall k :: 0 <= k < |first| ==> first[k] == '\0'
    ensures n2 == 72 && buf.Length == 4096
    ensures buf[..n2] == Relation1 + "  " + Relation2
  {
    var r := new BySubjectRecord();
    var reader := r.GetRelationsReader();
    buf := new char[4096](_ => '\0');
    n1 := reader.Read(buf);
    first := buf[..];
    r.SetId(55);
    r.SetSubject(Subject1);
    r.AddRelation(Relation1);
    r.AddRelation(Relation2);
    var reader2 := r.GetRelationsReader();
    assert reader2.text == Relation1 + "  " + Relation2;
    n2 := reader2.Read(buf);
  }
}

/**
  The by-subject line format, as pure functions over text:

      <id><TAB><subject><TAB><relation>  <relation>  ...<LF>

  `FormatLine` is what a record writes; `ParseLine` is what a record reads
  back from one window of bytes (decoded to characters).  The lemmas at the
  end tie the two together.
 */
module LineFormat {

  datatype Option<T> = None | Some(value: T)

  /** What reading one window yields.  `NoInput`: the window was empty and
      nothing is touched.  `Rejected(id)`: the line is malformed; `id` is the
      value of the digits scanned before the failure was noticed.
      `Accepted`: all three fields were read. */
  datatype Outcome =
    | NoInput
    | Rejected(id: nat)
    | Accepted(id: nat, subject: string, relations: seq<string>)

  const Space: char := ' '
  const Tab: char := '\t'
  const Newline: char := '\n'
  /** Relations inside the third field are separated by exactly two spaces. */
  const RelationSeparator: string := "  "

  predicate IsSpace(c: char) { c == Space }
  predicate IsDigit(c: char) { '0' <= c <= '9' }

  /** The classes of characters the reader skips over. */
  datatype CharClass = Spaces | Digits | NotTab | NotNewline | AnyChar

  predicate In(c: char, cls: CharClass)
  {
    match cls
    case Spaces => IsSpace(c)
    case Digits => IsDigit(c)
    case NotTab => c != Tab
    case NotNewline => c != Newline
    case AnyChar => true
  }

  predicate AllSpaces(s: string) { forall k :: 0 <= k < |s| ==> IsSpace(s[k]) }
  predicate AllDigits(s: string) { forall k :: 0 <= k < |s| ==> IsDigit(s[k]) }

  // ---------------------------------------------------------------------
  // Scanning

  /** The first index at or after `i` whose character does not satisfy `p`,
      or `|s|` when every remaining character does. */
  function Scan(s: string, i: nat, p: CharClass): (j: nat)
    requires i <= |s|
    ensures i <= j <= |s|
    ensures forall k :: i <= k < j ==> In(s[k], p)
    ensures j < |s| ==> !In(s[j], p)
    decreases |s| - i
  {
    if i == |s| || !In(s[i], p) then i else Scan(s, i + 1, p)
  }

  /** Scanning backwards from `j` (never below `lo`): the smallest `v` such
      that every character in `[v, j)` satisfies `p`. */
  function ScanBack(s: string, lo: nat, j: nat, p: CharClass): (v: nat)
    requires lo <= j <= |s|
    ensures lo <= v <= j
    ensures forall k :: v <= k < j ==> In(s[k], p)
    ensures v > lo ==> !In(s[v - 1], p)
    decreases j
  {
    if j == lo || !In(s[j - 1], p) then j else ScanBack(s, lo, j - 1, p)
  }

  /** A scan stops exactly at the first character that fails `p`. */
  lemma ScanStops(s: string, i: nat, j: nat, p: CharClass)
    requires i <= j <= |s|
    requires forall k :: i <= k < j ==> In(s[k], p)
    requires j < |s| ==> !In(s[j], p)
    ensures Scan(s, i, p) == j
  {
  }

  lemma ScanBackStops(s: string, lo: nat, v: nat, j: nat, p: CharClass)
    requires lo <= v <= j <= |s|
    requires forall k :: v <= k < j ==> In(s[k], p)
    requires v > lo ==> !In(s[v - 1], p)
    ensures ScanBack(s, lo, j, p) == v
  {
  }

  // ---------------------------------------------------------------------
  // Decimal identifiers

  function DigitChar(d: nat): (c: char)
    requires d < 10
    ensures IsDigit(c)
  {
    (48 + d) as char
  }

  function DigitValue(c: char): (d: nat)
    requires IsDigit(c)
    ensures d < 10 && DigitChar(d) == c
  {
    c as int - 48
  }

  /** The decimal text of `n`, most significant digit first, no leading zero. */
  function Decimal(n: nat): (s: string)
    ensures |s| > 0 && AllDigits(s)
    ensures |s| > 1 ==> s[0] != '0'
    decreases n
  {
    if n < 10 then [DigitChar(n)] else Decimal(n / 10) + [DigitChar(n % 10)]
  }

  /** The value of a run of decimal digits, read left to right. */
  function DecimalValue(s: string): nat
    requires AllDigits(s)
  {
    if s == [] then 0 else 10 * DecimalValue(s[..|s| - 1]) + DigitValue(s[|s| - 1])
  }

  lemma {:induction false} DecimalRoundTrip(n: nat)
    ensures DecimalValue(Decimal(n)) == n
    decreases n
  {
    if n >= 10 {
      var s := Decimal(n / 10);
      assert Decimal(n) == s + [DigitChar(n % 10)];
      assert Decimal(n)[..|Decimal(n)| - 1] == s;
      DecimalRoundTrip(n / 10);
    }
  }

  /** One more digit: the value of a run of digits grows by one place. */
  lemma DigitStep(t: string, i: nat, j: nat)
    requires i <= j < |t| && AllDigits(t[i..j]) && IsDigit(t[j])
    ensures AllDigits(t[i..j + 1])
    ensures DecimalValue(t[i..j + 1]) == 10 * DecimalValue(t[i..j]) + DigitValue(t[j])
  {
    var run := t[i..j + 1];
    assert |run| - 1 == j - i;
    assert forall k :: 0 <= k < j - i ==> run[..|run| - 1][k] == t[i..j][k];
    assert run[..|run| - 1] == t[i..j];
    assert run[|run| - 1] == t[j];
  }

  // ---------------------------------------------------------------------
  // Relations: joining and splitting on the two-space separator

  function Join(rs: seq<string>): string
  {
    if |rs| == 0 then []
    else if |rs| == 1 then rs[0]
    else rs[0] + RelationSeparator + Join(rs[1..])
  }

  lemma {:induction false} JoinSnoc(rs: seq<string>, r: string)
    requires |rs| > 0
    ensures Join(rs + [r]) == Join(rs) + RelationSeparator + r
    decreases |rs|
  {
    if |rs| > 1 {
      assert (rs + [r])[1..] == rs[1..] + [r];
      JoinSnoc(rs[1..], r);
    } else {
      assert (rs + [r])[1..] == [r];
    }
  }

  predicate SeparatorAt(s: string, k: int)
  {
    0 <= k && k + 1 < |s| && s[k] == Space && s[k + 1] == Space
  }

  /** The position of the first separator at or after `i`, or `|s|`. */
  function FirstSeparator(s: string, i: nat): (k: nat)
    requires i <= |s|
    ensures i <= k <= |s|
    ensures k < |s| ==> SeparatorAt(s, k)
    ensures forall m :: i <= m < k ==> !SeparatorAt(s, m)
    decreases |s| - i
  {
    if i + 1 >= |s| then |s| else if SeparatorAt(s, i) then i else FirstSeparator(s, i + 1)
  }

  lemma FirstSeparatorIs(s: string, i: nat, k: nat)
    requires i <= k <= |s|
    requires k < |s| ==> SeparatorAt(s, k)
    requires forall m :: i <= m < k ==> !SeparatorAt(s, m)
    ensures FirstSeparator(s, i) == k
  {
  }

  /** The pieces of `s[i..]` between successive separators, left to right. */
  function SplitFrom(s: string, i: nat): (rs: seq<string>)
    requires i <= |s|
    ensures |rs| > 0
    decreases |s| - i
  {
    var k := FirstSeparator(s, i);
    if k == |s| then [s[i..]] else [s[i..k]] + SplitFrom(s, k + 2)
  }

  function Split(s: string): seq<string>
  {
    SplitFrom(s, 0)
  }

  /** The piece before the first separator, and the rest after it. */
  lemma SplitFromAt(s: string, i: nat, k: nat)
    requires i <= |s| && k == FirstSeparator(s, i) && k < |s|
    ensures k + 2 <= |s| && SplitFrom(s, i) == [s[i..k]] + SplitFrom(s, k + 2)
  {
  }

  /** Splitting from the left, one piece at a time: the pieces found so far
      and the pieces still to find make up the whole split. */
  lemma SplitProgress(s: string, done: seq<string>, i: nat, k: nat)
    requires i <= |s| && k == FirstSeparator(s, i) && k < |s|
    requires done + SplitFrom(s, i) == Split(s)
    ensures k + 2 <= |s| && (done + [s[i..k]]) + SplitFrom(s, k + 2) == Split(s)
  {
    SplitFromAt(s, i, k);
    assert (done + [s[i..k]]) + SplitFrom(s, k + 2) == done + ([s[i..k]] + SplitFrom(s, k + 2));
  }

  /** With no separator left, the rest of the text is the last piece. */
  lemma SplitFromEnd(s: string, i: nat)
    requires i <= |s| && FirstSeparator(s, i) == |s|
    ensures SplitFrom(s, i) == [s[i..]]
  {
  }

  /** Splitting loses nothing: joining the pieces restores the text. */
  lemma {:induction false} JoinSplitFrom(s: string, i: nat)
    requires i <= |s|
    ensures Join(SplitFrom(s, i)) == s[i..]
    decreases |s| - i
  {
    var k := FirstSeparator(s, i);
    if k < |s| {
      JoinSplitFrom(s, k + 2);
      assert s[i..] == s[i..k] + RelationSeparator + s[k + 2..];
    }
  }

  lemma JoinSplit(s: string)
    ensures Join(Split(s)) == s
  {
    JoinSplitFrom(s, 0);
  }

  /** A relation that survives a write and a read unchanged. */
  predicate ValidRelation(r: string)
  {
    |r| > 0 && r[0] != Space && r[|r| - 1] != Space && Newline !in r &&
    forall m :: 0 <= m < |r| ==> !SeparatorAt(r, m)
  }

  predicate ValidRelations(rs: seq<string>)
  {
    forall k :: 0 <= k < |rs| ==> ValidRelation(rs[k])
  }

  /** A valid relation placed after `p` in `s` holds no separator: the first
      separator at or after `|p|` is at its end or later. */
  lemma FirstPiece(s: string, p: string, r: string, rest: string)
    requires s == p + r + rest && ValidRelation(r)
    ensures s[|p|..|p| + |r|] == r
    ensures forall m :: |p| <= m < |p| + |r| ==> !SeparatorAt(s, m)
  {
    forall m | |p| <= m < |p| + |r|
      ensures !SeparatorAt(s, m)
    {
      assert s[m] == r[m - |p|];
      if m + 1 < |p| + |r| {
        assert s[m + 1] == r[m + 1 - |p|];
        assert !SeparatorAt(r, m - |p|);
      }
    }
  }

  /** A single valid relation after `p` is one piece. */
  lemma SplitOne(p: string, r: string)
    requires ValidRelation(r)
    ensures SplitFrom(p + r, |p|) == [r]
  {
    var s := p + r;
    FirstPiece(s, p, r, []);
    FirstSeparatorIs(s, |p|, |s|);
    assert s[|p|..] == r;
  }

  /** A valid relation after `p` and followed by a separator is the first
      piece; the rest are split after the separator. */
  lemma SplitStep(p: string, r: string, tail: string)
    requires ValidRelation(r)
    ensures SplitFrom(p + r + RelationSeparator + tail, |p|)
         == [r] + SplitFrom(p + r + RelationSeparator + tail, |p + r + RelationSeparator|)
  {
    var s := p + r + RelationSeparator + tail;
    var k := |p| + |r|;
    FirstPiece(s, p, r, RelationSeparator + tail);
    assert SeparatorAt(s, k);
    FirstSeparatorIs(s, |p|, k);
    assert SplitFrom(s, |p|) == [s[|p|..k]] + SplitFrom(s, k + 2);
    assert k + 2 == |p + r + RelationSeparator|;
  }

  /** Joining valid relations and splitting again gives them back, in order. */
  lemma {:induction false} SplitFromJoin(p: string, rs: seq<string>)
    requires |rs| > 0 && ValidRelations(rs)
    ensures SplitFrom(p + Join(rs), |p|) == rs
    decreases |rs|
  {
    var r := rs[0];
    assert ValidRelation(r);
    if |rs| == 1 {
      SplitOne(p, r);
    } else {
      var tail := Join(rs[1..]);
      var p' := p + r + RelationSeparator;
      assert p + Join(rs) == p' + tail;
      SplitStep(p, r, tail);
      assert ValidRelations(rs[1..]) by {
        forall k | 0 <= k < |rs| - 1 ensures ValidRelation(rs[1..][k]) {
          assert rs[1..][k] == rs[k + 1];
        }
      }
      SplitFromJoin(p', rs[1..]);
      assert rs == [r] + rs[1..];
    }
  }

  lemma SplitJoin(rs: seq<string>)
    requires |rs| > 0 && ValidRelations(rs)
    ensures Split(Join(rs)) == rs
  {
    SplitFromJoin([], rs);
  }

  /** The joined text of valid relations has no newline and no space at
      either end, and is empty only when there are no relations. */
  lemma {:induction false} JoinShape(rs: seq<string>)
    requires ValidRelations(rs)
    ensures Newline !in Join(rs)
    ensures Join(rs) == [] <==> rs == []
    ensures rs != [] ==> Join(rs)[0] == rs[0][0] && Join(rs)[|Join(rs)| - 1] == rs[|rs| - 1][|rs[|rs| - 1]| - 1]
    decreases |rs|
  {
    if |rs| > 1 {
      JoinShape(rs[1..]);
      assert Join(rs) == rs[0] + RelationSeparator + Join(rs[1..]);
    }
  }

  // ---------------------------------------------------------------------
  // Writing

  function SubjectText(subject: Option<string>): string
  {
    match subject
    case None => []
    case Some(s) => s
  }

  /** The line without its terminating newline. */
  function Body(id: nat, subject: Option<string>, relations: seq<string>): string
  {
    Decimal(id) + [Tab] + SubjectText(subject) + [Tab] + Join(relations)
  }

  function FormatLine(id: nat, subject: Option<string>, relations: seq<string>): string
  {
    Body(id, subject, relations) + [Newline]
  }

  // ---------------------------------------------------------------------
  // Reading

  /** The text before the first newline of the window. */
  function LineOf(w: string): (l: string)
    ensures |l| <= |w| && l == w[..|l|]
    ensures Newline !in l
    ensures |l| < |w| ==> w[|l|] == Newline
  {
    w[..Scan(w, 0, NotNewline)]
  }

  /** What reading one field yields: the field's value and where the next
      field starts, or nothing when the field is malformed. */
  datatype Field<T> = Bad | Good(value: T, next: nat)

  /** Reading one window: the line before its first newline is read field
      by field. */
  function ParseLine(w: string): Outcome
  {
    if w == [] then NoInput else ParseFields(LineOf(w))
  }

  /** Reading the three fields of a line, in order. */
  function ParseFields(l: string): (o: Outcome)
    ensures !o.NoInput? && o.id == IdValue(l)
  {
    var id := IdValue(l);
    match IdField(l)
    case Bad => Rejected(id)
    case Good(_, i) =>
      match SubjectField(l, i)
      case Bad => Rejected(id)
      case Good(subject, j) => Accepted(id, subject, RelationsField(l, j))
  }

  /** The value of the digits that follow the leading spaces of the line;
      0 when there are none. */
  function IdValue(l: string): nat
  {
    var a := Scan(l, 0, Spaces);
    var b := Scan(l, a, Digits);
    assert AllDigits(l[a..b]);
    DecimalValue(l[a..b])
  }

  /** The id field: optional spaces, at least one digit, optional spaces,
      then the first TAB; the next field starts after that TAB. */
  function IdField(l: string): (f: Field<nat>)
    ensures f.Good? ==> f.value == IdValue(l) && f.next <= |l|
  {
    var a := Scan(l, 0, Spaces);
    var b := Scan(l, a, Digits);
    var c := Scan(l, b, Spaces);
    if a == b || c == |l| || l[c] != Tab then Bad else Good(IdValue(l), c + 1)
  }

  /** The subject field, from `i`: text up to the second TAB with spaces on
      both sides trimmed; it must be present and non-empty. */
  function SubjectField(l: string, i: nat): (f: Field<string>)
    requires i <= |l|
    ensures f.Good? ==> f.next <= |l|
  {
    var d := Scan(l, i, Spaces);
    var t := Scan(l, d, NotTab);
    var e := ScanBack(l, d, t, Spaces);
    if t == |l| || d == e then Bad else Good(l[d..e], t + 1)
  }

  /** The relations field, from `i` to the end of the line: trimmed, and
      split on the separator when anything is left. */
  function RelationsField(l: string, i: nat): seq<string>
    requires i <= |l|
  {
    var u := Scan(l, i, Spaces);
    var v := ScanBack(l, u, |l|, Spaces);
    RelationsOf(l[u..v])
  }

  /** The relations that a trimmed third field stands for: none when it is
      empty, otherwise its pieces between separators. */
  function RelationsOf(x: string): seq<string>
  {
    if x == [] then [] else Split(x)
  }

  /** A subject that survives a write and a read unchanged. */
  predicate ValidSubject(s: string)
  {
    |s| > 0 && s[0] != Space && s[|s| - 1] != Space && Tab !in s && Newline !in s
  }

  /** Text with no newline and no space at either end. */
  predicate Trimmed(x: string)
  {
    Newline !in x && (x != [] ==> x[0] != Space && x[|x| - 1] != Space)
  }

  // ---------------------------------------------------------------------
  // Reading, field by field

  lemma {:induction false} SubjectFieldShape(l: string, i: nat)
    requires i <= |l| && Newline !in l && SubjectField(l, i).Good?
    ensures ValidSubject(SubjectField(l, i).value)
  {
    var d := Scan(l, i, Spaces);
    var t := Scan(l, d, NotTab);
    var e := ScanBack(l, d, t, Spaces);
    assert SubjectField(l, i).value == l[d..e];
    assert l[d..e][0] == l[d] && l[d..e][e - d - 1] == l[e - 1];
    assert Tab !in l[d..e];
  }

  lemma {:induction false} RelationsFieldShape(l: string, i: nat)
    requires i <= |l| && Newline !in l
    ensures Trimmed(Join(RelationsField(l, i)))
    ensures RelationsOf(Join(RelationsField(l, i))) == RelationsField(l, i)
  {
    var u := Scan(l, i, Spaces);
    var v := ScanBack(l, u, |l|, Spaces);
    if u != v {
      assert Newline !in l[u..v];
      assert l[u..v][0] == l[u] && l[u..v][v - u - 1] == l[v - 1];
      JoinSplit(l[u..v]);
    }
  }

  /** What every accepted line yields: a subject that can be written and read
      back, and relations whose joined text is trimmed and stands for exactly
      those relations. */
  lemma {:induction false} ParsedShape(w: string)
    requires ParseLine(w).Accepted?
    ensures ValidSubject(ParseLine(w).subject)
    ensures Trimmed(Join(ParseLine(w).relations))
    ensures RelationsOf(Join(ParseLine(w).relations)) == ParseLine(w).relations
  {
    var l := LineOf(w);
    var i := IdField(l).next;
    SubjectFieldShape(l, i);
    RelationsFieldShape(l, SubjectField(l, i).next);
  }

  /** The relations field when its text sits at `[p7, p8)`, with only spaces
      before and after it. */
  lemma {:induction false} RelationsFieldAt(l: string, i: nat, x: string, p7: nat, p8: nat)
    requires i <= p7 <= p8 <= |l| && l[p7..p8] == x
    requires forall k :: i <= k < p7 ==> IsSpace(l[k])
    requires forall k :: p8 <= k < |l| ==> IsSpace(l[k])
    requires Trimmed(x)
    ensures RelationsField(l, i) == RelationsOf(x)
  {
    if p7 == p8 {
      ScanStops(l, i, |l|, Spaces);
      ScanBackStops(l, |l|, |l|, |l|, Spaces);
    } else {
      assert l[p7] == l[p7..p8][0] && l[p8 - 1] == l[p7..p8][p8 - 1 - p7];
      ScanStops(l, i, p7, Spaces);
      ScanBackStops(l, p7, p8, |l|, Spaces);
    }
  }

  /** The subject field when the subject sits at `[p4, p5)`, with spaces
      around it and the second TAB at `p6`. */
  lemma {:induction false} SubjectFieldAt(l: string, i: nat, subj: string, p4: nat, p5: nat, p6: nat)
    requires i <= p4 < p5 <= p6 < |l| && l[p6] == Tab && l[p4..p5] == subj
    requires forall k :: i <= k < p4 ==> IsSpace(l[k])
    requires forall k :: p5 <= k < p6 ==> IsSpace(l[k])
    requires ValidSubject(subj)
    ensures SubjectField(l, i) == Good(subj, p6 + 1)
  {
    assert l[p4] == l[p4..p5][0] && l[p5 - 1] == l[p4..p5][p5 - 1 - p4];
    forall k | p4 <= k < p6 ensures In(l[k], NotTab) {
      if k < p5 { assert l[k] == l[p4..p5][k - p4]; }
    }
    ScanStops(l, i, p4, Spaces);
    ScanStops(l, p4, p6, NotTab);
    ScanBackStops(l, p4, p5, p6, Spaces);
  }

  /** The id field when the digits sit at `[p1, p2)`, with spaces around them
      and the first TAB at `p3`. */
  lemma {:induction false} IdFieldAt(l: string, ds: string, p1: nat, p2: nat, p3: nat)
    requires p1 < p2 <= p3 < |l| && l[p3] == Tab && l[p1..p2] == ds && AllDigits(ds)
    requires forall k :: 0 <= k < p1 ==> IsSpace(l[k])
    requires forall k :: p1 <= k < p2 ==> IsDigit(l[k])
    requires forall k :: p2 <= k < p3 ==> IsSpace(l[k])
    ensures IdValue(l) == DecimalValue(ds)
    ensures IdField(l) == Good(DecimalValue(ds), p3 + 1)
  {
    ScanStops(l, 0, p1, Spaces);
    ScanStops(l, p1, p2, Digits);
    ScanStops(l, p2, p3, Spaces);
  }

  lemma {:induction false} LineOfIs(l: string, tail: string)
    requires Newline !in l
    requires tail == [] || tail[0] == Newline
    ensures LineOf(l + tail) == l
  {
    var w := l + tail;
    forall k | 0 <= k < |l| ensures In(w[k], NotNewline) {
      assert w[k] == l[k];
    }
    ScanStops(w, 0, |l|, NotNewline);
  }

  /** How a line is read once each field has been read. */
  lemma {:induction false} ParseFieldsOf(l: string, id: nat, i: nat, s: string, j: nat, rs: seq<string>)
    requires IdValue(l) == id && IdField(l) == Good(id, i)
    requires i <= |l| && SubjectField(l, i) == Good(s, j) && j <= |l| && RelationsField(l, j) == rs
    ensures ParseFields(l) == Accepted(id, s, rs)
  {
  }

  /** Reading a line whose fields sit at known positions: spaces on
      `[0, p1)`, digits on `[p1, p2)`, spaces up to the first TAB at `p3`,
      spaces up to the subject at `[p4, p5)`, spaces up to the second TAB at
      `p6`, spaces up to the relations text at `[p7, p8)`, spaces to the end. */
  lemma {:induction false} ParseAt(l: string, ds: string, subj: string, x: string,
                                   p1: nat, p2: nat, p3: nat, p4: nat, p5: nat, p6: nat, p7: nat, p8: nat)
    requires p1 < p2 <= p3 < p4 < p5 <= p6 < p7 <= p8 <= |l|
    requires l[p3] == Tab && l[p6] == Tab
    requires forall k :: 0 <= k < p1 ==> IsSpace(l[k])
    requires forall k :: p1 <= k < p2 ==> IsDigit(l[k])
    requires forall k :: p2 <= k < p3 ==> IsSpace(l[k])
    requires forall k :: p3 < k < p4 ==> IsSpace(l[k])
    requires forall k :: p5 <= k < p6 ==> IsSpace(l[k])
    requires forall k :: p6 < k < p7 ==> IsSpace(l[k])
    requires forall k :: p8 <= k < |l| ==> IsSpace(l[k])
    requires l[p1..p2] == ds && l[p4..p5] == subj && l[p7..p8] == x
    requires AllDigits(ds) && ValidSubject(subj) && Trimmed(x)
    ensures ParseFields(l) == Accepted(DecimalValue(ds), subj, RelationsOf(x))
  {
    IdFieldAt(l, ds, p1, p2, p3);
    SubjectFieldAt(l, p3 + 1, subj, p4, p5, p6);
    RelationsFieldAt(l, p6 + 1, x, p7, p8);
    ParseFieldsOf(l, DecimalValue(ds), p3 + 1, subj, p6 + 1, RelationsOf(x));
  }

  /** Where a part of a line sits, and what its characters are: `part` ends
      the prefix `pre + part` of `l`. */
  lemma Part(l: string, pre: string, part: string, p: CharClass)
    requires |pre| + |part| <= |l| && l[..|pre| + |part|] == pre + part
    requires forall k :: 0 <= k < |part| ==> In(part[k], p)
    ensures l[|pre|..|pre| + |part|] == part
    ensures forall k :: |pre| <= k < |pre| + |part| ==> In(l[k], p)
  {
    assert l[|pre|..|pre| + |part|] == (pre + part)[|pre|..];
    forall k | |pre| <= k < |pre| + |part| ensures In(l[k], p) {
      assert l[k] == (pre + part)[k] == part[k - |pre|];
    }
  }

  /** The parts of a line laid out as the tolerant grammar allows, with
      spaces around the id digits, the subject and the relations text:
      first the id field and the first TAB ... */
  lemma {:induction false} LayoutHead(l: string, s1: string, ds: string, s2: string, rest: string,
                                      p1: nat, p2: nat, p3: nat)
    requires l == s1 + ds + s2 + [Tab] + rest
    requires AllSpaces(s1) && AllDigits(ds) && AllSpaces(s2)
    requires p1 == |s1| && p2 == p1 + |ds| && p3 == p2 + |s2|
    ensures p3 < |l| && l[p3] == Tab && l[p1..p2] == ds
    ensures forall k :: 0 <= k < p1 ==> IsSpace(l[k])
    ensures forall k :: p1 <= k < p2 ==> IsDigit(l[k])
    ensures forall k :: p2 <= k < p3 ==> IsSpace(l[k])
  {
    var l1 := s1 + ds;
    var l2 := l1 + s2;
    var l3 := l2 + [Tab];
    assert l == l3 + rest;
    assert l[..|l3|] == l3;
    assert l[..|l2|] == l2 by { assert l3[..|l2|] == l2; }
    assert l[..|l1|] == l1 by { assert l2[..|l1|] == l1; }
    assert l[..|s1|] == [] + s1 by { assert l1[..|s1|] == s1; }
    Part(l, [], s1, Spaces);
    Part(l, s1, ds, Digits);
    Part(l, l1, s2, Spaces);
    Part(l, l2, [Tab], AnyChar);
  }

  /** ... then the subject field and the second TAB ... */
  lemma {:induction false} LayoutMiddle(l: string, head: string, s3: string, subj: string, s4: string,
                                        rest: string, p3: nat, p4: nat, p5: nat, p6: nat)
    requires l == head + s3 + subj + s4 + [Tab] + rest
    requires AllSpaces(s3) && AllSpaces(s4)
    requires p3 + 1 == |head| && p4 == p3 + 1 + |s3| && p5 == p4 + |subj| && p6 == p5 + |s4|
    ensures p6 < |l| && l[p6] == Tab && l[p4..p5] == subj
    ensures forall k :: p3 < k < p4 ==> IsSpace(l[k])
    ensures forall k :: p5 <= k < p6 ==> IsSpace(l[k])
  {
    var l4 := head + s3;
    var l5 := l4 + subj;
    var l6 := l5 + s4;
    var l7 := l6 + [Tab];
    assert l == l7 + rest;
    assert l[..|l7|] == l7;
    assert l[..|l6|] == l6 by { assert l7[..|l6|] == l6; }
    assert l[..|l5|] == l5 by { assert l6[..|l5|] == l5; }
    assert l[..|l4|] == l4 by { assert l5[..|l4|] == l4; }
    Part(l, head, s3, Spaces);
    Part(l, l4, subj, AnyChar);
    Part(l, l5, s4, Spaces);
    Part(l, l6, [Tab], AnyChar);
  }

  /** ... and last the relations text. */
  lemma {:induction false} LayoutLast(l: string, front: string, s5: string, x: string, s6: string,
                                      p6: nat, p7: nat, p8: nat)
    requires l == front + s5 + x + s6
    requires AllSpaces(s5) && AllSpaces(s6)
    requires p6 + 1 == |front| && p7 == p6 + 1 + |s5| && p8 == p7 + |x|
    ensures p8 <= |l| && l[p7..p8] == x
    ensures forall k :: p6 < k < p7 ==> IsSpace(l[k])
    ensures forall k :: p8 <= k < |l| ==> IsSpace(l[k])
  {
    var l8 := front + s5;
    var l9 := l8 + x;
    assert l == l9 + s6;
    assert l[..|l|] == l;
    assert l[..|l9|] == l9;
    assert l[..|l8|] == l8 by { assert l9[..|l8|] == l8; }
    Part(l, front, s5, Spaces);
    Part(l, l8, x, AnyChar);
    Part(l, l9, s6, Spaces);
  }

  /** A line built from parts none of which holds a newline holds none. */
  lemma NoNewline(s1: string, ds: string, s2: string, s3: string, subj: string,
                  s4: string, s5: string, x: string, s6: string)
    requires AllSpaces(s1) && AllSpaces(s2) && AllSpaces(s3)
    requires AllSpaces(s4) && AllSpaces(s5) && AllSpaces(s6)
    requires AllDigits(ds) && Newline !in subj && Newline !in x
    ensures Newline !in s1 + ds + s2 + [Tab] + s3 + subj + s4 + [Tab] + s5 + x + s6
  {
    assert Newline !in ds && Newline !in [Tab];
    assert Newline !in s1 && Newline !in s2 && Newline !in s3;
    assert Newline !in s4 && Newline !in s5 && Newline !in s6;
  }

  /** The tolerant grammar: spaces may surround the id and the subject and
      pad the third field; whatever follows a newline is ignored. */
  lemma {:induction false} ParsePadded(w: string, s1: string, ds: string, s2: string, s3: string, subj: string,
                                       s4: string, s5: string, x: string, s6: string, tail: string)
    requires w == s1 + ds + s2 + [Tab] + s3 + subj + s4 + [Tab] + s5 + x + s6 + tail
    requires AllSpaces(s1) && AllSpaces(s2) && AllSpaces(s3)
    requires AllSpaces(s4) && AllSpaces(s5) && AllSpaces(s6)
    requires |ds| > 0 && AllDigits(ds)
    requires ValidSubject(subj)
    requires Trimmed(x)
    requires tail == [] || tail[0] == Newline
    ensures ParseLine(w) == Accepted(DecimalValue(ds), subj, RelationsOf(x))
  {
    var l := s1 + ds + s2 + [Tab] + s3 + subj + s4 + [Tab] + s5 + x + s6;
    var p1 := |s1|;
    var p2 := p1 + |ds|;
    var p3 := p2 + |s2|;
    var p4 := p3 + 1 + |s3|;
    var p5 := p4 + |subj|;
    var p6 := p5 + |s4|;
    var p7 := p6 + 1 + |s5|;
    var p8 := p7 + |x|;
    NoNewline(s1, ds, s2, s3, subj, s4, s5, x, s6);
    LayoutHead(l, s1, ds, s2, s3 + subj + s4 + [Tab] + s5 + x + s6, p1, p2, p3);
    LayoutMiddle(l, s1 + ds + s2 + [Tab], s3, subj, s4, s5 + x + s6, p3, p4, p5, p6);
    LayoutLast(l, s1 + ds + s2 + [Tab] + s3 + subj + s4 + [Tab], s5, x, s6, p6, p7, p8);
    ParseAt(l, ds, subj, x, p1, p2, p3, p4, p5, p6, p7, p8);
    LineOfIs(l, tail);
    assert w == l + tail;
  }

  lemma Extend(l: string, j: nat, k: nat)
    requires j <= k <= |l|
    ensures l[..k] == l[..j] + l[j..k]
  {
  }

  lemma SpacesSlice(l: string, i: nat, j: nat)
    requires i <= j <= |l|
    requires forall k :: i <= k < j ==> In(l[k], Spaces)
    ensures AllSpaces(l[i..j])
  {
    forall k | 0 <= k < j - i ensures IsSpace(l[i..j][k]) {
      assert l[i..j][k] == l[i + k];
    }
  }

  /** A line cut at eight positions, two of which hold TABs, is the
      concatenation of its pieces. */
  lemma {:induction false} Cuts(l: string, a: nat, b: nat, c: nat, d: nat, e: nat, t: nat, u: nat, v: nat)
    requires a <= b <= c && c + 1 <= d <= e <= t && t + 1 <= u <= v <= |l|
    requires l[c] == Tab && l[t] == Tab
    ensures l == l[..a] + l[a..b] + l[b..c] + [Tab] + l[c + 1..d] + l[d..e] + l[e..t] + [Tab]
                 + l[t + 1..u] + l[u..v] + l[v..]
  {
    Extend(l, a, b);
    Extend(l, b, c);
    Extend(l, c, c + 1);
    assert l[c..c + 1] == [Tab];
    Extend(l, c + 1, d);
    Extend(l, d, e);
    Extend(l, e, t);
    Extend(l, t, t + 1);
    assert l[t..t + 1] == [Tab];
    Extend(l, t + 1, u);
    Extend(l, u, v);
    Extend(l, v, |l|);
    assert l[..|l|] == l;
  }

  /** Where a well-formed id field lies: spaces `[0, a)`, digits `[a, b)`,
      spaces `[b, c)` and the first TAB at `c`. */
  lemma {:induction false} IdPositions(l: string) returns (a: nat, b: nat, c: nat)
    requires IdField(l).Good?
    ensures a < b <= c < |l| && l[c] == Tab && IdField(l).next == c + 1
    ensures AllSpaces(l[..a]) && AllDigits(l[a..b]) && AllSpaces(l[b..c])
    ensures IdValue(l) == DecimalValue(l[a..b])
  {
    a := Scan(l, 0, Spaces);
    b := Scan(l, a, Digits);
    c := Scan(l, b, Spaces);
    SpacesSlice(l, 0, a);
    assert l[..a] == l[0..a];
    SpacesSlice(l, b, c);
  }

  /** Where a well-formed subject field from `i` lies: spaces `[i, d)`, the
      subject `[d, e)`, spaces `[e, t)` and the second TAB at `t`. */
  lemma {:induction false} SubjectPositions(l: string, i: nat) returns (d: nat, e: nat, t: nat)
    requires i <= |l| && Newline !in l && SubjectField(l, i).Good?
    ensures i <= d < e <= t < |l| && l[t] == Tab
    ensures SubjectField(l, i) == Good(l[d..e], t + 1)
    ensures AllSpaces(l[i..d]) && AllSpaces(l[e..t])
    ensures ValidSubject(l[d..e])
  {
    d := Scan(l, i, Spaces);
    t := Scan(l, d, NotTab);
    e := ScanBack(l, d, t, Spaces);
    SpacesSlice(l, i, d);
    SpacesSlice(l, e, t);
    SubjectFieldShape(l, i);
  }

  /** Where the relations field from `i` lies: spaces `[i, u)`, the
      relations text `[u, v)` and spaces `[v, |l|)`. */
  lemma {:induction false} RelationsPositions(l: string, i: nat) returns (u: nat, v: nat)
    requires i <= |l|
    ensures i <= u <= v <= |l|
    ensures RelationsField(l, i) == RelationsOf(l[u..v])
    ensures AllSpaces(l[i..u]) && AllSpaces(l[v..])
    ensures u < v ==> l[u] != Space && l[v - 1] != Space
  {
    u := Scan(l, i, Spaces);
    v := ScanBack(l, u, |l|, Spaces);
    SpacesSlice(l, i, u);
    SpacesSlice(l, v, |l|);
    assert l[v..] == l[v..|l|];
  }

  /** An accepted line has a well-formed id field ending before `i` and a
      well-formed subject field from `i` to before `j`, and reads as what its
      three fields hold. */
  lemma {:induction false} AcceptedFields(l: string) returns (i: nat, j: nat)
    requires ParseFields(l).Accepted?
    ensures i <= j <= |l|
    ensures IdField(l) == Good(IdValue(l), i)
    ensures SubjectField(l, i) == Good(ParseFields(l).subject, j)
    ensures RelationsField(l, j) == ParseFields(l).relations
  {
    i := IdField(l).next;
    j := SubjectField(l, i).next;
  }

  /** Where the parts of an accepted line lie, and what they hold. */
  lemma {:induction false} AcceptedSlices(l: string)
    returns (a: nat, b: nat, c: nat, d: nat, e: nat, t: nat, u: nat, v: nat)
    requires Newline !in l && ParseFields(l).Accepted?
    ensures a < b <= c && c + 1 <= d < e <= t && t + 1 <= u <= v <= |l|
    ensures l[c] == Tab && l[t] == Tab
    ensures AllSpaces(l[..a]) && AllDigits(l[a..b]) && AllSpaces(l[b..c])
    ensures AllSpaces(l[c + 1..d]) && ValidSubject(l[d..e]) && AllSpaces(l[e..t])
    ensures AllSpaces(l[t + 1..u]) && AllSpaces(l[v..])
    ensures u < v ==> l[u] != Space && l[v - 1] != Space
    ensures ParseFields(l) == Accepted(DecimalValue(l[a..b]), l[d..e], RelationsOf(l[u..v]))
  {
    var i, j := AcceptedFields(l);
    a, b, c := IdPositions(l);
    d, e, t := SubjectPositions(l, i);
    u, v := RelationsPositions(l, j);
  }

  /** The trimmed relations text of a line, between spaces. */
  lemma XTrimmed(l: string, u: nat, v: nat)
    requires u <= v <= |l| && Newline !in l
    requires u < v ==> l[u] != Space && l[v - 1] != Space
    ensures Trimmed(l[u..v])
  {
    if u < v {
      assert l[u..v][0] == l[u] && l[u..v][v - u - 1] == l[v - 1];
    }
  }

  /** A line cut into the parts that `AcceptedSlices` locates. */
  lemma {:induction false} Pieces(l: string, a: nat, b: nat, c: nat, d: nat, e: nat, t: nat, u: nat, v: nat)
    returns (s1: string, ds: string, s2: string, s3: string, subj: string,
             s4: string, s5: string, x: string, s6: string)
    requires a < b <= c && c + 1 <= d < e <= t && t + 1 <= u <= v <= |l|
    requires l[c] == Tab && l[t] == Tab && Newline !in l
    requires AllSpaces(l[..a]) && AllDigits(l[a..b]) && AllSpaces(l[b..c])
    requires AllSpaces(l[c + 1..d]) && AllSpaces(l[e..t])
    requires AllSpaces(l[t + 1..u]) && AllSpaces(l[v..])
    requires u < v ==> l[u] != Space && l[v - 1] != Space
    ensures l == s1 + ds + s2 + [Tab] + s3 + subj + s4 + [Tab] + s5 + x + s6
    ensures AllSpaces(s1) && AllSpaces(s2) && AllSpaces(s3)
    ensures AllSpaces(s4) && AllSpaces(s5) && AllSpaces(s6)
    ensures |ds| > 0 && AllDigits(ds) && Trimmed(x)
    ensures ds == l[a..b] && subj == l[d..e] && x == l[u..v]
  {
    s1, ds, s2 := l[..a], l[a..b], l[b..c];
    s3, subj, s4 := l[c + 1..d], l[d..e], l[e..t];
    s5, x, s6 := l[t + 1..u], l[u..v], l[v..];
    Cuts(l, a, b, c, d, e, t, u, v);
    XTrimmed(l, u, v);
  }

  /** A window is its line followed by nothing or by what a newline starts. */
  lemma WindowTail(w: string) returns (tail: string)
    ensures w == LineOf(w) + tail
    ensures tail == [] || tail[0] == Newline
  {
    tail := w[|LineOf(w)|..];
    assert w == w[..|LineOf(w)|] + tail;
  }

  /** The converse of `ParsePadded`: every accepted window is laid out as
      the tolerant grammar allows, with spaces, at least one digit and
      spaces before the first TAB, the subject between spaces before the
      second TAB, the relations text between spaces, and nothing after the
      line but what a newline starts, and it reads as those parts. */
  lemma {:induction false} AcceptedLayout(w: string)
    returns (s1: string, ds: string, s2: string, s3: string, subj: string,
             s4: string, s5: string, x: string, s6: string, tail: string)
    requires ParseLine(w).Accepted?
    ensures w == s1 + ds + s2 + [Tab] + s3 + subj + s4 + [Tab] + s5 + x + s6 + tail
    ensures AllSpaces(s1) && AllSpaces(s2) && AllSpaces(s3)
    ensures AllSpaces(s4) && AllSpaces(s5) && AllSpaces(s6)
    ensures |ds| > 0 && AllDigits(ds)
    ensures ValidSubject(subj)
    ensures Trimmed(x)
    ensures tail == [] || tail[0] == Newline
    ensures ParseLine(w) == Accepted(DecimalValue(ds), subj, RelationsOf(x))
  {
    var l := LineOf(w);
    var a, b, c, d, e, t, u, v := AcceptedSlices(l);
    s1, ds, s2, s3, subj, s4, s5, x, s6 := Pieces(l, a, b, c, d, e, t, u, v);
    tail := WindowTail(w);
  }

  /** Joined valid relations are what the relations field stands for. */
  lemma RelationsOfJoin(rs: seq<string>)
    requires ValidRelations(rs)
    ensures Trimmed(Join(rs)) && RelationsOf(Join(rs)) == rs
  {
    JoinShape(rs);
    if rs != [] {
      SplitJoin(rs);
    }
  }

  /** Reading a written line gives back its id, its subject and its
      relations, as long as the subject and the joined relations are read as
      themselves. */
  lemma {:induction false} ReadWritten(id: nat, subj: string, rs: seq<string>, tail: string)
    requires ValidSubject(subj) && Trimmed(Join(rs)) && RelationsOf(Join(rs)) == rs
    requires tail == [] || tail[0] == Newline
    ensures ParseLine(Body(id, Some(subj), rs) + tail) == Accepted(id, subj, rs)
  {
    DecimalRoundTrip(id);
    ParsePadded(Body(id, Some(subj), rs) + tail, [], Decimal(id), [], [], subj, [], [], Join(rs), [], tail);
  }

  /** Write, then read: a record with a valid subject and valid relations is
      read back exactly from the line it writes, with or without the newline,
      and nothing after the newline matters. */
  lemma {:induction false} RoundTrip(id: nat, subj: string, rs: seq<string>, tail: string)
    requires ValidSubject(subj) && ValidRelations(rs)
    requires tail == [] || tail[0] == Newline
    ensures ParseLine(Body(id, Some(subj), rs) + tail) == Accepted(id, subj, rs)
  {
    RelationsOfJoin(rs);
    ReadWritten(id, subj, rs, tail);
  }

  lemma {:induction false} WriteParse(id: nat, subj: string, rs: seq<string>)
    requires ValidSubject(subj) && ValidRelations(rs)
    ensures ParseLine(FormatLine(id, Some(subj), rs)) == Accepted(id, subj, rs)
  {
    RoundTrip(id, subj, rs, [Newline]);
  }

  /** Read, write, read: whatever a line was read as, the line written from it
      is read as the same thing. */
  lemma {:induction false} ParseWriteParse(w: string)
    requires ParseLine(w).Accepted?
    ensures ParseLine(FormatLine(ParseLine(w).id, Some(ParseLine(w).subject), ParseLine(w).relations))
         == ParseLine(w)
  {
    var o := ParseLine(w);
    ParsedShape(w);
    ReadWritten(o.id, o.subject, o.relations, [Newline]);
  }
}

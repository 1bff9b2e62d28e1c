/**
  The by-subject record: a reusable object holding one line's id, subject
  and relations, which writes itself as one line and reads itself from a
  range of a byte buffer.  Every scanning loop is proved against the
  function of `LineFormat` that it computes, and `Parse` as a whole against
  `ParseLine`.
 */
module Record {
  import opened LineFormat
  import opened Bytes

  function Min(x: int, y: int): int { if x <= y then x else y }

  /** The bytes a parse may look at: `[off, off + len)`, cut at the end of
      the buffer. */
  function Window(a: seq<byte>, off: nat, len: nat): (w: seq<byte>)
    ensures |w| <= len
    ensures off + len <= |a| ==> w == a[off..off + len]
  {
    a[Min(off, |a|)..Min(off + len, |a|)]
  }

  // ---------------------------------------------------------------------
  // Scanning loops over the bytes `[lo, hi)` of a buffer, which hold the
  // text `t`; positions are counted from `lo`, as positions in `t`

  /** The bytes `[lo, hi)` of `a` spell out `t`, one character per byte. */
  ghost predicate Mirrors(a: array<byte>, lo: nat, hi: nat, t: string)
    reads a
  {
    lo <= hi <= a.Length && |t| == hi - lo &&
    forall k :: 0 <= k < |t| ==> t[k] == CharOf(a[lo + k])
  }

  lemma DecodeMirrors(a: array<byte>, lo: nat, hi: nat)
    requires lo <= hi <= a.Length
    ensures Mirrors(a, lo, hi, Decode(a[lo..hi]))
  {
    var t := Decode(a[lo..hi]);
    forall k | 0 <= k < |t| ensures t[k] == CharOf(a[lo + k]) {
      assert a[lo..hi][k] == a[lo + k];
    }
  }

  /** Decoding the bytes at positions `[i, j)` gives the matching part of the
      text. */
  lemma DecodePart(a: array<byte>, lo: nat, hi: nat, t: string, i: nat, j: nat)
    requires Mirrors(a, lo, hi, t) && i <= j <= |t|
    ensures Decode(a[lo + i..lo + j]) == t[i..j]
  {
    var d := Decode(a[lo + i..lo + j]);
    forall k | 0 <= k < j - i ensures d[k] == t[i..j][k] {
      assert a[lo + i..lo + j][k] == a[lo + (i + k)];
      assert t[i..j][k] == t[i + k];
    }
  }

  /** The bytes at positions `[i, j)` spell out the matching part of the
      text. */
  lemma MirrorsPart(a: array<byte>, lo: nat, hi: nat, t: string, i: nat, j: nat)
    requires Mirrors(a, lo, hi, t) && i <= j <= |t|
    ensures Mirrors(a, lo + i, lo + j, t[i..j])
  {
    forall k | 0 <= k < j - i ensures t[i..j][k] == CharOf(a[lo + i + k]) {
      assert t[i..j][k] == t[i + k];
      assert lo + i + k == lo + (i + k);
    }
  }

  lemma MirrorsPrefix(a: array<byte>, lo: nat, hi: nat, t: string, j: nat)
    requires Mirrors(a, lo, hi, t) && j <= |t|
    ensures Mirrors(a, lo, lo + j, t[..j])
  {
    forall k | 0 <= k < j ensures t[..j][k] == CharOf(a[lo + k]) {
      assert t[..j][k] == t[k];
    }
  }

  method ScanBytes(a: array<byte>, lo: nat, hi: nat, ghost t: string, i: nat, cls: CharClass) returns (j: nat)
    requires Mirrors(a, lo, hi, t) && i <= |t|
    ensures j == Scan(t, i, cls)
  {
    j := i;
    while j < hi - lo && In(CharOf(a[lo + j]), cls)
      invariant i <= j <= |t|
      invariant Scan(t, j, cls) == Scan(t, i, cls)
      decreases |t| - j
    {
      assert t[j] == CharOf(a[lo + j]);
      j := j + 1;
    }
    assert j < |t| ==> t[j] == CharOf(a[lo + j]);
  }

  method ScanBackBytes(a: array<byte>, lo: nat, hi: nat, ghost t: string, m: nat, j: nat, cls: CharClass)
    returns (v: nat)
    requires Mirrors(a, lo, hi, t) && m <= j <= |t|
    ensures v == ScanBack(t, m, j, cls)
  {
    v := j;
    while v > m && In(CharOf(a[lo + v - 1]), cls)
      invariant m <= v <= j
      invariant ScanBack(t, m, v, cls) == ScanBack(t, m, j, cls)
      decreases v
    {
      assert t[v - 1] == CharOf(a[lo + (v - 1)]);
      v := v - 1;
    }
    assert v > m ==> t[v - 1] == CharOf(a[lo + (v - 1)]);
  }

  /** Reads the run of digits that starts at `i`, and its value. */
  method ReadDigits(a: array<byte>, lo: nat, hi: nat, ghost t: string, i: nat) returns (j: nat, n: nat)
    requires Mirrors(a, lo, hi, t) && i <= |t|
    ensures j == Scan(t, i, Digits)
    ensures AllDigits(t[i..j])
    ensures n == DecimalValue(t[i..j])
  {
    j, n := i, 0;
    while j < hi - lo && IsDigit(CharOf(a[lo + j]))
      invariant i <= j <= |t|
      invariant Scan(t, j, Digits) == Scan(t, i, Digits)
      invariant AllDigits(t[i..j])
      invariant n == DecimalValue(t[i..j])
      decreases |t| - j
    {
      assert t[j] == CharOf(a[lo + j]);
      DigitStep(t, i, j);
      n := 10 * n + DigitValue(CharOf(a[lo + j]));
      j := j + 1;
    }
    assert j < |t| ==> t[j] == CharOf(a[lo + j]);
  }

  /** Finds the first two-space separator at or after `i`, or the end. */
  method FindSeparator(a: array<byte>, lo: nat, hi: nat, ghost t: string, i: nat) returns (k: nat)
    requires Mirrors(a, lo, hi, t) && i <= |t|
    ensures k == FirstSeparator(t, i)
  {
    k := i;
    while k + 1 < hi - lo && !(a[lo + k] == SPACE && a[lo + (k + 1)] == SPACE)
      invariant i <= k <= |t|
      invariant FirstSeparator(t, k) == FirstSeparator(t, i)
      decreases |t| - k
    {
      assert t[k] == CharOf(a[lo + k]) && t[k + 1] == CharOf(a[lo + (k + 1)]);
      k := k + 1;
    }
    if k + 1 >= hi - lo {
      k := hi - lo;
    } else {
      assert t[k] == CharOf(a[lo + k]) && t[k + 1] == CharOf(a[lo + (k + 1)]);
    }
  }

  /** Cuts the text at every separator, left to right. */
  method SplitBytes(a: array<byte>, lo: nat, hi: nat, ghost t: string) returns (rs: seq<string>)
    requires Mirrors(a, lo, hi, t)
    ensures rs == Split(t)
  {
    var i := 0;
    rs := [];
    var k := FindSeparator(a, lo, hi, t, i);
    while k < hi - lo
      invariant i <= k <= |t|
      invariant k == FirstSeparator(t, i)
      invariant rs + SplitFrom(t, i) == Split(t)
      decreases |t| - i
    {
      SplitProgress(t, rs, i, k);
      DecodePart(a, lo, hi, t, i, k);
      rs := rs + [Decode(a[lo + i..lo + k])];
      i := k + 2;
      k := FindSeparator(a, lo, hi, t, i);
    }
    SplitFromEnd(t, i);
    DecodePart(a, lo, hi, t, i, k);
    assert t[i..k] == t[i..];
    rs := rs + [Decode(a[lo + i..lo + k])];
  }

  // ---------------------------------------------------------------------
  // Reading the fields of the line `l` held by the bytes `[lo, e)`

  /** The id field: its value, even when the field turns out malformed, and
      where the subject field starts. */
  method ReadId(a: array<byte>, lo: nat, e: nat, ghost l: string) returns (n: nat, f: Field<nat>)
    requires Mirrors(a, lo, e, l)
    ensures n == IdValue(l)
    ensures f == IdField(l)
  {
    var p := ScanBytes(a, lo, e, l, 0, Spaces);
    var q;
    q, n := ReadDigits(a, lo, e, l, p);
    var c := ScanBytes(a, lo, e, l, q, Spaces);
    if p == q || c == e - lo || a[lo + c] != TAB {
      assert c < |l| ==> l[c] == CharOf(a[lo + c]);
      f := Bad;
    } else {
      assert l[c] == CharOf(a[lo + c]);
      f := Good(n, c + 1);
    }
  }

  /** The subject field from `l[i]`, trimmed, and where the relations
      start. */
  method ReadSubject(a: array<byte>, lo: nat, e: nat, ghost l: string, i: nat) returns (f: Field<string>)
    requires Mirrors(a, lo, e, l) && i <= |l|
    ensures f == SubjectField(l, i)
  {
    var d := ScanBytes(a, lo, e, l, i, Spaces);
    var t := ScanBytes(a, lo, e, l, d, NotTab);
    var s := ScanBackBytes(a, lo, e, l, d, t, Spaces);
    if t == e - lo || d == s {
      f := Bad;
    } else {
      DecodePart(a, lo, e, l, d, s);
      f := Good(Decode(a[lo + d..lo + s]), t + 1);
    }
  }

  /** The relations field from `l[i]` to the end of the line. */
  method ReadRelations(a: array<byte>, lo: nat, e: nat, ghost l: string, i: nat) returns (rs: seq<string>)
    requires Mirrors(a, lo, e, l) && i <= |l|
    ensures rs == RelationsField(l, i)
  {
    var u := ScanBytes(a, lo, e, l, i, Spaces);
    var v := ScanBackBytes(a, lo, e, l, u, e - lo, Spaces);
    if u == v {
      rs := [];
    } else {
      MirrorsPart(a, lo, e, l, u, v);
      rs := SplitBytes(a, lo + u, lo + v, l[u..v]);
    }
  }

  /** Reads the fields of the line held by the bytes `[lo, e)`. */
  method ReadFields(a: array<byte>, lo: nat, e: nat, ghost l: string) returns (o: Outcome)
    requires Mirrors(a, lo, e, l)
    ensures o == ParseFields(l)
  {
    var n, f := ReadId(a, lo, e, l);
    if f.Bad? {
      return Rejected(n);
    }
    var g := ReadSubject(a, lo, e, l, f.next);
    if g.Bad? {
      return Rejected(n);
    }
    var rs := ReadRelations(a, lo, e, l, g.next);
    o := Accepted(n, g.value, rs);
  }

  /** Reads the line that the bytes `[lo, hi)` start with: the bytes before
      the first newline, or all of them. */
  method ReadLine(a: array<byte>, lo: nat, hi: nat, ghost w: string) returns (o: Outcome)
    requires Mirrors(a, lo, hi, w)
    ensures o == ParseLine(w)
  {
    if lo == hi {
      return NoInput;
    }
    var e := ScanBytes(a, lo, hi, w, 0, NotNewline);
    MirrorsPrefix(a, lo, hi, w, e);
    o := ReadFields(a, lo, lo + e, LineOf(w));
  }

  // ---------------------------------------------------------------------
  // The record

  class BySubjectRecord {
    var id: nat
    var subject: Option<string>
    var relations: seq<string>

    /** A fresh record: id 0, no subject, no relations. */
    constructor()
      ensures id == 0 && subject == None && relations == []
    {
      id := 0;
      subject := None;
      relations := [];
    }

    method SetId(n: nat)
      modifies this
      ensures id == n && subject == old(subject) && relations == old(relations)
    {
      id := n;
    }

    method SetSubject(s: string)
      modifies this
      ensures id == old(id) && subject == Some(s) && relations == old(relations)
    {
      subject := Some(s);
    }

    /** Appends one relation after the ones already held. */
    method AddRelation(r: string)
      modifies this
      ensures id == old(id) && subject == old(subject) && relations == old(relations) + [r]
    {
      relations := relations + [r];
    }

    function RelationsCount(): (n: nat)
      reads this
      ensures n == |relations|
    {
      |relations|
    }

    function HasRelations(): (b: bool)
      reads this
      ensures b <==> RelationsCount() > 0
    {
      relations != []
    }

    /** The line this record writes: id, TAB, subject (nothing when there is
        none), TAB, the relations two spaces apart, newline. */
    method WriteTo() returns (line: string)
      ensures line == FormatLine(id, subject, relations)
    {
      line := Decimal(id) + [Tab] + SubjectText(subject) + [Tab];
      ghost var head := line;
      var k := 0;
      while k < |relations|
        invariant 0 <= k <= |relations|
        invariant line == head + Join(relations[..k])
      {
        if k > 0 {
          line := line + RelationSeparator;
          JoinSnoc(relations[..k], relations[k]);
        } else {
          assert Join(relations[..1]) == relations[0];
        }
        line := line + relations[k];
        assert relations[..k + 1] == relations[..k] + [relations[k]];
        k := k + 1;
      }
      assert relations[..k] == relations;
      line := line + [Newline];
    }

    /** A reader over the relations text, two spaces between relations. */
    method GetRelationsReader() returns (r: RelationsReader)
      ensures fresh(r) && r.Valid()
      ensures r.text == Join(relations) && r.pos == 0
    {
      r := new RelationsReader(Join(relations));
    }

    /** Reads the bytes `[off, off + len)` of `a` as one line.  An empty
        range touches nothing; a malformed line sets only the id, to the
        digits scanned before the failure; a well-formed line sets all three
        fields. */
    method Parse(a: array<byte>, off: nat, len: nat) returns (ok: bool)
      modifies this
      ensures var o := ParseLine(Decode(Window(a[..], off, len)));
        ok == o.Accepted? &&
        id == (if o.NoInput? then old(id) else o.id) &&
        subject == (if o.Accepted? then Some(o.subject) else old(subject)) &&
        relations == (if o.Accepted? then o.relations else old(relations))
    {
      var lo, hi := Min(off, a.Length), Min(off + len, a.Length);
      assert a[lo..hi] == Window(a[..], off, len);
      DecodeMirrors(a, lo, hi);
      var o := ReadLine(a, lo, hi, Decode(a[lo..hi]));
      match o
      case NoInput =>
        ok := false;
      case Rejected(n) =>
        id := n;
        ok := false;
      case Accepted(n, s, rs) =>
        id, subject, relations := n, Some(s), rs;
        ok := true;
    }
  }

  /** A reader over a fixed text: each read hands out the next characters. */
  class RelationsReader {
    const text: string
    var pos: nat

    ghost predicate Valid()
      reads this
    {
      pos <= |text|
    }

    constructor(s: string)
      ensures Valid() && text == s && pos == 0
    {
      text := s;
      pos := 0;
    }

    /** At the end of the text: -1, and the buffer is left alone.  Otherwise
        the next characters fill the start of the buffer, as many as fit. */
    method Read(buf: array<char>) returns (n: int)
      requires Valid()
      modifies this, buf
      ensures Valid()
      ensures old(pos) == |text| ==> n == -1 && pos == old(pos) && buf[..] == old(buf[..])
      ensures old(pos) < |text| ==>
        n == Min(buf.Length, |text| - old(pos)) && pos == old(pos) + n &&
        buf[..n] == text[old(pos)..pos] && buf[n..] == old(buf[n..])
    {
      if pos == |text| {
        return -1;
      }
      var p := pos;
      n := Min(buf.Length, |text| - p);
      var k := 0;
      while k < n
        invariant 0 <= k <= n
        invariant forall j :: 0 <= j < k ==> buf[j] == text[p + j]
        invariant forall j :: k <= j < buf.Length ==> buf[j] == old(buf[j])
      {
        buf[k] := text[p + k];
        k := k + 1;
      }
      assert buf[..n] == text[p..p + n];
      assert buf[n..] == old(buf[n..]);
      pos := p + n;
    }
  }
}

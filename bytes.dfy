/**
  Bytes and the characters they stand for.  Every line in the by-subject
  format is plain text; a byte below 128 is the ASCII character of the same
  code, which is what UTF-8 makes of it.
 */
module Bytes {

  newtype byte = x: int | 0 <= x < 256

  const LF: byte := 10
  const TAB: byte := 9
  const SPACE: byte := 32

  /** A character that a single byte encodes. */
  predicate IsAscii(c: char) { c as int < 128 }

  predicate AllAscii(s: string) { forall k :: 0 <= k < |s| ==> IsAscii(s[k]) }

  function CharOf(b: byte): (c: char)
    ensures c as int == b as int
  {
    b as int as char
  }

  /** The text a run of bytes stands for, one character per byte. */
  function Decode(bs: seq<byte>): (s: string)
    ensures |s| == |bs|
    ensures forall k :: 0 <= k < |bs| ==> s[k] == CharOf(bs[k])
  {
    seq(|bs|, k requires 0 <= k < |bs| => CharOf(bs[k]))
  }

  /** The bytes of an ASCII text, one byte per character. */
  function Encode(s: string): (bs: seq<byte>)
    requires AllAscii(s)
    ensures |bs| == |s|
    ensures forall k :: 0 <= k < |s| ==> bs[k] as int == s[k] as int
  {
    seq(|s|, k requires 0 <= k < |s| => s[k] as int as byte)
  }

  /** Encoding an ASCII text and decoding the bytes gives the text back. */
  lemma DecodeEncode(s: string)
    requires AllAscii(s)
    ensures Decode(Encode(s)) == s
  {
    var t := Decode(Encode(s));
    assert forall k :: 0 <= k < |s| ==> t[k] as int == s[k] as int;
  }

  /** Decoding commutes with concatenation. */
  lemma DecodeAppend(xs: seq<byte>, ys: seq<byte>)
    ensures Decode(xs + ys) == Decode(xs) + Decode(ys)
  {
    var l, r := Decode(xs + ys), Decode(xs) + Decode(ys);
    assert forall k :: 0 <= k < |l| ==> l[k] == r[k];
  }
}

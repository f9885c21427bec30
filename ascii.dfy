/** Bytes and the text they spell, as the conversions `[]byte(s)` and `string(b)` use them. */
module Ascii {

  newtype byte = x: int | 0 <= x < 256

  /** True when every character of `s` is a 7-bit ASCII character. */
  predicate IsAscii(s: string)
  {
    forall i :: 0 <= i < |s| ==> s[i] as int < 128
  }

  /** `[]byte(s)`: for ASCII text, one byte per character holding its code. */
  function Bytes(s: string): (b: seq<byte>)
    requires IsAscii(s)
    ensures |b| == |s|
    ensures forall i :: 0 <= i < |s| ==> b[i] as int == s[i] as int
  {
    seq(|s|, i requires 0 <= i < |s| => s[i] as int as byte)
  }

  /** `string(b)`: one character per byte, with the byte as its code. */
  function Text(b: seq<byte>): (s: string)
    ensures |s| == |b|
    ensures forall i :: 0 <= i < |b| ==> s[i] as int == b[i] as int
  {
    seq(|b|, i requires 0 <= i < |b| => b[i] as int as char)
  }

  /** Reading back the bytes of ASCII text gives the text again. */
  lemma TextOfBytes(s: string)
    requires IsAscii(s)
    ensures Text(Bytes(s)) == s
  {
    var t := Text(Bytes(s));
    assert forall i :: 0 <= i < |s| ==> t[i] as int == s[i] as int;
  }

  /** Two byte strings spell the same text only when they are the same bytes. */
  lemma TextInjective(a: seq<byte>, b: seq<byte>)
    requires Text(a) == Text(b)
    ensures a == b
  {
    assert |a| == |b|;
    forall i | 0 <= i < |a|
      ensures a[i] == b[i]
    {
      assert Text(a)[i] == Text(b)[i];
    }
  }
}

/** UTF-8 as an encoding: a text is determined by its bytes, and an ASCII byte is always a
    character of its own. */
module Utf8Laws {
  import opened Base
  import opened Text

  /** What the byte at `i` adds to the marker of its kind: a lead byte, or `0x80`. */
  function Payload(b: Bytes, i: nat, marker: int): int
    requires i < |b|
  {
    b[i] as int - marker
  }

  function Continuation(b: Bytes, i: nat): int
    requires i < |b|
  {
    Payload(b, i, 0x80)
  }

  /** The scalar value that the first bytes encode. */
  function Scalar(b: Bytes): int {
    if |b| >= 1 && b[0] < 0x80 then b[0]
    else if |b| >= 2 && b[0] < 0xE0 then Payload(b, 0, 0xC0) * 64 + Continuation(b, 1)
    else if |b| >= 3 && b[0] < 0xF0 then
      Payload(b, 0, 0xE0) * 4096 + Continuation(b, 1) * 64 + Continuation(b, 2)
    else if |b| >= 4 then
      Payload(b, 0, 0xF0) * 262_144 + Continuation(b, 1) * 4096 + Continuation(b, 2) * 64 + Continuation(b, 3)
    else 0
  }

  /** The first bytes of a text give its first character, whatever follows. */
  lemma ScalarOfFirst(c: char, rest: Bytes)
    ensures Scalar(Utf8(c) + rest) == c as int
  {
    var b, v := Utf8(c) + rest, c as int;
    assert b[0] == Utf8(c)[0] && (Width(c) > 1 ==> b[1] == Utf8(c)[1]);
    assert (Width(c) > 2 ==> b[2] == Utf8(c)[2]) && (Width(c) > 3 ==> b[3] == Utf8(c)[3]);
    assert v == v / 64 * 64 + v % 64;
    assert v / 64 == v / 4096 * 64 + v / 64 % 64 by { DivideTwice(v, 64); }
    assert v / 4096 == v / 262_144 * 64 + v / 4096 % 64 by { DivideTwice(v, 4096); }
  }

  lemma DivideTwice(v: nat, k: int)
    requires k == 64 || k == 4096
    ensures v / k == v / (k * 64) * 64 + v / k % 64
  {
  }

  lemma {:induction false} AsBytesInjective(s: string, t: string)
    requires AsBytes(s) == AsBytes(t)
    ensures s == t
  {
    if s != [] && t != [] {
      ScalarOfFirst(s[0], AsBytes(s[1..]));
      ScalarOfFirst(t[0], AsBytes(t[1..]));
      assert AsBytes(s[1..]) == AsBytes(s)[Width(s[0])..] == AsBytes(t)[Width(t[0])..] == AsBytes(t[1..]);
      AsBytesInjective(s[1..], t[1..]);
      assert s == [s[0]] + s[1..] && t == [t[0]] + t[1..];
    }
  }

  lemma {:induction false} AsBytesConcat(s: string, t: string)
    ensures AsBytes(s + t) == AsBytes(s) + AsBytes(t)
  {
    if s == [] {
      assert s + t == t;
    } else {
      assert (s + t)[1..] == s[1..] + t;
      AsBytesConcat(s[1..], t);
    }
  }

  /** Where a text is cut in two around the character that an ASCII byte of it is. */
  lemma {:induction false} AsciiByteIsCharacter(s: string, k: nat) returns (i: nat)
    requires k < |AsBytes(s)| && AsBytes(s)[k] < 0x80
    ensures i < |s| && s[i] as int == AsBytes(s)[k] && AsBytes(s[i + 1..]) == AsBytes(s)[k + 1..]
  {
    var w := Width(s[0]);
    if k < w {
      i := 0;
      assert Utf8(s[0])[k] == AsBytes(s)[k];
    } else {
      i := AsciiByteIsCharacter(s[1..], k - w);
      assert AsBytes(s)[k + 1..] == AsBytes(s[1..])[k - w + 1..];
      assert s[i + 1..] == s[1..][i..] && s[1..][i + 1..] == s[i + 2..];
      i := i + 1;
    }
  }
}

/** Hexadecimal text: the app lock's `to_hex` and `from_hex` (apps/parent/src/lock.rs) and the
    email renderer's `hex` (crates/bulwark-alert/src/render.rs). Rust slices strings by UTF-8
    byte, so the decoder's answer can also be a panic; it is one of the outcomes here. */
module Hex {
  import opened Base
  import opened Text

  datatype Outcome = Decoded(bytes: Bytes) | Rejected | Panics

  function LowerDigit(v: nat): char
    requires v < 16
  {
    if v < 10 then ('0' as int + v) as char else ('a' as int + v - 10) as char
  }

  predicate IsLowerDigit(c: char) {
    '0' <= c <= '9' || 'a' <= c <= 'f'
  }

  predicate AllLower(s: string) {
    forall i :: 0 <= i < |s| ==> IsLowerDigit(s[i])
  }

  /** `char::to_digit(16)`. */
  function DigitValue(c: char): Option<nat> {
    if '0' <= c <= '9' then Some(c as int - '0' as int)
    else if 'a' <= c <= 'f' then Some(c as int - 'a' as int + 10)
    else if 'A' <= c <= 'F' then Some(c as int - 'A' as int + 10)
    else None
  }

  // ----- Encoding -----

  /** Two digits a byte, high half first. */
  function Encoded(bytes: Bytes): (s: string)
    ensures |s| == 2 * |bytes| && AllLower(s)
  {
    if bytes == [] then []
    else
      var b: int := bytes[0];
      [LowerDigit(b / 16), LowerDigit(b % 16)] + Encoded(bytes[1..])
  }

  lemma {:induction false} EncodedSnoc(bytes: Bytes, b: byte)
    ensures Encoded(bytes + [b]) == Encoded(bytes) + Encoded([b])
  {
    if bytes == [] {
      assert bytes + [b] == [b];
    } else {
      assert (bytes + [b])[1..] == bytes[1..] + [b];
      EncodedSnoc(bytes[1..], b);
    }
  }

  /** `format!("{v:x}")`: no leading zero. */
  function Unpadded(v: nat): string {
    if v < 16 then [LowerDigit(v)] else Unpadded(v / 16) + [LowerDigit(v % 16)]
  }

  /** `format!("{b:02x}")`. */
  function Padded(b: byte): string {
    var s := Unpadded(b);
    if |s| < 2 then "0" + s else s
  }

  lemma PaddedIsTwoDigits(b: byte)
    ensures Padded(b) == Encoded([b])
  {
    var v: int := b;
    assert [b][1..] == [];
    assert Encoded([b]) == [LowerDigit(v / 16), LowerDigit(v % 16)];
    if v >= 16 { assert Unpadded(v / 16) == [LowerDigit(v / 16)]; }
  }

  /** lock.rs: one formatted byte after the other. */
  method ToHex(bytes: Bytes) returns (s: string)
    ensures s == Encoded(bytes)
  {
    s := "";
    for i := 0 to |bytes|
      invariant s == Encoded(bytes[..i])
    {
      PaddedIsTwoDigits(bytes[i]);
      EncodedSnoc(bytes[..i], bytes[i]);
      assert bytes[..i + 1] == bytes[..i] + [bytes[i]];
      s := s + Padded(bytes[i]);
    }
    assert bytes[..|bytes|] == bytes;
  }

  /** render.rs: two table lookups a byte. */
  method HexByTable(bytes: Bytes) returns (out: string)
    ensures out == Encoded(bytes)
  {
    var hex := "0123456789abcdef";
    out := "";
    for i := 0 to |bytes|
      invariant out == Encoded(bytes[..i])
    {
      var b: int := bytes[i];
      TableIsLowerDigit(b / 16);
      TableIsLowerDigit(b % 16);
      EncodedSnoc(bytes[..i], bytes[i]);
      assert bytes[..i + 1] == bytes[..i] + [bytes[i]];
      assert [bytes[i]][1..] == [];
      assert Encoded([bytes[i]]) == [hex[b / 16]] + [hex[b % 16]];
      out := out + [hex[b / 16]];
      out := out + [hex[b % 16]];
    }
    assert bytes[..|bytes|] == bytes;
  }

  lemma TableIsLowerDigit(v: nat)
    requires v < 16
    ensures "0123456789abcdef"[v] == LowerDigit(v)
  {
    assert v in {0, 1, 2, 3, 4, 5, 6, 7, 8, 9, 10, 11, 12, 13, 14, 15};
  }

  // ----- Decoding -----

  /** `u8::from_str_radix(ab, 16)`: a leading plus sign is allowed. */
  function PairValue(a: char, b: char): Option<byte> {
    var x, y := if a == '+' then Some(0) else DigitValue(a), DigitValue(b);
    if x.Some? && y.Some? then Some(x.value * 16 + y.value) else None
  }

  /** Two bytes of text at a time: a slice that ends inside a character panics, a slice that is
      one two-byte character is no number, and the first failure ends the loop. */
  function Pairs(s: string): Outcome
    requires ByteLength(s) % 2 == 0
  {
    if s == [] then Decoded([])
    else if Width(s[0]) == 2 then Rejected
    else if Width(s[0]) > 2 || Width(s[1]) > 1 then Panics
    else
      assert ByteLength(s) == 2 + ByteLength(s[1..][1..]) && s[1..][1..] == s[2..];
      var first := PairValue(s[0], s[1]);
      if first.None? then Rejected
      else
        var rest := Pairs(s[2..]);
        if rest.Decoded? then Decoded([first.value] + rest.bytes) else rest
  }

  function FromHex(s: string): Outcome {
    if ByteLength(s) % 2 != 0 then Rejected else Pairs(s)
  }

  // ----- Laws -----

  lemma DigitRoundTrip(v: nat)
    requires v < 16
    ensures DigitValue(LowerDigit(v)) == Some(v) && LowerDigit(v) != '+'
  {
  }

  lemma LowerDigitIsCanonical(c: char)
    requires IsLowerDigit(c)
    ensures DigitValue(c).Some? && DigitValue(c).value < 16 && LowerDigit(DigitValue(c).value) == c && c != '+'
  {
  }

  predicate Ascii(s: string) {
    forall i :: 0 <= i < |s| ==> s[i] < '\U{80}'
  }

  lemma {:induction false} AsciiLength(s: string)
    requires Ascii(s)
    ensures ByteLength(s) == |s|
  {
    if s != [] { AsciiLength(s[1..]); }
  }

  lemma {:induction false} PairsRoundTrip(bytes: Bytes)
    ensures ByteLength(Encoded(bytes)) % 2 == 0 && Pairs(Encoded(bytes)) == Decoded(bytes)
  {
    AsciiLength(Encoded(bytes));
    if bytes != [] {
      var b: int := bytes[0];
      DigitRoundTrip(b / 16);
      DigitRoundTrip(b % 16);
      assert Encoded(bytes)[2..] == Encoded(bytes[1..]);
      PairsRoundTrip(bytes[1..]);
      assert bytes == [bytes[0]] + bytes[1..];
    }
  }

  /** Decoding inverts encoding for every byte sequence. */
  lemma HexRoundTrip(bytes: Bytes)
    ensures FromHex(Encoded(bytes)) == Decoded(bytes)
  {
    PairsRoundTrip(bytes);
  }

  lemma {:induction false} LowerPairs(s: string)
    requires ByteLength(s) % 2 == 0 && AllLower(s)
    ensures Pairs(s).Decoded? && Encoded(Pairs(s).bytes) == s
  {
    if s != [] {
      AsciiLength(s);
      AsciiLength(s[2..]);
      LowerDigitIsCanonical(s[0]);
      LowerDigitIsCanonical(s[1]);
      LowerPairs(s[2..]);
      var b: int := Pairs(s).bytes[0];
      var x, y := DigitValue(s[0]).value, DigitValue(s[1]).value;
      assert b == x * 16 + y && b / 16 == x && b % 16 == y;
      assert Pairs(s).bytes[1..] == Pairs(s[2..]).bytes;
      assert s == [s[0], s[1]] + s[2..];
    }
  }

  /** A text is the encoding of what it decodes to exactly when it is lower-case digits only;
      the decoder itself takes more. */
  lemma DecodesBackToItself(s: string)
    ensures (FromHex(s).Decoded? && Encoded(FromHex(s).bytes) == s) <==> (AllLower(s) && |s| % 2 == 0)
  {
    if AllLower(s) && |s| % 2 == 0 {
      AsciiLength(s);
      LowerPairs(s);
    }
  }

  /** Capitals and a plus sign decode too, so decoding is not injective. */
  lemma OtherSpellings()
    ensures FromHex("0f") == FromHex("0F") == FromHex("+f") == Decoded([15])
  {
    AsciiLength("0f");
    AsciiLength("0F");
    AsciiLength("+f");
    assert "0f"[2..] == "0F"[2..] == "+f"[2..] == [];
  }

  lemma {:induction false} PairsDecode(s: string)
    requires ByteLength(s) % 2 == 0 && Pairs(s).Decoded?
    ensures |s| == 2 * |Pairs(s).bytes| && Ascii(s)
  {
    if s != [] {
      assert s == [s[0], s[1]] + s[2..];
      PairsDecode(s[2..]);
    }
  }

  /** What decodes is ASCII, two characters a byte. */
  lemma DecodedLength(s: string)
    requires FromHex(s).Decoded?
    ensures |s| == 2 * |FromHex(s).bytes| && Ascii(s)
  {
    PairsDecode(s);
  }

  // ----- When the decoder reads, rejects and panics -----

  /** The first `k` characters are byte pairs that can be read. */
  predicate ReadsTo(s: string, k: nat) {
    k == 0
    || (&& 2 <= k <= |s| && Width(s[0]) == 1 && Width(s[1]) == 1 && PairValue(s[0], s[1]).Some?
        && ReadsTo(s[2..], k - 2))
  }

  /** The next two bytes from `k` on end inside a character. */
  predicate SplitsCharacter(s: string, k: nat) {
    k < |s| && (Width(s[k]) > 2 || (Width(s[k]) == 1 && k + 1 < |s| && Width(s[k + 1]) > 1))
  }

  /** Everything before some split character reads. */
  predicate BreaksOff(s: string) {
    ByteLength(s) % 2 == 0 && exists k :: 0 <= k < |s| && ReadsTo(s, k) && SplitsCharacter(s, k)
  }

  lemma PairLength(s: string)
    requires |s| >= 2 && Width(s[0]) == 1 && Width(s[1]) == 1
    ensures ByteLength(s) == 2 + ByteLength(s[2..])
  {
    assert s[1..][1..] == s[2..];
  }

  /** A readable first pair moves the question two characters on. */
  lemma BreaksOffBehindPair(s: string)
    requires |s| >= 2 && Width(s[0]) == 1 && Width(s[1]) == 1
    ensures BreaksOff(s) <==> PairValue(s[0], s[1]).Some? && BreaksOff(s[2..])
  {
    PairLength(s);
    if BreaksOff(s) {
      var k :| 0 <= k < |s| && ReadsTo(s, k) && SplitsCharacter(s, k);
      assert k >= 2 && ReadsTo(s[2..], k - 2) && SplitsCharacter(s[2..], k - 2);
    }
    if PairValue(s[0], s[1]).Some? && BreaksOff(s[2..]) {
      var k :| 0 <= k < |s[2..]| && ReadsTo(s[2..], k) && SplitsCharacter(s[2..], k);
      assert ReadsTo(s, k + 2) && SplitsCharacter(s, k + 2);
    }
  }

  lemma BreaksOffAtStart(s: string)
    requires ByteLength(s) % 2 == 0 && s != [] && SplitsCharacter(s, 0)
    ensures BreaksOff(s)
  {
    assert ReadsTo(s, 0);
  }

  lemma WideFirst(s: string)
    requires s != [] && Width(s[0]) == 2
    ensures !BreaksOff(s)
  {
    forall k | 0 <= k < |s| ensures !(ReadsTo(s, k) && SplitsCharacter(s, k)) {}
  }

  lemma {:induction false} PairsPanic(s: string)
    requires ByteLength(s) % 2 == 0
    ensures Pairs(s).Panics? <==> BreaksOff(s)
  {
    if s != [] && Width(s[0]) == 2 {
      WideFirst(s);
    } else if s != [] && SplitsCharacter(s, 0) {
      BreaksOffAtStart(s);
    } else if s != [] {
      PairLength(s);
      BreaksOffBehindPair(s);
      if PairValue(s[0], s[1]).Some? { PairsPanic(s[2..]); }
    }
  }

  lemma {:induction false} PairsRead(s: string)
    requires ByteLength(s) % 2 == 0
    ensures Pairs(s).Decoded? <==> ReadsTo(s, |s|)
  {
    if s != [] && Width(s[0]) == 1 && Width(s[1]) == 1 {
      PairLength(s);
      PairsRead(s[2..]);
    }
  }

  lemma {:induction false} ReadsEvenly(s: string)
    requires ReadsTo(s, |s|)
    ensures ByteLength(s) % 2 == 0
  {
    if s != [] {
      PairLength(s);
      ReadsEvenly(s[2..]);
    }
  }

  /** For every text: it decodes exactly when all of it is readable pairs, and panics exactly
      when it has an even number of bytes and breaks off inside a character behind readable pairs. */
  lemma DecoderOutcome(s: string)
    ensures FromHex(s).Decoded? <==> ReadsTo(s, |s|)
    ensures FromHex(s).Panics? <==> BreaksOff(s)
  {
    if ByteLength(s) % 2 == 0 {
      PairsPanic(s);
      PairsRead(s);
    } else if ReadsTo(s, |s|) {
      ReadsEvenly(s);
    }
  }

  /** So ASCII text never panics, while a euro sign behind one digit does and an accented letter
      or an unreadable pair before it does not. */
  lemma PanicExamples(s: string)
    ensures Ascii(s) ==> !FromHex(s).Panics?
    ensures FromHex("0\U{20AC}") == Panics && FromHex("\U{E9}") == FromHex("zz0\U{20AC}") == Rejected
  {
    DecoderOutcome(s);
    var euro, accent := "0\U{20AC}", "\U{E9}";
    assert euro[1..] == "\U{20AC}" && "\U{20AC}"[1..] == [] && accent[1..] == [];
    assert ByteLength("\U{20AC}") == 3 && ByteLength(euro) == 4 && ByteLength(accent) == 2;
    assert "zz0\U{20AC}"[1..] == "z0\U{20AC}" && "z0\U{20AC}"[1..] == euro;
    assert ByteLength("z0\U{20AC}") == 5 && ByteLength("zz0\U{20AC}") == 6;
  }
}

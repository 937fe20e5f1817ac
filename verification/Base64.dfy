/** The console's base64 encoder (apps/parent/src/media.rs) against a strict decoder written
    from section 4 of RFC 4648. Both are split where the RFC splits them: bytes to and from
    six-bit digits, digits to and from characters. */
module Base64 {
  import opened Base

  const ALPHABET: string :=
    "ABCDEFGHIJKLMNOP" + "QRSTUVWXYZ" + "abcdefghijklmnop" + "qrstuvwxyz" + "0123456789" + "+/"

  /** A place of a group: six bits, the padding, or no character of the encoding at all. */
  datatype Digit = Six(v: nat) | Pad | Bad

  predicate Proper(d: Digit) {
    d.Pad? || (d.Six? && d.v < 64)
  }

  // ----- Characters: Table 1 of RFC 4648 -----

  function Symbol(v: nat): char
    requires v < 64
  {
    if v < 26 then ('A' as int + v) as char
    else if v < 52 then ('a' as int + v - 26) as char
    else if v < 62 then ('0' as int + v - 52) as char
    else if v == 62 then '+'
    else '/'
  }

  function CharOf(d: Digit): char
    requires Proper(d)
  {
    if d.Pad? then '=' else Symbol(d.v)
  }

  function DigitOf(c: char): Digit {
    if 'A' <= c <= 'Z' then Six(c as int - 'A' as int)
    else if 'a' <= c <= 'z' then Six(c as int - 'a' as int + 26)
    else if '0' <= c <= '9' then Six(c as int - '0' as int + 52)
    else if c == '+' then Six(62)
    else if c == '/' then Six(63)
    else if c == '=' then Pad
    else Bad
  }

  predicate AllProper(ds: seq<Digit>) {
    forall i :: 0 <= i < |ds| ==> Proper(ds[i])
  }

  function Print(ds: seq<Digit>): (s: string)
    requires AllProper(ds)
    ensures |s| == |ds| && forall i :: 0 <= i < |s| ==> s[i] == CharOf(ds[i])
  {
    if ds == [] then [] else [CharOf(ds[0])] + Print(ds[1..])
  }

  function Read(s: string): (ds: seq<Digit>)
    ensures |ds| == |s| && forall i :: 0 <= i < |s| ==> ds[i] == DigitOf(s[i])
  {
    if s == [] then [] else [DigitOf(s[0])] + Read(s[1..])
  }

  lemma DigitOfChar(d: Digit)
    requires Proper(d)
    ensures DigitOf(CharOf(d)) == d
  {
  }

  lemma CharOfDigit(c: char)
    ensures !DigitOf(c).Bad? ==> Proper(DigitOf(c)) && CharOf(DigitOf(c)) == c
  {
  }

  lemma ReadPrint(ds: seq<Digit>)
    requires AllProper(ds)
    ensures Read(Print(ds)) == ds
  {
    forall i | 0 <= i < |ds| ensures Read(Print(ds))[i] == ds[i] {
      DigitOfChar(ds[i]);
    }
  }

  lemma PrintRead(s: string)
    requires forall d :: d in Read(s) ==> !d.Bad?
    ensures AllProper(Read(s)) && Print(Read(s)) == s
  {
    forall i | 0 <= i < |s| ensures Proper(Read(s)[i]) && CharOf(Read(s)[i]) == s[i] {
      assert Read(s)[i] in Read(s);
      CharOfDigit(s[i]);
    }
  }

  // ----- Digits: bits in sixes -----

  /** The group for up to three bytes: their bits in sixes, the last six filled up with zeros,
      and padding for what is missing. */
  function Group(chunk: Bytes): (g: seq<Digit>)
    requires 1 <= |chunk| <= 3
    ensures |g| == 4 && AllProper(g)
  {
    var b0: int := chunk[0];
    if |chunk| == 1 then
      [Six(b0 / 4), Six(b0 % 4 * 16), Pad, Pad]
    else
      var b1: int := chunk[1];
      if |chunk| == 2 then
        [Six(b0 / 4), Six(b0 % 4 * 16 + b1 / 16), Six(b1 % 16 * 4), Pad]
      else
        var b2: int := chunk[2];
        [Six(b0 / 4), Six(b0 % 4 * 16 + b1 / 16), Six(b1 % 16 * 4 + b2 / 64), Six(b2 % 64)]
  }

  function Digits(input: Bytes): (ds: seq<Digit>)
    ensures AllProper(ds)
  {
    if input == [] then []
    else if |input| <= 3 then Group(input)
    else Group(input[..3]) + Digits(input[3..])
  }

  function Encoded(input: Bytes): string {
    Print(Digits(input))
  }

  /** The bytes of one group; padding is allowed in the last group only, and the bits it
      leaves over must be zero. */
  function Ungroup(g: seq<Digit>, last: bool): Option<Bytes>
    requires |g| == 4
  {
    if !Proper(g[0]) || !Proper(g[1]) || !Proper(g[2]) || !Proper(g[3]) || g[0].Pad? || g[1].Pad? then None
    else if g[2].Pad? then
      if last && g[3].Pad? && g[1].v % 16 == 0 then Some([g[0].v * 4 + g[1].v / 16]) else None
    else if g[3].Pad? then
      if last && g[2].v % 4 == 0 then Some([g[0].v * 4 + g[1].v / 16, g[1].v % 16 * 16 + g[2].v / 4]) else None
    else Some([g[0].v * 4 + g[1].v / 16, g[1].v % 16 * 16 + g[2].v / 4, g[2].v % 4 * 64 + g[3].v])
  }

  function Undigits(ds: seq<Digit>): Option<Bytes> {
    if ds == [] then Some([])
    else if |ds| < 4 then None
    else if |ds| == 4 then Ungroup(ds, true)
    else
      var first, rest := Ungroup(ds[..4], false), Undigits(ds[4..]);
      if first.Some? && rest.Some? then Some(first.value + rest.value) else None
  }

  function Decode(s: string): Option<Bytes> {
    Undigits(Read(s))
  }

  // ----- The encoder -----

  /** The encoder's alphabet string is Table 1. */
  lemma AlphabetIsTable(v: nat)
    requires v < 64
    ensures |ALPHABET| == 64 && ALPHABET[v] == Symbol(v)
  {
    if v < 8 {
      assert v in {0, 1, 2, 3, 4, 5, 6, 7};
    } else if v < 16 {
      assert v in {8, 9, 10, 11, 12, 13, 14, 15};
    } else if v < 24 {
      assert v in {16, 17, 18, 19, 20, 21, 22, 23};
    } else if v < 32 {
      assert v in {24, 25, 26, 27, 28, 29, 30, 31};
    } else if v < 40 {
      assert v in {32, 33, 34, 35, 36, 37, 38, 39};
    } else if v < 48 {
      assert v in {40, 41, 42, 43, 44, 45, 46, 47};
    } else if v < 56 {
      assert v in {48, 49, 50, 51, 52, 53, 54, 55};
    } else {
      assert v in {56, 57, 58, 59, 60, 61, 62, 63};
    }
  }

  function Lookup(v: nat): (c: char)
    requires v < 64
    ensures c == CharOf(Six(v))
  {
    AlphabetIsTable(v);
    ALPHABET[v]
  }

  /** The four six-bit digits of a 24-bit number, from the parts of its three bytes. */
  lemma Sextets(n: int, h0: int, l0: int, h1: int, l1: int, h2: int, l2: int)
    requires 0 <= h0 < 64 && 0 <= l0 < 4 && 0 <= h1 < 16 && 0 <= l1 < 16 && 0 <= h2 < 4 && 0 <= l2 < 64
    requires n == (h0 * 4 + l0) * 65_536 + (h1 * 16 + l1) * 256 + (h2 * 64 + l2)
    ensures n / 262_144 % 64 == h0 && n / 4_096 % 64 == l0 * 16 + h1
    ensures n / 64 % 64 == l1 * 4 + h2 && n % 64 == l2
  {
    SextetOf(n, h0 * 4_096 + (l0 * 16 + h1) * 64 + (l1 * 4 + h2), l2);
    SextetOf(n / 64, h0 * 64 + (l0 * 16 + h1), l1 * 4 + h2);
    SextetOf(n / 4_096, h0, l0 * 16 + h1);
  }

  lemma SextetOf(n: int, q: int, r: int)
    requires 0 <= q && 0 <= r < 64 && n == q * 64 + r
    ensures n / 64 == q && n % 64 == r
  {
  }

  /** One chunk, by the shifts and masks of the code as quotients and remainders. */
  method PushChunk(chunk: Bytes) returns (out: string)
    requires 1 <= |chunk| <= 3
    ensures out == Print(Group(chunk))
  {
    var b0: int := chunk[0];
    var b1: int := if |chunk| > 1 then chunk[1] else 0;
    var b2: int := if |chunk| > 2 then chunk[2] else 0;
    var n := b0 * 65_536 + b1 * 256 + b2;
    Sextets(n, b0 / 4, b0 % 4, b1 / 16, b1 % 16, b2 / 64, b2 % 64);
    var s0, s1 := Lookup(n / 262_144 % 64), Lookup(n / 4_096 % 64);
    var s2 := if |chunk| > 1 then Lookup(n / 64 % 64) else '=';
    var s3 := if |chunk| > 2 then Lookup(n % 64) else '=';
    out := [s0, s1, s2, s3];
  }

  lemma DigitsFrom(input: Bytes, i: nat, j: nat, out: string, group: string)
    requires i < |input| && j == Min(i + 3, |input|) && group == Print(Group(input[i..j]))
    ensures (out + group) + Encoded(input[j..]) == out + Encoded(input[i..])
  {
    assert input[i..][..j - i] == input[i..j] && input[i..][j - i..] == input[j..];
    if j == |input| { assert input[i..] == input[i..j] && Group(input[i..j]) + [] == Group(input[i..j]); }
    assert Digits(input[i..]) == Group(input[i..j]) + Digits(input[j..]);
  }

  method Encode(input: Bytes) returns (out: string)
    ensures out == Encoded(input)
  {
    out := [];
    var i := 0;
    while i < |input|
      invariant i <= |input|
      invariant out + Encoded(input[i..]) == Encoded(input)
    {
      var j := if i + 3 <= |input| then i + 3 else |input|;
      var group := PushChunk(input[i..j]);
      DigitsFrom(input, i, j, out, group);
      out := out + group;
      i := j;
    }
  }

  // ----- Round trip, length, and uniqueness -----

  /** A chunk comes back from its group; only a short chunk needs to stand last. */
  lemma GroupRoundTrip(chunk: Bytes, last: bool)
    requires 1 <= |chunk| <= 3 && (|chunk| < 3 ==> last)
    ensures Ungroup(Group(chunk), last) == Some(chunk)
  {
    var b0: int := chunk[0];
    var b1: int := if |chunk| > 1 then chunk[1] else 0;
    var b2: int := if |chunk| > 2 then chunk[2] else 0;
    BytesOfSextets(b0, b1, b2);
    assert chunk == if |chunk| == 1 then [b0] else if |chunk| == 2 then [b0, b1] else [b0, b1, b2];
  }

  lemma BytesOfSextets(b0: int, b1: int, b2: int)
    requires 0 <= b0 < 256 && 0 <= b1 < 256 && 0 <= b2 < 256
    ensures var s0, s1, s2, s3 := b0 / 4, b0 % 4 * 16 + b1 / 16, b1 % 16 * 4 + b2 / 64, b2 % 64;
            && s0 * 4 + s1 / 16 == b0 && s1 % 16 * 16 + s2 / 4 == b1 && s2 % 4 * 64 + s3 == b2
  {
    var h1 := b1 / 16;
    assert (b0 % 4 * 16 + h1) / 16 == b0 % 4 && (b0 % 4 * 16 + h1) % 16 == h1;
    var h2 := b2 / 64;
    assert (b1 % 16 * 4 + h2) / 4 == b1 % 16 && (b1 % 16 * 4 + h2) % 4 == h2;
  }

  /** One group in front of more digits. */
  lemma UndigitsStep(g: seq<Digit>, rest: seq<Digit>)
    requires |g| == 4 && rest != []
    ensures Undigits(g + rest)
         == var first, more := Ungroup(g, false), Undigits(rest);
            if first.Some? && more.Some? then Some(first.value + more.value) else None
  {
    assert (g + rest)[..4] == g && (g + rest)[4..] == rest;
  }

  lemma {:induction false} DigitsRoundTrip(input: Bytes)
    ensures Undigits(Digits(input)) == Some(input)
  {
    if |input| > 3 {
      DigitsRoundTrip(input[3..]);
      GroupRoundTrip(input[..3], false);
      UndigitsStep(Group(input[..3]), Digits(input[3..]));
      assert input[..3] + input[3..] == input;
    } else if input != [] {
      GroupRoundTrip(input, true);
    }
  }

  /** Decoding inverts encoding for every byte sequence. */
  lemma Base64RoundTrip(input: Bytes)
    ensures Decode(Encoded(input)) == Some(input)
  {
    DigitsRoundTrip(input);
    ReadPrint(Digits(input));
  }

  /** Four characters for every three bytes begun. */
  lemma {:induction false} EncodedLength(input: Bytes)
    ensures |Encoded(input)| == (|input| + 2) / 3 * 4
  {
    if |input| > 3 { EncodedLength(input[3..]); }
  }

  /** Sextets are those of the bytes they make. */
  lemma SextetsOfBytes(s0: nat, s1: nat, s2: nat, s3: nat)
    requires s0 < 64 && s1 < 64 && s2 < 64 && s3 < 64
    ensures var b0, b1, b2 := s0 * 4 + s1 / 16, s1 % 16 * 16 + s2 / 4, s2 % 4 * 64 + s3;
            && b0 < 256 && b1 < 256 && b2 < 256
            && b0 / 4 == s0 && b0 % 4 * 16 + b1 / 16 == s1 && b1 % 16 * 4 + b2 / 64 == s2 && b2 % 64 == s3
            && b0 % 4 == s1 / 16 && b1 % 16 == s2 / 4
  {
  }

  /** A group that decodes is the group of what it decodes to. */
  lemma GroupUnique(g: seq<Digit>, last: bool)
    requires |g| == 4 && Ungroup(g, last).Some?
    ensures var d := Ungroup(g, last).value;
            1 <= |d| <= 3 && (|d| < 3 ==> last) && Group(d) == g
  {
    var s2 := if g[2].Pad? then 0 else g[2].v;
    var s3 := if g[3].Pad? then 0 else g[3].v;
    SextetsOfBytes(g[0].v, g[1].v, s2, s3);
  }

  lemma {:induction false} DigitsUnique(ds: seq<Digit>)
    requires Undigits(ds).Some?
    ensures ds == Digits(Undigits(ds).value)
  {
    if |ds| == 4 {
      GroupUnique(ds, true);
    } else if ds != [] {
      var g, t := ds[..4], ds[4..];
      GroupUnique(g, false);
      DigitsUnique(t);
      var first, rest := Ungroup(g, false).value, Undigits(t).value;
      assert ds == g + t;
      assert (first + rest)[..3] == first && (first + rest)[3..] == rest && rest != [];
    }
  }

  /** Nothing else decodes: the strict decoder accepts exactly what the encoder produces. */
  lemma DecodesOnlyEncodings(s: string, input: Bytes)
    ensures Decode(s) == Some(input) <==> s == Encoded(input)
  {
    Base64RoundTrip(input);
    if Decode(s) == Some(input) {
      DigitsUnique(Read(s));
      PrintRead(s);
    }
  }
}

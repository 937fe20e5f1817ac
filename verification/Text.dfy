/** The Rust string operations the components share, on sequences of Unicode scalar values. */
module Text {
  import opened Base

  /** Unicode `White_Space`, as `str::trim` uses it. */
  predicate IsWhitespace(c: char) {
    || '\U{9}' <= c <= '\U{D}' || c == ' ' || c == '\U{85}' || c == '\U{A0}' || c == '\U{1680}'
    || '\U{2000}' <= c <= '\U{200A}' || c == '\U{2028}' || c == '\U{2029}' || c == '\U{202F}'
    || c == '\U{205F}' || c == '\U{3000}'
  }

  function TrimStart(s: string): string {
    if s != [] && IsWhitespace(s[0]) then TrimStart(s[1..]) else s
  }

  function TrimEnd(s: string): string {
    if s != [] && IsWhitespace(s[|s| - 1]) then TrimEnd(s[..|s| - 1]) else s
  }

  function Trim(s: string): string {
    TrimEnd(TrimStart(s))
  }

  /** Neither end is white space. */
  predicate Trimmed(s: string) {
    s == [] || (!IsWhitespace(s[0]) && !IsWhitespace(s[|s| - 1]))
  }

  lemma {:induction false} TrimStartShape(s: string)
    ensures TrimStart(s) == [] || !IsWhitespace(TrimStart(s)[0])
  {
    if s != [] && IsWhitespace(s[0]) { TrimStartShape(s[1..]); }
  }

  lemma {:induction false} TrimEndShape(s: string)
    ensures TrimEnd(s) <= s && (TrimEnd(s) == [] || !IsWhitespace(Last(TrimEnd(s))))
  {
    if s != [] && IsWhitespace(s[|s| - 1]) { TrimEndShape(s[..|s| - 1]); }
  }

  /** `trim` leaves no white space at either end, and nothing more to trim. */
  lemma TrimShape(s: string)
    ensures Trimmed(Trim(s)) && Trim(Trim(s)) == Trim(s)
  {
    TrimStartShape(s);
    TrimEndShape(TrimStart(s));
  }

  lemma TrimmedIsKept(s: string)
    requires Trimmed(s)
    ensures Trim(s) == s
  {
  }

  function LowerChar(c: char): char {
    if 'A' <= c <= 'Z' then c + 32 as char else c
  }

  /** `to_ascii_lowercase`. */
  function Lower(s: string): string {
    if s == [] then [] else [LowerChar(s[0])] + Lower(s[1..])
  }

  /** The letters it changes are the 26 ASCII capitals, codes 65 to 90, and each goes up by 32. */
  lemma {:induction false} LowerLetters(s: string)
    ensures |Lower(s)| == |s|
    ensures forall i :: 0 <= i < |s| ==>
              Lower(s)[i] as int == if 65 <= s[i] as int <= 90 then s[i] as int + 32 else s[i] as int
  {
    if s != [] { LowerLetters(s[1..]); }
  }

  /** `s.split(c).next()`: everything before the first `c`. */
  function Before(s: string, c: char): string {
    if s == [] || s[0] == c then [] else [s[0]] + Before(s[1..], c)
  }

  lemma {:induction false} BeforeFits(s: string, c: char)
    ensures Before(s, c) <= s && |Before(s, c)| <= |s| && c !in Before(s, c)
    ensures |Before(s, c)| < |s| ==> s[|Before(s, c)|] == c
  {
    if s != [] && s[0] != c { BeforeFits(s[1..], c); }
  }

  /** Only what stands in front of a `c` matters. */
  lemma {:induction false} BeforeConcat(p: string, s: string, c: char)
    ensures Before(p + [c] + s, c) == Before(p, c)
  {
    if p == [] {
      assert (p + [c] + s)[0] == c;
    } else if p[0] != c {
      BeforeConcat(p[1..], s, c);
      assert (p + [c] + s)[1..] == p[1..] + [c] + s;
    }
  }

  lemma {:induction false} BeforeAbsent(s: string, c: char)
    requires c !in s
    ensures Before(s, c) == s
  {
    if s != [] { BeforeAbsent(s[1..], c); }
  }

  function Count(s: string, c: char): nat {
    if s == [] then 0 else Count(s[1..], c) + if s[0] == c then 1 else 0
  }

  function TrimEndMatches(s: string, c: char): string {
    if s != [] && s[|s| - 1] == c then TrimEndMatches(s[..|s| - 1], c) else s
  }

  /** The pieces between line feeds; a last empty piece does not count, and a carriage return
      goes with the line feed after it. */
  function Lines(s: string): seq<string> {
    if s == [] then []
    else
      var line := Before(s, '\n');
      BeforeFits(s, '\n');
      if |line| == |s| then [line]
      else [if line != [] && Last(line) == '\r' then Front(line) else line] + Lines(s[|line| + 1..])
  }

  // ----- UTF-8 -----

  /** How many bytes a character takes. */
  function Width(c: char): nat {
    if c < '\U{80}' then 1 else if c < '\U{800}' then 2 else if c < '\U{10000}' then 3 else 4
  }

  function ByteLength(s: string): nat {
    if s == [] then 0 else Width(s[0]) + ByteLength(s[1..])
  }

  function Utf8(c: char): (bytes: Bytes)
    ensures |bytes| == Width(c)
  {
    var v := c as int;
    if v < 0x80 then [v]
    else if v < 0x800 then [0xC0 + v / 64, 0x80 + v % 64]
    else if v < 0x1_0000 then [0xE0 + v / 4096, 0x80 + v / 64 % 64, 0x80 + v % 64]
    else [0xF0 + v / 262_144, 0x80 + v / 4096 % 64, 0x80 + v / 64 % 64, 0x80 + v % 64]
  }

  function AsBytes(s: string): (bytes: Bytes)
    ensures |bytes| == ByteLength(s)
  {
    if s == [] then [] else Utf8(s[0]) + AsBytes(s[1..])
  }
}

/** The app lock's PIN record (apps/parent/src/lock.rs): one line of version, iterations, salt
    and hash, and the parser that decides whether a PIN is set. */
module PinRecord {
  import opened Base
  import opened Text
  import Decimal
  import Hex

  const RECORD_VERSION := "pbkdf2-sha256-v1"
  const SALT_LEN := 16
  const HASH_LEN := 32

  datatype Record = Record(iters: u32, salt: Bytes, hash: Bytes)

  datatype Outcome = Parsed(rec: Record) | NoRecord | Panics

  /** What a record that verifies PINs must be. */
  predicate Usable(r: Record) {
    r.iters != 0 && |r.salt| == SALT_LEN && |r.hash| == HASH_LEN
  }

  /** The line `set_pin` writes, for any iteration count. */
  function Line(r: Record): string {
    RECORD_VERSION + ":" + (Decimal.Of(r.iters) + ":" + (Hex.Encoded(r.salt) + ":" + Hex.Encoded(r.hash)))
  }

  /** `splitn(n, c)`. */
  function SplitN(s: string, n: nat, c: char): (parts: seq<string>)
    requires n > 0
    ensures 1 <= |parts| <= n
    decreases n
  {
    var p := Before(s, c);
    BeforeFits(s, c);
    if n == 1 || p == s then [s] else [p] + SplitN(s[|p| + 1..], n - 1, c)
  }

  /** `parse::<u32>`: digits after at most one plus sign, and no more than 32 bits. */
  function ParseU32(s: string): Option<u32> {
    var digits := if s != [] && s[0] == '+' then s[1..] else s;
    if digits != [] && Decimal.AllDigits(digits) && Decimal.Value(digits) < U32_RANGE then
      Some(Decimal.Value(digits))
    else
      None
  }

  function ParseRecord(raw: string): Outcome {
    ParseParts(SplitN(Trim(raw), 4, ':'))
  }

  /** The checks in the order of the code, each before the next part is asked for. */
  function ParseParts(parts: seq<string>): Outcome
    requires 1 <= |parts|
  {
    if parts[0] != RECORD_VERSION || |parts| < 2 then NoRecord
    else
      var iters := ParseU32(parts[1]);
      if iters.None? || |parts| < 3 then NoRecord
      else
        var salt := Hex.FromHex(parts[2]);
        if salt.Panics? then Panics
        else if salt.Rejected? || |parts| < 4 then NoRecord
        else
          var hash := Hex.FromHex(parts[3]);
          if hash.Panics? then Panics
          else if hash.Rejected? then NoRecord
          else
            var r := Record(iters.value, salt.bytes, hash.bytes);
            if Usable(r) then Parsed(r) else NoRecord
  }

  /** A record whose version and iterations read, and whose salt, or hash behind a readable salt,
      breaks off inside a character. */
  predicate PanicsOn(parts: seq<string>) {
    && |parts| >= 3 && parts[0] == RECORD_VERSION && ParseU32(parts[1]).Some?
    && (Hex.BreaksOff(parts[2]) || (Hex.ReadsTo(parts[2], |parts[2]|) && |parts| == 4 && Hex.BreaksOff(parts[3])))
  }

  /** Reading a lock file panics exactly for such a record; every other file is parsed or is no
      record. */
  lemma ParsePanics(raw: string)
    ensures ParseRecord(raw).Panics? <==> PanicsOn(SplitN(Trim(raw), 4, ':'))
  {
    PartsPanic(SplitN(Trim(raw), 4, ':'));
  }

  lemma PartsPanic(parts: seq<string>)
    requires 1 <= |parts| <= 4
    ensures ParseParts(parts).Panics? <==> PanicsOn(parts)
  {
    if |parts| >= 3 { Hex.DecoderOutcome(parts[2]); }
    if |parts| == 4 { Hex.DecoderOutcome(parts[3]); }
  }

  // ----- Splitting -----

  lemma SplitFirst(p: string, rest: string, n: nat, c: char)
    requires c !in p && n > 1
    ensures SplitN(p + [c] + rest, n, c) == [p] + SplitN(rest, n - 1, c)
  {
    BeforeConcat(p, rest, c);
    BeforeAbsent(p, c);
    assert (p + [c] + rest)[|p| + 1..] == rest;
  }

  lemma {:induction false} CountPrefix(p: string, c: char, rest: string)
    requires c !in p
    ensures Count(p + [c] + rest, c) == 1 + Count(rest, c)
  {
    var s := p + [c] + rest;
    if p != [] {
      assert s[1..] == p[1..] + [c] + rest;
      CountPrefix(p[1..], c, rest);
    } else {
      assert s[1..] == rest;
    }
  }

  /** Every separator used is there. */
  lemma {:induction false} SplitCount(s: string, n: nat, c: char)
    requires n > 0
    ensures |SplitN(s, n, c)| <= Count(s, c) + 1
    decreases n
  {
    var p := Before(s, c);
    BeforeFits(s, c);
    if n > 1 && p != s {
      assert s == p + [c] + s[|p| + 1..];
      CountPrefix(p, c, s[|p| + 1..]);
      SplitCount(s[|p| + 1..], n - 1, c);
    }
  }

  // ----- The record line -----

  /** Characters a record line is made of: none is white space. */
  predicate Plain(s: string) {
    forall i :: 0 <= i < |s| ==> '+' <= s[i] <= 'z'
  }

  lemma LinePlain(r: Record)
    ensures Plain(Line(r))
  {
    Decimal.OfRoundTrip(r.iters);
    assert Plain(RECORD_VERSION) && Plain(Decimal.Of(r.iters));
    assert Plain(Hex.Encoded(r.salt)) && Plain(Hex.Encoded(r.hash));
  }

  lemma PlainIsTrimmed(s: string)
    requires Plain(s)
    ensures Trim(s) == s
  {
    TrimmedIsKept(s);
  }

  lemma FourParts(p0: string, p1: string, p2: string, p3: string)
    requires ':' !in p0 && ':' !in p1 && ':' !in p2
    ensures SplitN(p0 + ":" + (p1 + ":" + (p2 + ":" + p3)), 4, ':') == [p0, p1, p2, p3]
  {
    SplitFirst(p0, p1 + ":" + (p2 + ":" + p3), 4, ':');
    SplitFirst(p1, p2 + ":" + p3, 3, ':');
    SplitFirst(p2, p3, 2, ':');
  }

  /** The parts of a line, whatever stands where the hash should. */
  lemma LineParts(r: Record, tail: string)
    ensures SplitN(RECORD_VERSION + ":" + (Decimal.Of(r.iters) + ":" + (Hex.Encoded(r.salt) + ":" + tail)), 4, ':')
         == [RECORD_VERSION, Decimal.Of(r.iters), Hex.Encoded(r.salt), tail]
  {
    Decimal.OfRoundTrip(r.iters);
    FourParts(RECORD_VERSION, Decimal.Of(r.iters), Hex.Encoded(r.salt), tail);
  }

  lemma ItersRoundTrip(iters: u32)
    ensures ParseU32(Decimal.Of(iters)) == Some(iters)
  {
    Decimal.OfRoundTrip(iters);
    assert Decimal.IsDigit(Decimal.Of(iters)[0]);
  }

  /** Parsing recovers iterations, salt and hash from every line written. */
  lemma RecordRoundTrip(r: Record)
    requires Usable(r)
    ensures ParseRecord(Line(r)) == Parsed(r)
  {
    LinePlain(r);
    PlainIsTrimmed(Line(r));
    LineParts(r, Hex.Encoded(r.hash));
    PartsRoundTrip(r, [RECORD_VERSION, Decimal.Of(r.iters), Hex.Encoded(r.salt), Hex.Encoded(r.hash)]);
  }

  lemma PartsRoundTrip(r: Record, parts: seq<string>)
    requires Usable(r) && |parts| == 4 && parts[0] == RECORD_VERSION
    requires parts[1] == Decimal.Of(r.iters) && parts[2] == Hex.Encoded(r.salt) && parts[3] == Hex.Encoded(r.hash)
    ensures ParseParts(parts) == Parsed(r)
  {
    ItersRoundTrip(r.iters);
    Hex.HexRoundTrip(r.salt);
    Hex.HexRoundTrip(r.hash);
  }

  /** Whatever parses has the lengths a verification needs, and would survive being rewritten. */
  lemma ParsedIsUsable(raw: string)
    requires ParseRecord(raw).Parsed?
    ensures var r := ParseRecord(raw).rec; Usable(r) && ParseRecord(Line(r)) == Parsed(r)
  {
    RecordRoundTrip(ParseRecord(raw).rec);
  }

  lemma CountColons(r: Record)
    ensures Count(Line(r), ':') == 3
    ensures Count(Head(r), ':') == 2
  {
    Decimal.OfRoundTrip(r.iters);
    NoColons(Hex.Encoded(r.salt));
    NoColons(Hex.Encoded(r.hash));
    var rest2 := Hex.Encoded(r.salt) + ":" + Hex.Encoded(r.hash);
    CountPrefix(Hex.Encoded(r.salt), ':', Hex.Encoded(r.hash));
    CountPrefix(Decimal.Of(r.iters), ':', rest2);
    CountPrefix(RECORD_VERSION, ':', Decimal.Of(r.iters) + ":" + rest2);
    CountPrefix(Decimal.Of(r.iters), ':', Hex.Encoded(r.salt));
    CountPrefix(RECORD_VERSION, ':', Decimal.Of(r.iters) + ":" + Hex.Encoded(r.salt));
  }

  lemma {:induction false} NoColons(s: string)
    requires ':' !in s
    ensures Count(s, ':') == 0
  {
    if s != [] { NoColons(s[1..]); }
  }

  lemma {:induction false} CountOfPrefix(s: string, k: nat, c: char)
    requires k <= |s|
    ensures Count(s[..k], c) <= Count(s, c)
  {
    if k > 0 {
      assert s[..k][1..] == s[1..][..k - 1];
      CountOfPrefix(s[1..], k - 1, c);
    }
  }

  /** Everything before the last colon of a line. */
  function Head(r: Record): string {
    RECORD_VERSION + ":" + (Decimal.Of(r.iters) + ":" + Hex.Encoded(r.salt))
  }

  lemma TornInHead(r: Record, k: nat, text: string)
    requires k <= |Head(r)| && text == Head(r)[..k] && Trim(text) == text
    ensures !ParseRecord(text).Parsed?
  {
    CountColons(r);
    CountOfPrefix(Head(r), k, ':');
    SplitCount(text, 4, ':');
  }

  lemma TornInHash(r: Record, tail: string, text: string)
    requires |tail| < 2 * HASH_LEN && Trim(text) == text
    requires text == RECORD_VERSION + ":" + (Decimal.Of(r.iters) + ":" + (Hex.Encoded(r.salt) + ":" + tail))
    ensures !ParseRecord(text).Parsed?
  {
    LineParts(r, tail);
    if Hex.FromHex(tail).Decoded? { Hex.DecodedLength(tail); }
  }

  lemma LineSplits(r: Record, k: nat)
    requires k < |Line(r)|
    ensures k <= |Head(r)| ==> Line(r)[..k] == Head(r)[..k]
    ensures k > |Head(r)| ==> var tail := Hex.Encoded(r.hash)[..k - |Head(r)| - 1];
            Line(r)[..k] == RECORD_VERSION + ":" + (Decimal.Of(r.iters) + ":" + (Hex.Encoded(r.salt) + ":" + tail))
  {
    assert Line(r) == Head(r) + ":" + Hex.Encoded(r.hash);
  }

  /** A record cut short anywhere, as by an interrupted write, is no record. */
  lemma TornRecordIsNoRecord(r: Record, k: nat)
    requires Usable(r) && k < |Line(r)|
    ensures !ParseRecord(Line(r)[..k]).Parsed?
  {
    LinePlain(r);
    PlainIsTrimmed(Line(r)[..k]);
    LineSplits(r, k);
    if k <= |Head(r)| {
      TornInHead(r, k, Line(r)[..k]);
    } else {
      TornInHash(r, Hex.Encoded(r.hash)[..k - |Head(r)| - 1], Line(r)[..k]);
    }
  }

  // ----- The lock -----

  const PBKDF2_ITERS: u32 := 100_000

  datatype PinError = NotDigits | WrongLength | NoSalt | NotSaved

  function PinShape(pin: string): Option<PinError> {
    if !Decimal.AllDigits(pin) then Some(NotDigits)
    else if !(4 <= |pin| <= 6) then Some(WrongLength)
    else None
  }

  /** The key derivation of PIN, salt and iterations, taken as a parameter. */
  type Derivation = (string, Bytes, u32) -> Bytes

  /** It always fills the 32-byte output buffer. */
  ghost predicate FillsHash(derive: Derivation) {
    forall pin: string, salt: Bytes, iters: u32 :: |derive(pin, salt, iters)| == HASH_LEN
  }

  /** Whether this PIN verifies against the record; a missing or malformed one verifies none. */
  predicate Unlocks(derive: Derivation, file: Option<string>, pin: string) {
    && file.Some?
    && var outcome := ParseRecord(file.value);
       outcome.Parsed? && derive(pin, outcome.rec.salt, outcome.rec.iters) == outcome.rec.hash
  }

  /** How writing the record file goes: in full, not at all, or broken off after `kept` characters. */
  datatype Write = Written | NotOpened | Torn(kept: nat)

  /** The line a new PIN is recorded as. */
  function NewLine(derive: Derivation, pin: string, salt: Bytes): string {
    Line(Record(PBKDF2_ITERS, salt, derive(pin, salt, PBKDF2_ITERS)))
  }

  lemma HundredThousand()
    ensures Decimal.Of(100_000) == "100000"
  {
    assert Decimal.Of(1) == "1" && Decimal.Of(10) == "10" && Decimal.Of(100) == "100" && Decimal.Of(1000) == "1000";
    assert Decimal.Of(10_000) == "10000";
  }

  /** The record in full. */
  lemma NewLineIs(derive: Derivation, pin: string, salt: Bytes)
    requires FillsHash(derive)
    ensures NewLine(derive, pin, salt)
         == "pbkdf2-sha256-v1:100000:" + Hex.Encoded(salt) + ":" + Hex.Encoded(derive(pin, salt, 100_000))
  {
    HundredThousand();
  }

  class PinLock {
    const derive: Derivation
    /** The contents of the record file, if there is one. */
    var file: Option<string>

    constructor (derive: Derivation, file: Option<string>)
      ensures this.derive == derive && this.file == file
    {
      this.derive, this.file := derive, file;
    }

    /** The random generator and the file system may fail; `salt` is what the generator drew. A
        write that fails half-way leaves the beginning of the new line, which unlocks nothing. */
    method SetPin(pin: string, salt: Option<Bytes>, write: Write) returns (r: Result<(), PinError>)
      requires salt.Some? ==> |salt.value| == SALT_LEN
      requires FillsHash(derive)
      requires write.Torn? && salt.Some? ==> write.kept < |NewLine(derive, pin, salt.value)|
      modifies this
      ensures r.Ok? <==> (forall i :: 0 <= i < |pin| ==> '0' <= pin[i] <= '9') && 4 <= |pin| <= 6
                         && salt.Some? && write.Written?
      ensures r == Err(NotDigits) <==> !(forall i :: 0 <= i < |pin| ==> '0' <= pin[i] <= '9')
      ensures r.Ok? ==> file == Some("pbkdf2-sha256-v1:100000:" + Hex.Encoded(salt.value) + ":"
                                     + Hex.Encoded(derive(pin, salt.value, 100_000)))
      ensures PinShape(pin).Some? || salt.None? || write.NotOpened? ==> file == old(file)
      ensures PinShape(pin).None? && salt.Some? && write.Torn? ==>
                && file == Some(NewLine(derive, pin, salt.value)[..write.kept])
                && forall other :: !Unlocks(derive, file, other)
      ensures r.Ok? ==> forall other ::
                Unlocks(derive, file, other)
                <==> derive(other, salt.value, PBKDF2_ITERS) == derive(pin, salt.value, PBKDF2_ITERS)
    {
      var bad := PinShape(pin);
      if bad.Some? { return Err(bad.value); }
      if salt.None? { return Err(NoSalt); }
      var hash := derive(pin, salt.value, PBKDF2_ITERS);
      var iters := Decimal.Of(PBKDF2_ITERS);
      var saltHex := Hex.ToHex(salt.value);
      var hashHex := Hex.ToHex(hash);
      var line := RECORD_VERSION + ":" + (iters + ":" + (saltHex + ":" + hashHex));
      if write.NotOpened? { return Err(NotSaved); }
      if write.Torn? {
        TornRecordIsNoRecord(Record(PBKDF2_ITERS, salt.value, hash), write.kept);
        file := Some(line[..write.kept]);
        return Err(NotSaved);
      }
      file := Some(line);
      NewLineIs(derive, pin, salt.value);
      RecordRoundTrip(Record(PBKDF2_ITERS, salt.value, hash));
      r := Ok(());
    }

    /** Removing a record that is not there succeeds; a removal that fails leaves the record. */
    method ClearPin(fails: bool) returns (ok: bool)
      modifies this
      ensures ok == !fails
      ensures !ok ==> file == old(file)
      ensures ok ==> file.None? && forall pin :: !Unlocks(derive, file, pin)
    {
      if fails { return false; }
      file := None;
      ok := true;
    }
  }

  // ----- Which PINs unlock after one was set -----

  predicate WellShaped(pin: string) {
    PinShape(pin).None?
  }

  predicate SameHash(derive: Derivation, salt: Bytes, p: string, q: string) {
    derive(p, salt, PBKDF2_ITERS) == derive(q, salt, PBKDF2_ITERS)
  }

  /** Whether `other` unlocks when `pin` was set. */
  predicate UnlocksAfter(derive: Derivation, salt: Bytes, pin: string, other: string) {
    Unlocks(derive, Some(NewLine(derive, pin, salt)), other)
  }

  lemma UnlocksIfSameHash(derive: Derivation, salt: Bytes, pin: string, other: string)
    requires |salt| == SALT_LEN && FillsHash(derive)
    ensures UnlocksAfter(derive, salt, pin, other) <==> SameHash(derive, salt, other, pin)
  {
    RecordRoundTrip(Record(PBKDF2_ITERS, salt, derive(pin, salt, PBKDF2_ITERS)));
  }

  /** Of the PINs a guardian can set, no two have one hash. */
  ghost predicate KeepsPinsApart(derive: Derivation, salt: Bytes) {
    forall p, q :: WellShaped(p) && WellShaped(q) && SameHash(derive, salt, p, q) ==> p == q
  }

  /** Whichever PIN is set, of all PINs that can be set only it unlocks. */
  ghost predicate OnlyItUnlocks(derive: Derivation, salt: Bytes) {
    forall pin, other :: WellShaped(pin) && WellShaped(other) && UnlocksAfter(derive, salt, pin, other) ==> other == pin
  }

  /** The PIN that was set unlocks, and it is the only one exactly with a derivation that keeps the
      PINs of four to six digits apart. */
  lemma OnlyThePinSet(derive: Derivation, salt: Bytes)
    requires |salt| == SALT_LEN && FillsHash(derive)
    ensures forall pin :: UnlocksAfter(derive, salt, pin, pin)
    ensures OnlyItUnlocks(derive, salt) <==> KeepsPinsApart(derive, salt)
  {
    forall pin, other ensures UnlocksAfter(derive, salt, pin, other) <==> SameHash(derive, salt, other, pin) {
      UnlocksIfSameHash(derive, salt, pin, other);
    }
  }

  /** Of all texts whatever, which verification does not check for their shape, one PIN alone
      unlocks exactly if no other text has its hash. */
  lemma OnlyThisText(derive: Derivation, salt: Bytes, pin: string)
    requires |salt| == SALT_LEN && FillsHash(derive)
    ensures (forall other :: UnlocksAfter(derive, salt, pin, other) <==> other == pin)
       <==> (forall other :: SameHash(derive, salt, other, pin) ==> other == pin)
  {
    forall other ensures UnlocksAfter(derive, salt, pin, other) <==> SameHash(derive, salt, other, pin) {
      UnlocksIfSameHash(derive, salt, pin, other);
    }
  }

  /** The digits themselves, filled up with zeros. */
  function PaddedDigit(pin: string, i: int): byte {
    if 0 <= i < |pin| && pin[i] < '\U{100}' then pin[i] as int else 0
  }

  const Padding: Derivation := (pin: string, salt: Bytes, iters: u32) => seq(HASH_LEN, (i: int) => PaddedDigit(pin, i))

  /** Derivations that keep PINs apart exist. */
  lemma PaddingKeepsApart(salt: Bytes)
    ensures FillsHash(Padding) && KeepsPinsApart(Padding, salt)
  {
    forall p, q | WellShaped(p) && WellShaped(q) && SameHash(Padding, salt, p, q) ensures p == q {
      forall i | 0 <= i < 6 ensures PaddedDigit(p, i) == PaddedDigit(q, i) {
        assert Padding(p, salt, PBKDF2_ITERS)[i] == Padding(q, salt, PBKDF2_ITERS)[i];
      }
      SamePadding(p, q);
    }
  }

  lemma PaddedOnlyBehind(pin: string, i: nat)
    requires WellShaped(pin)
    ensures PaddedDigit(pin, i) == 0 <==> i >= |pin|
  {
    if i < |pin| { assert Decimal.IsDigit(pin[i]); }
  }

  lemma SamePadding(p: string, q: string)
    requires WellShaped(p) && WellShaped(q)
    requires forall i :: 0 <= i < 6 ==> PaddedDigit(p, i) == PaddedDigit(q, i)
    ensures p == q
  {
    PaddedOnlyBehind(p, |q|);
    PaddedOnlyBehind(q, |p|);
    forall i | 0 <= i < Min(|p|, |q|) ensures p[i] == q[i] {
      assert Decimal.IsDigit(p[i]) && Decimal.IsDigit(q[i]);
      assert PaddedDigit(p, i) == PaddedDigit(q, i);
    }
  }
}

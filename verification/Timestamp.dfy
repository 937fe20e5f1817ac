/** The timestamp line of an alert e-mail (crates/bulwark-alert/src/render.rs), against a reader
    of the RFC 3339 fields it prints. */
module Timestamp {
  import opened Base
  import opened Calendar
  import Decimal

  const UNKNOWN_TIME := "(unknown time)"

  /** `format_ts`: UTC to the second; milliseconds are cut off, and a time not after the epoch is
      not shown. */
  function FormatTs(tsMillis: int): string {
    if tsMillis <= 0 then UNKNOWN_TIME else
      var c := CivilFromUnix(tsMillis / 1000);
      RenderedDate(tsMillis / 1000);
      Line(c.year, c.month, c.day, c.hour, c.minute, c.second)
  }

  function Line(year: nat, month: nat, day: nat, hour: nat, minute: nat, second: nat): string {
    Decimal.Padded(year, 4) + Tail(Decimal.Padded(month, 2), Decimal.Padded(day, 2), Decimal.Padded(hour, 2),
                                   Decimal.Padded(minute, 2), Decimal.Padded(second, 2))
  }

  function Tail(month: string, day: string, hour: string, minute: string, second: string): string {
    "-" + (month + ("-" + (day + ("T" + Clock(hour, minute, second)))))
  }

  function Clock(hour: string, minute: string, second: string): string {
    hour + (":" + (minute + (":" + (second + "Z"))))
  }

  lemma YearFromEpoch(c: Civil)
    requires ValidCivil(c) && UnixFromCivil(c) >= 0
    ensures c.year >= 1970
  {
    if c.year < 1970 { UnixMonotone(c, Civil(1970, 1, 1, 0, 0, 0)); }
  }

  /** A time from the epoch on has a year of at least 1970. */
  lemma RenderedDate(secs: nat)
    ensures ValidCivil(CivilFromUnix(secs)) && CivilFromUnix(secs).year >= 1970
  {
    CivilRoundTrip(secs);
    YearFromEpoch(CivilFromUnix(secs));
  }

  // ----- The reader -----

  function Field(s: string, fromEnd: nat, width: nat): Option<nat>
    requires width <= fromEnd <= |s|
  {
    var f := s[|s| - fromEnd..][..width];
    if Decimal.AllDigits(f) then Some(Decimal.Value(f)) else None
  }

  /** The punctuation of RFC 3339, counted from the end. */
  predicate Punctuated(s: string)
    requires |s| >= 20
  {
    var n := |s|;
    && s[n - 16] == '-' && s[n - 13] == '-' && s[n - 10] == 'T' && s[n - 7] == ':' && s[n - 4] == ':'
    && s[n - 1] == 'Z'
  }

  /** The second count a printed timestamp stands for; fields are found from the end, so the
      year may have any width. */
  function ReadTs(s: string): Option<int> {
    if |s| < 20 || !Punctuated(s) then None
    else
      var year, month, day := Field(s, |s|, |s| - 16), Field(s, 15, 2), Field(s, 12, 2);
      var hour, minute, second := Field(s, 9, 2), Field(s, 6, 2), Field(s, 3, 2);
      if year.None? || month.None? || day.None? || hour.None? || minute.None? || second.None? then None
      else if !(1 <= month.value <= 12) then None
      else Some(UnixFromCivil(Civil(year.value, month.value, day.value, hour.value, minute.value, second.value)))
  }

  lemma FieldBehind(p: string, t: string, fromEnd: nat, width: nat)
    requires width <= fromEnd <= |t|
    ensures Field(p + t, fromEnd, width) == Field(t, fromEnd, width)
  {
    assert (p + t)[|p + t| - fromEnd..] == t[|t| - fromEnd..];
  }

  lemma FieldInFront(f: string, t: string)
    requires Decimal.AllDigits(f)
    ensures Field(f + t, |f| + |t|, |f|) == Some(Decimal.Value(f))
  {
    assert (f + t)[|f + t| - |f + t|..][..|f|] == f;
  }

  lemma TwoDigitField(n: nat)
    requires n < 100
    ensures TwoDigits(Decimal.Padded(n, 2)) && Decimal.Value(Decimal.Padded(n, 2)) == n
  {
    Decimal.TwoDigits(n);
    Decimal.PaddedRoundTrip(n, 2);
  }

  predicate TwoDigits(f: string) {
    |f| == 2 && Decimal.AllDigits(f)
  }

  lemma ClockFields(hour: string, minute: string, second: string)
    requires TwoDigits(hour) && TwoDigits(minute) && TwoDigits(second)
    ensures var t := Clock(hour, minute, second);
            && |t| == 9 && Field(t, 9, 2) == Some(Decimal.Value(hour))
            && Field(t, 6, 2) == Some(Decimal.Value(minute)) && Field(t, 3, 2) == Some(Decimal.Value(second))
  {
    var s := second + "Z";
    var m := minute + (":" + s);
    FieldInFront(second, "Z");
    FieldInFront(minute, ":" + s);
    FieldInFront(hour, ":" + m);
    FieldBehind(":", s, 3, 2);
    FieldBehind(minute, ":" + s, 3, 2);
    FieldBehind(":", m, 3, 2);
    FieldBehind(":", m, 6, 2);
    FieldBehind(hour, ":" + m, 3, 2);
    FieldBehind(hour, ":" + m, 6, 2);
  }

  lemma DateFields(month: string, day: string, clock: string)
    requires TwoDigits(month) && TwoDigits(day) && |clock| == 9
    ensures var t := "-" + (month + ("-" + (day + ("T" + clock))));
            && |t| == 16 && Field(t, 15, 2) == Some(Decimal.Value(month)) && Field(t, 12, 2) == Some(Decimal.Value(day))
            && forall k :: 2 <= k <= 9 ==> Field(t, k, 2) == Field(clock, k, 2)
  {
    var d := day + ("T" + clock);
    var m := month + ("-" + d);
    FieldInFront(day, "T" + clock);
    FieldInFront(month, "-" + d);
    FieldBehind("-", d, 12, 2);
    FieldBehind(month, "-" + d, 12, 2);
    FieldBehind("-", m, 12, 2);
    FieldBehind("-", m, 15, 2);
    forall k | 2 <= k <= 9 ensures Field("-" + m, k, 2) == Field(clock, k, 2) {
      FieldBehind("T", clock, k, 2);
      FieldBehind(day, "T" + clock, k, 2);
      FieldBehind("-", d, k, 2);
      FieldBehind(month, "-" + d, k, 2);
      FieldBehind("-", m, k, 2);
    }
  }

  lemma TailFields(year: string, tail: string, clock: string)
    requires Decimal.AllDigits(year) && |tail| == 16 && |clock| == 9
    requires forall k :: 2 <= k <= 9 ==> Field(tail, k, 2) == Field(clock, k, 2)
    ensures var s := year + tail;
            && Field(s, |s|, |s| - 16) == Some(Decimal.Value(year))
            && Field(s, 15, 2) == Field(tail, 15, 2) && Field(s, 12, 2) == Field(tail, 12, 2)
            && Field(s, 9, 2) == Field(clock, 9, 2) && Field(s, 6, 2) == Field(clock, 6, 2)
            && Field(s, 3, 2) == Field(clock, 3, 2)
  {
    FieldInFront(year, tail);
    FieldBehind(year, tail, 15, 2);
    FieldBehind(year, tail, 12, 2);
    FieldBehind(year, tail, 9, 2);
    FieldBehind(year, tail, 6, 2);
    FieldBehind(year, tail, 3, 2);
  }

  lemma TailPunctuated(year: string, month: string, day: string, hour: string, minute: string, second: string)
    requires |year| >= 4 && TwoDigits(month) && TwoDigits(day)
    requires TwoDigits(hour) && TwoDigits(minute) && TwoDigits(second)
    ensures Punctuated(year + Tail(month, day, hour, minute, second))
  {
    var c := Clock(hour, minute, second);
    assert |c| == 9 && c[2] == ':' && c[5] == ':' && c[8] == 'Z';
    var t := Tail(month, day, hour, minute, second);
    assert |t| == 16 && t[0] == '-' && t[3] == '-' && t[6] == 'T' && t[7..] == c;
    assert (year + t)[|year|..] == t;
  }

  lemma LineReads(year: nat, month: nat, day: nat, hour: nat, minute: nat, second: nat)
    requires 1 <= month <= 12 && day < 100 && hour < 100 && minute < 100 && second < 100
    ensures ReadTs(Line(year, month, day, hour, minute, second))
         == Some(UnixFromCivil(Civil(year, month, day, hour, minute, second)))
  {
    Decimal.PaddedRoundTrip(year, 4);
    TwoDigitField(month);
    TwoDigitField(day);
    TwoDigitField(hour);
    TwoDigitField(minute);
    TwoDigitField(second);
    var a, b, c, d, e := Decimal.Padded(month, 2), Decimal.Padded(day, 2), Decimal.Padded(hour, 2),
                         Decimal.Padded(minute, 2), Decimal.Padded(second, 2);
    TailPunctuated(Decimal.Padded(year, 4), a, b, c, d, e);
    ClockFields(c, d, e);
    DateFields(a, b, Clock(c, d, e));
    TailFields(Decimal.Padded(year, 4), Tail(a, b, c, d, e), Clock(c, d, e));
  }

  /** Every time after the epoch reads back to the second. */
  lemma TimestampRoundTrip(tsMillis: int)
    ensures ReadTs(FormatTs(tsMillis)) == if tsMillis <= 0 then None else Some(tsMillis / 1000)
  {
    if tsMillis > 0 {
      var c := CivilFromUnix(tsMillis / 1000);
      RenderedDate(tsMillis / 1000);
      CivilRoundTrip(tsMillis / 1000);
      LineReads(c.year, c.month, c.day, c.hour, c.minute, c.second);
    }
  }

  lemma FourDigitYear(year: nat)
    requires year < 10_000
    ensures |Decimal.Padded(year, 4)| == 4
  {
    assert year >= 10 ==> |Decimal.Of(year)| == 1 + |Decimal.Of(year / 10)|;
    assert year >= 100 ==> |Decimal.Of(year / 10)| == 1 + |Decimal.Of(year / 10 / 10)|;
    assert year >= 1000 ==> |Decimal.Of(year / 10 / 10)| == 2;
  }

  /** A time is 20 characters, punctuated as RFC 3339 says, up to the year 9999. */
  lemma TimestampLayout(tsMillis: int)
    ensures tsMillis <= 0 ==> FormatTs(tsMillis) == "(unknown time)"
    ensures tsMillis > 0 ==> |FormatTs(tsMillis)| >= 20 && Punctuated(FormatTs(tsMillis))
    ensures tsMillis > 0 && CivilFromUnix(tsMillis / 1000).year < 10_000 ==> |FormatTs(tsMillis)| == 20
  {
    TimestampRoundTrip(tsMillis);
    if tsMillis > 0 && CivilFromUnix(tsMillis / 1000).year < 10_000 {
      var c := CivilFromUnix(tsMillis / 1000);
      RenderedDate(tsMillis / 1000);
      FourDigitYear(c.year);
      TwoDigitField(c.month);
      TwoDigitField(c.day);
      TwoDigitField(c.hour);
      TwoDigitField(c.minute);
      TwoDigitField(c.second);
    }
  }

  /** Two alerts show the same time exactly when they fall in the same second, or both have none. */
  lemma SameLineSameSecond(a: int, b: int)
    ensures FormatTs(a) == FormatTs(b) <==> if a <= 0 || b <= 0 then a <= 0 && b <= 0 else a / 1000 == b / 1000
  {
    TimestampRoundTrip(a);
    TimestampRoundTrip(b);
  }
}

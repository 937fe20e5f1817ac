/** The alert limiter under calls that read the clock before they take its lock
    (crates/bulwark-alert/src/sink.rs), and so may reach it out of clock order. Nothing is assumed
    here about the times but how far one may lie behind the latest time seen before it. */
module LockOrder {
  import opened Base
  import opened RateLimiter
  import AlertMail

  /** The latest clock reading that has reached the limiter. */
  function Latest(h: History): nat {
    if h == [] then 0 else if Last(h).Drained? then Latest(Front(h)) else Max(Latest(Front(h)), Last(h).now)
  }

  /** No call comes more than `lag` behind the latest one before it. */
  predicate LagsAtMost(h: History, lag: nat) {
    h == [] || (LagsAtMost(Front(h), lag) && (!Last(h).Drained? ==> Latest(Front(h)) <= Last(h).now + lag))
  }

  lemma {:induction false} LatestIsClock(h: History)
    requires Chronological(h)
    ensures Latest(h) == Clock(h)
  {
    if h != [] { LatestIsClock(Front(h)); }
  }

  /** A clock in order is one without lag. */
  lemma {:induction false} NoLagIsChronological(h: History)
    ensures LagsAtMost(h, 0) <==> Chronological(h)
  {
    if h != [] {
      NoLagIsChronological(Front(h));
      if Chronological(Front(h)) { LatestIsClock(Front(h)); }
    }
  }

  /** No send finds 2^32 times or more in the deque. */
  predicate DequeFits(cfg: Config, h: History) {
    h == []
    || (&& DequeFits(cfg, Front(h))
        && (Last(h).Judged? && Last(h).decision.SendNow? ==>
              |Expire(cfg, StateAfter(cfg, Front(h)), Last(h).now).recentSends| < U32_RANGE))
  }

  // ----- What the deque still holds -----

  /** Times from `lo` to just before `hi`. */
  function Within(times: seq<nat>, lo: nat, hi: nat): nat {
    if times == [] then 0 else Within(times[1..], lo, hi) + if lo <= times[0] < hi then 1 else 0
  }

  lemma {:induction false} WithinMore(times: seq<nat>, t: nat, lo: nat, hi: nat)
    ensures Within(times + [t], lo, hi) == Within(times, lo, hi) + if lo <= t < hi then 1 else 0
  {
    if times != [] {
      WithinMore(times[1..], t, lo, hi);
      assert (times + [t])[1..] == times[1..] + [t];
    }
  }

  lemma {:induction false} WithinFits(times: seq<nat>, lo: nat, hi: nat)
    ensures Within(times, lo, hi) <= |times|
  {
    if times != [] { WithinFits(times[1..], lo, hi); }
  }

  /** Before a window length has passed since `lo`, nothing from `lo` on is popped, in whatever
      order the deque is. */
  lemma {:induction false} PoppedBefore(times: seq<nat>, now: nat, window: nat, lo: nat, hi: nat)
    requires now < lo + window && (window > 0 || hi <= lo)
    ensures Within(DropAged(times, now, window), lo, hi) == Within(times, lo, hi)
  {
    if times != [] && Since(now, times[0]) >= window { PoppedBefore(times[1..], now, window, lo, hi); }
  }

  // ----- The budget with a lag -----

  /** The sends of a window, and, until a window length has passed, the deque still holds them. */
  ghost predicate Held(cfg: Config, h: History, lo: nat, hi: nat) {
    && SendsIn(h, lo, hi) <= cfg.maxImmediate
    && (Latest(h) < lo + cfg.burstWindow ==> SendsIn(h, lo, hi) <= Within(StateAfter(cfg, h).recentSends, lo, hi))
  }

  /** What one call does to the deque, counted. */
  lemma DequeStep(cfg: Config, s: State, alert: Alert, now: nat, lo: nat, hi: nat)
    requires now < lo + cfg.burstWindow ==> cfg.burstWindow > 0 || hi <= lo
    ensures var before, kept := Within(s.recentSends, lo, hi), Expire(cfg, s, now).recentSends;
            var (s', d) := Admit(cfg, s, alert, now);
            && (d.SendNow? ==> AsU32(|kept|) < cfg.maxImmediate && Within(kept, lo, hi) <= |kept|)
            && (now < lo + cfg.burstWindow ==>
                  && before == Within(kept, lo, hi)
                  && Within(s'.recentSends, lo, hi) == before + if d.SendNow? && lo <= now < hi then 1 else 0)
  {
    var kept := DropAged(s.recentSends, now, cfg.burstWindow);
    WithinMore(kept, now, lo, hi);
    WithinFits(kept, lo, hi);
    if now < lo + cfg.burstWindow { PoppedBefore(s.recentSends, now, cfg.burstWindow, lo, hi); }
  }

  lemma JudgedHeld(cfg: Config, h: History, lag: nat, lo: nat, hi: nat)
    requires h != [] && Last(h).Judged? && hi + lag <= lo + cfg.burstWindow
    requires Answered(cfg, h) && LagsAtMost(h, lag) && DequeFits(cfg, h)
    requires Held(cfg, Front(h), lo, hi)
    ensures Held(cfg, h, lo, hi)
  {
    DequeStep(cfg, StateAfter(cfg, Front(h)), Last(h).alert, Last(h).now, lo, hi);
  }

  lemma {:induction false} AlwaysHeld(cfg: Config, h: History, lag: nat, lo: nat, hi: nat)
    requires Answered(cfg, h) && LagsAtMost(h, lag) && DequeFits(cfg, h) && hi + lag <= lo + cfg.burstWindow
    ensures Held(cfg, h, lo, hi)
  {
    if h != [] {
      AlwaysHeld(cfg, Front(h), lag, lo, hi);
      match Last(h)
      case Judged(_, _, _) => JudgedHeld(cfg, h, lag, lo, hi);
      case Charged(now) => WithinMore(StateAfter(cfg, Front(h)).recentSends, now, lo, hi);
      case Drained(_) =>
    }
  }

  /** A run of the sink in which no call reaches the limiter more than `lag` out of order. */
  predicate Lagging(cfg: Config, run: AlertMail.Run, lag: nat) {
    var h := AlertMail.HistoryOf(run);
    AlertMail.WellFormed(run) && Answered(cfg, h) && LagsAtMost(h, lag) && DequeFits(cfg, h)
  }

  /** The interval of length `len` from `lo` on holds no more individual mails than the budget. */
  predicate IntervalKept(cfg: Config, run: AlertMail.Run, lo: nat, len: nat) {
    AlertMail.SinglesIn(AlertMail.Outbox(run), lo, lo + len) <= cfg.maxImmediate
  }

  /** With calls up to `lag` out of order, any interval no longer than the window less `lag` holds
      at most `maxImmediate` individually sent mails. */
  lemma SinglesWithLag(cfg: Config, run: AlertMail.Run, lag: nat, lo: nat, len: nat)
    requires Lagging(cfg, run, lag) && len + lag <= cfg.burstWindow
    ensures IntervalKept(cfg, run, lo, len)
  {
    AlwaysHeld(cfg, AlertMail.HistoryOf(run), lag, lo, lo + len);
    AlertMail.SinglesJustified(run, lo, lo + len);
  }

  lemma {:induction false} NoneInNothing(box: seq<AlertMail.Sent>, lo: nat)
    ensures AlertMail.SinglesIn(box, lo, lo) == 0
  {
    if box != [] { NoneInNothing(Front(box), lo); }
  }

  // ----- Longer intervals do not keep to it -----

  const ONE := Alert("one", "")
  const TWO := Alert("two", "")

  /** A budget of one. */
  function Single(window: nat): Config {
    Config(window + 1, window, 1, 0)
  }

  const First := AlertMail.Raised(ONE, 0, SendNow, true)

  /** A duplicate late enough to empty the deque. */
  function Duplicate(window: nat): AlertMail.SinkEvent {
    AlertMail.Raised(ONE, window, Deduped, true)
  }

  /** A call that read the clock before it. */
  function Overtaken(at: nat): AlertMail.SinkEvent {
    AlertMail.Raised(TWO, at, SendNow, true)
  }

  /** A run of the sink one raised alert longer. */
  lemma RaisedNext(cfg: Config, run: AlertMail.Run, alert: Alert, now: nat, d: Decision, lag: nat)
    requires Lagging(cfg, run, lag)
    requires var h := AlertMail.HistoryOf(run);
             && AnsweredIn(cfg, StateAfter(cfg, h), Judged(alert, now, d)) && Latest(h) <= now + lag
             && |Expire(cfg, StateAfter(cfg, h), now).recentSends| < U32_RANGE
    ensures var run' := run + [AlertMail.Raised(alert, now, d, true)];
            var h, h' := AlertMail.HistoryOf(run), AlertMail.HistoryOf(run');
            && Lagging(cfg, run', lag) && Latest(h') == Max(Latest(h), now)
            && StateAfter(cfg, h') == Admit(cfg, StateAfter(cfg, h), alert, now).0
  {
    var h, e := AlertMail.HistoryOf(run), Judged(alert, now, d);
    AlertMail.Extend(run, AlertMail.Raised(alert, now, d, true));
    AnsweredMore(cfg, h, e);
    assert Front(h + [e]) == h;
  }

  lemma RaisedMail(run: AlertMail.Run, alert: Alert, now: nat, d: Decision, lo: nat, hi: nat)
    ensures var run' := run + [AlertMail.Raised(alert, now, d, true)];
            AlertMail.SinglesIn(AlertMail.Outbox(run'), lo, hi)
            == AlertMail.SinglesIn(AlertMail.Outbox(run), lo, hi) + if d.SendNow? && lo <= now < hi then 1 else 0
  {
    AlertMail.Extend(run, AlertMail.Raised(alert, now, d, true));
    var box := AlertMail.Outbox(run);
    assert box + [] == box && Front(box + [AlertMail.Sent(now, AlertMail.Single(alert))]) == box;
  }

  /** The budget spent. */
  function OneCall(): AlertMail.Run {
    [] + [First]
  }

  /** And the deque emptied by a duplicate. */
  function TwoCalls(window: nat): AlertMail.Run {
    OneCall() + [Duplicate(window)]
  }

  /** And a call that read the clock before the duplicate. */
  function ThreeCalls(window: nat, lag: nat): AlertMail.Run
    requires lag <= window
  {
    TwoCalls(window) + [Overtaken(window - lag)]
  }

  lemma NothingYet(cfg: Config)
    ensures Lagging(cfg, [], 0) && AlertMail.HistoryOf([]) == [] && Latest([]) == 0 && StateAfter(cfg, []) == Initial
  {
  }

  lemma FirstIsSent(window: nat)
    ensures var cfg := Single(window);
            var (s, d) := Admit(cfg, Initial, ONE, 0);
            && s.seen == map["one" := 0] && s.recentSends == [0] && d == SendNow
            && Expire(cfg, Initial, 0).recentSends == []
  {
    assert Expire(Single(window), Initial, 0) == Initial;
  }

  lemma FirstSent(window: nat)
    ensures var cfg, h := Single(window), AlertMail.HistoryOf(OneCall());
            && Lagging(cfg, OneCall(), 0) && Latest(h) == 0
            && StateAfter(cfg, h).recentSends == [0] && StateAfter(cfg, h).seen == map["one" := 0]
  {
    NothingYet(Single(window));
    FirstIsSent(window);
    RaisedNext(Single(window), [], ONE, 0, SendNow, 0);
  }

  lemma DuplicateEmpties(window: nat, s: State)
    requires s.recentSends == [0] && s.seen == map["one" := 0]
    ensures var cfg := Single(window);
            var (s', d) := Admit(cfg, s, ONE, window);
            && d == Deduped && s'.recentSends == [] && "two" !in s'.seen
            && Expire(cfg, s, window).recentSends == []
  {
    assert [0][1..] == [] && DropAged([0], window, window) == [];
    assert Expire(Single(window), s, window).seen == map["one" := 0];
  }

  lemma ThenDuplicate(window: nat)
    ensures var cfg := Single(window);
            var h := AlertMail.HistoryOf(TwoCalls(window));
            && Lagging(cfg, TwoCalls(window), 0) && Latest(h) == window
            && StateAfter(cfg, h).recentSends == [] && "two" !in StateAfter(cfg, h).seen
  {
    FirstSent(window);
    DuplicateEmpties(window, StateAfter(Single(window), AlertMail.HistoryOf(OneCall())));
    RaisedNext(Single(window), OneCall(), ONE, window, Deduped, 0);
  }

  lemma {:induction false} MoreLag(h: History, lag: nat, more: nat)
    requires LagsAtMost(h, lag) && lag <= more
    ensures LagsAtMost(h, more)
  {
    if h != [] { MoreLag(Front(h), lag, more); }
  }

  lemma OvertakenIsSent(window: nat, s: State, now: nat)
    requires s.recentSends == [] && "two" !in s.seen
    ensures Admit(Single(window), s, TWO, now).1 == SendNow && Expire(Single(window), s, now).recentSends == []
  {
  }

  lemma LateIsSent(window: nat, lag: nat, run: AlertMail.Run)
    requires lag <= window && Lagging(Single(window), run, 0)
    requires var h := AlertMail.HistoryOf(run);
             && Latest(h) == window
             && StateAfter(Single(window), h).recentSends == [] && "two" !in StateAfter(Single(window), h).seen
    ensures Lagging(Single(window), run + [Overtaken(window - lag)], lag)
  {
    var h := AlertMail.HistoryOf(run);
    MoreLag(h, 0, lag);
    OvertakenIsSent(window, StateAfter(Single(window), h), window - lag);
    RaisedNext(Single(window), run, TWO, window - lag, SendNow, lag);
  }

  lemma OneMail(len: nat)
    requires len > 0
    ensures AlertMail.SinglesIn(AlertMail.Outbox(OneCall()), 0, len) == 1
  {
    RaisedMail([], ONE, 0, SendNow, 0, len);
  }

  lemma StillOneMail(window: nat, len: nat)
    requires len > 0
    ensures AlertMail.SinglesIn(AlertMail.Outbox(TwoCalls(window)), 0, len) == 1
  {
    OneMail(len);
    RaisedMail(OneCall(), ONE, window, Deduped, 0, len);
  }

  lemma TwoMails(window: nat, lag: nat, len: nat)
    requires lag <= window < len + lag
    ensures !IntervalKept(Single(window), ThreeCalls(window, lag), 0, len)
  {
    StillOneMail(window, len);
    RaisedMail(TwoCalls(window), TWO, window - lag, SendNow, 0, len);
  }

  /** Two mails within `window - lag`, with a budget of one and one call `lag` late. */
  lemma ThenOvertaken(window: nat, lag: nat, len: nat)
    requires lag <= window < len + lag
    ensures var run := ThreeCalls(window, lag);
            Lagging(Single(window), run, lag) && !IntervalKept(Single(window), run, 0, len)
  {
    ThenDuplicate(window);
    LateIsSent(window, lag, TwoCalls(window));
    TwoMails(window, lag, len);
  }

  /** For every burst window and lag: the intervals that hold the budget in every run are exactly
      those no longer than the window less the lag. */
  lemma LagBudgetIff(window: nat, lag: nat, len: nat)
    ensures (forall cfg: Config, run, lo ::
               cfg.burstWindow == window && Lagging(cfg, run, lag) ==> IntervalKept(cfg, run, lo, len))
       <==> len == 0 || len + lag <= window
  {
    if len == 0 || len + lag <= window {
      forall cfg: Config, run, lo | cfg.burstWindow == window && Lagging(cfg, run, lag)
        ensures IntervalKept(cfg, run, lo, len)
      {
        if len == 0 { NoneInNothing(AlertMail.Outbox(run), lo); } else { SinglesWithLag(cfg, run, lag, lo, len); }
      }
    } else {
      var m, cfg := Min(lag, window), Single(window);
      ThenOvertaken(window, m, len);
      var run := ThreeCalls(window, m);
      MoreLag(AlertMail.HistoryOf(run), m, lag);
      assert Lagging(cfg, run, lag) && !IntervalKept(cfg, run, 0, len);
    }
  }

  // ----- Dedupe with a lag -----

  /** The alert was let through and has an id to be remembered by. */
  predicate KeptWithId(e: Entry) {
    e.Judged? && !e.decision.Deduped? && e.alert.alertId != ""
  }

  ghost predicate Remembered(cfg: Config, h: History, kept: Entry)
    requires KeptWithId(kept)
  {
    var seen := StateAfter(cfg, h).seen;
    || kept.now + cfg.dedupeWindow <= Latest(h)
    || (kept.alert.alertId in seen && seen[kept.alert.alertId] == kept.now)
  }

  lemma RememberedStep(cfg: Config, h: History, kept: Entry)
    requires h != [] && Answered(cfg, h) && KeptWithId(kept)
    requires Last(h) == kept || (Remembered(cfg, Front(h), kept) && kept.now <= Latest(Front(h)))
    ensures Remembered(cfg, h, kept) && kept.now <= Latest(h)
  {
  }

  /** It is remembered until some call comes a dedupe window later. */
  lemma {:induction false} RememberedUntilLate(cfg: Config, h: History, i: nat)
    requires Answered(cfg, h) && i < |h| && KeptWithId(h[i])
    ensures Remembered(cfg, h, h[i]) && h[i].now <= Latest(h)
  {
    if i < |h| - 1 { RememberedUntilLate(cfg, Front(h), i); }
    RememberedStep(cfg, h, h[i]);
  }

  /** With calls up to `lag` out of order, two alerts of one id that are both let through are at
      least the dedupe window, less the lag, apart. */
  lemma {:induction false} KeptApartWithLag(cfg: Config, h: History, lag: nat, i: nat, j: nat)
    requires Answered(cfg, h) && LagsAtMost(h, lag) && i < j < |h|
    requires KeptWithId(h[i]) && KeptWithId(h[j]) && h[i].alert.alertId == h[j].alert.alertId
    ensures h[i].now + cfg.dedupeWindow <= h[j].now + lag
  {
    if j < |h| - 1 {
      KeptApartWithLag(cfg, Front(h), lag, i, j);
    } else {
      RememberedUntilLate(cfg, Front(h), i);
    }
  }

  // ----- With a clock in order -----

  /** With a clock in order the limiter's own answers are those its specification calls for. */
  lemma InOrderStep(cfg: Config, h: History, s: State, e: Entry)
    requires Tracks(cfg, h, s) && (e.Drained? || Clock(h) <= e.now)
    ensures Lawful(cfg, h + [e]) <==> AnsweredIn(cfg, s, e)
    ensures AnsweredIn(cfg, s, e) ==> Tracks(cfg, h + [e], Next(cfg, s, e))
  {
    Extend(h, e);
    match e
    case Judged(alert, now, _) => AdmitRefines(cfg, h, s, alert, now);
    case Charged(now) => ChargeRefines(cfg, h, s, now);
    case Drained(_) => DrainRefines(cfg, h, s);
  }

  lemma {:induction false} InOrderIsLawful(cfg: Config, h: History)
    requires Chronological(h)
    ensures Answered(cfg, h) <==> Lawful(cfg, h)
    ensures Lawful(cfg, h) ==> Tracks(cfg, h, StateAfter(cfg, h))
  {
    if h != [] {
      InOrderIsLawful(cfg, Front(h));
      assert h == Front(h) + [Last(h)];
      if Lawful(cfg, Front(h)) { InOrderStep(cfg, Front(h), StateAfter(cfg, Front(h)), Last(h)); }
    }
  }
}

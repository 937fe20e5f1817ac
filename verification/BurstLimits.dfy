/** Where the burst budget of the alert limiter (crates/bulwark-alert/src/ratelimit.rs) ends: the
    length of the deque is cut to 32 bits before it is compared. */
module BurstLimits {
  import opened Base
  import opened RateLimiter
  import AlertMail

  /** Every immediate send found fewer live charges than the budget. */
  predicate SendsUnderBudget(cfg: Config, h: History) {
    h == []
    || (&& SendsUnderBudget(cfg, Front(h))
        && (Last(h).Judged? && Last(h).decision.SendNow? ==>
              Live(ChargeTimes(Front(h)), Last(h).now, cfg.burstWindow) < cfg.maxImmediate))
  }

  /** That holds exactly while no send finds 2^32 live charges or more. */
  lemma {:induction false} UnderBudgetExact(cfg: Config, h: History)
    requires Lawful(cfg, h)
    ensures SendsUnderBudget(cfg, h) <==> BudgetCountFits(cfg, h)
  {
    if h != [] { UnderBudgetExact(cfg, Front(h)); }
  }

  // ----- A history over budget -----

  const SEND := Judged(Alert("", ""), 0, SendNow)

  /** A history at time 0 with so many live charges and immediate sends. */
  ghost predicate AtZero(cfg: Config, h: History, charges: nat, sends: nat) {
    && Chronological(h) && Lawful(cfg, h) && Clock(h) == 0
    && Live(ChargeTimes(h), 0, cfg.burstWindow) == charges && SendsIn(h, 0, cfg.burstWindow) == sends
  }

  lemma AddSend(cfg: Config, h: History, charges: nat, sends: nat)
    requires AtZero(cfg, h, charges, sends) && cfg.burstWindow > 0 && AsU32(charges) < cfg.maxImmediate
    ensures AtZero(cfg, h + [SEND], charges + 1, sends + 1)
  {
    Extend(h, SEND);
    LiveMore(ChargeTimes(h), 0, 0, cfg.burstWindow);
  }

  lemma AddCharge(cfg: Config, h: History, charges: nat, sends: nat)
    requires AtZero(cfg, h, charges, sends) && cfg.burstWindow > 0
    ensures AtZero(cfg, h + [Charged(0)], charges + 1, sends)
  {
    Extend(h, Charged(0));
    LiveMore(ChargeTimes(h), 0, 0, cfg.burstWindow);
  }

  function Sends(n: nat): History {
    if n == 0 then [] else Sends(n - 1) + [SEND]
  }

  function ThenCharges(h: History, n: nat): History {
    if n == 0 then h else ThenCharges(h, n - 1) + [Charged(0)]
  }

  lemma {:induction false} SendsAtZero(cfg: Config, n: nat)
    requires cfg.burstWindow > 0 && n <= cfg.maxImmediate
    ensures AtZero(cfg, Sends(n), n, n)
  {
    if n > 0 {
      SendsAtZero(cfg, n - 1);
      AddSend(cfg, Sends(n - 1), n - 1, n - 1);
    }
  }

  lemma {:induction false} ChargesAtZero(cfg: Config, h: History, charges: nat, sends: nat, n: nat)
    requires AtZero(cfg, h, charges, sends) && cfg.burstWindow > 0
    ensures AtZero(cfg, ThenCharges(h, n), charges + n, sends)
  {
    if n > 0 {
      ChargesAtZero(cfg, h, charges, sends, n - 1);
      AddCharge(cfg, ThenCharges(h, n - 1), charges + n - 1, sends);
    }
  }

  /** The whole budget, then digests until the count is cut to zero, then one send more. */
  function OverBudget(cfg: Config): History {
    ThenCharges(Sends(cfg.maxImmediate), U32_RANGE - cfg.maxImmediate) + [SEND]
  }

  lemma OverBudgetIsOver(cfg: Config)
    requires cfg.burstWindow > 0 && cfg.maxImmediate > 0
    ensures AtZero(cfg, OverBudget(cfg), U32_RANGE + 1, cfg.maxImmediate + 1)
  {
    var m: nat := cfg.maxImmediate;
    SendsAtZero(cfg, m);
    ChargesAtZero(cfg, Sends(m), m, m, U32_RANGE - m);
    AddSend(cfg, ThenCharges(Sends(m), U32_RANGE - m), U32_RANGE, m);
  }

  lemma {:induction false} NoBudgetNoSends(cfg: Config, h: History, lo: nat)
    requires Lawful(cfg, h) && (cfg.burstWindow == 0 || cfg.maxImmediate == 0)
    ensures SendsIn(h, lo, lo + cfg.burstWindow) == 0
  {
    if h != [] { NoBudgetNoSends(cfg, Front(h), lo); }
  }

  /** The interval of the burst length from `lo` on holds no more immediate sends than the budget. */
  predicate WindowKept(cfg: Config, h: History, lo: nat) {
    SendsIn(h, lo, lo + cfg.burstWindow) <= cfg.maxImmediate
  }

  ghost predicate BudgetKept(cfg: Config, h: History) {
    forall lo :: WindowKept(cfg, h, lo)
  }

  /** The budget is kept by every history at all exactly when it, or the window, is zero: otherwise
      it is kept while the count fits (`BurstBudget`) and broken by `OverBudget`. */
  lemma BudgetKeptAlwaysIff(cfg: Config)
    ensures (forall h :: Chronological(h) && Lawful(cfg, h) ==> BudgetKept(cfg, h))
       <==> cfg.burstWindow == 0 || cfg.maxImmediate == 0
  {
    if cfg.burstWindow == 0 || cfg.maxImmediate == 0 {
      forall h | Chronological(h) && Lawful(cfg, h) ensures BudgetKept(cfg, h) {
        forall lo ensures WindowKept(cfg, h, lo) {
          NoBudgetNoSends(cfg, h, lo);
        }
      }
    } else {
      OverBudgetIsOver(cfg);
      var h := OverBudget(cfg);
      assert !WindowKept(cfg, h, 0) && !BudgetKept(cfg, h);
      assert Chronological(h) && Lawful(cfg, h);
    }
  }

  // ----- The budget of the sink -----

  lemma {:induction false} LiveShrinks(times: seq<nat>, now: nat, later: nat, window: nat)
    requires now <= later
    ensures Live(times, later, window) <= Live(times, now, window)
  {
    if times != [] { LiveShrinks(times[1..], now, later, window); }
  }

  predicate NothingCharged(h: History) {
    h == [] || (NothingCharged(Front(h)) && !Last(h).Charged?)
  }

  /** While only immediate sends are charged, the live charges never exceed the budget. */
  lemma {:induction false} OnlySendsCharge(cfg: Config, h: History, now: nat)
    requires Chronological(h) && Lawful(cfg, h) && NothingCharged(h) && Clock(h) <= now
    ensures Live(ChargeTimes(h), now, cfg.burstWindow) <= cfg.maxImmediate && BudgetCountFits(cfg, h)
  {
    if h != [] {
      var past, e := Front(h), Last(h);
      var at := if e.Drained? then now else e.now;
      OnlySendsCharge(cfg, past, at);
      LiveShrinks(ChargeTimes(past), at, now, cfg.burstWindow);
      if Charges(e) { LiveMore(ChargeTimes(past), e.now, now, cfg.burstWindow); }
    }
  }

  lemma {:induction false} JudgedOnly(h: History, es: History, now: nat)
    requires NothingCharged(h) && AlertMail.AllJudged(es, now)
    ensures NothingCharged(h + es)
  {
    if es == [] {
      assert h + es == h;
    } else {
      assert es[|es| - 1].Judged? && Front(h + es) == h + Front(es);
      JudgedOnly(h, Front(es), now);
    }
  }

  /** A sink without a digest never flushes one. */
  lemma {:induction false} NothingFlushed(cfg: Config, run: AlertMail.Run)
    requires AlertMail.WellFormed(run) && Lawful(cfg, AlertMail.HistoryOf(run)) && cfg.digestMax == 0
    ensures NothingCharged(AlertMail.HistoryOf(run))
  {
    if run != [] {
      var past, e := AlertMail.HistoryOf(Front(run)), Last(run);
      AlertMail.LawfulPrefix(cfg, past, AlertMail.EntriesOf(e));
      NothingFlushed(cfg, Front(run));
      if e.Flushed? {
        AlertMail.FlushTakesPending(cfg, past, e.now, e.alerts);
      } else {
        JudgedOnly(past, AlertMail.EntriesOf(e), e.now);
      }
    }
  }

  const ALERT := Alert("", "")

  /** A run of the sink at time 0, with so much on the digest, so many live charges, and as many
      individual mails as immediate sends. */
  ghost predicate SinkAtZero(cfg: Config, run: AlertMail.Run, pending: seq<Alert>, charges: nat, sends: nat) {
    && AlertMail.WellFormed(run) && AtZero(cfg, AlertMail.HistoryOf(run), charges, sends)
    && Pending(cfg, AlertMail.HistoryOf(run)) == pending
    && AlertMail.SinglesIn(AlertMail.Outbox(run), 0, cfg.burstWindow) == sends
  }

  /** One more alert mailed by itself. */
  function WithMail(run: AlertMail.Run): AlertMail.Run {
    run + [AlertMail.Raised(ALERT, 0, SendNow, true)]
  }

  /** One more alert coalesced, and the digest flushed. */
  function WithDigest(run: AlertMail.Run): AlertMail.Run {
    run + [AlertMail.Raised(ALERT, 0, Coalesced, true)] + [AlertMail.Flushed([ALERT], 0, true)]
  }

  lemma MailCounts(box: seq<AlertMail.Sent>, m: AlertMail.Mail, window: nat)
    requires window > 0
    ensures var box' := box + [AlertMail.Sent(0, m)];
            AlertMail.SinglesIn(box', 0, window) == AlertMail.SinglesIn(box, 0, window) + if m.Single? then 1 else 0
  {
    assert Front(box + [AlertMail.Sent(0, m)]) == box;
  }

  lemma MailAtZero(cfg: Config, run: AlertMail.Run, charges: nat, sends: nat)
    requires SinkAtZero(cfg, run, [], charges, sends) && cfg.burstWindow > 0 && AsU32(charges) < cfg.maxImmediate
    ensures SinkAtZero(cfg, WithMail(run), [], charges + 1, sends + 1)
  {
    var h := AlertMail.HistoryOf(run);
    AlertMail.Extend(run, AlertMail.Raised(ALERT, 0, SendNow, true));
    AddSend(cfg, h, charges, sends);
    PendingStays(cfg, h, SEND);
    MailCounts(AlertMail.Outbox(run), AlertMail.Single(ALERT), cfg.burstWindow);
  }

  lemma AddCoalesced(cfg: Config, h: History, charges: nat, sends: nat)
    requires AtZero(cfg, h, charges, sends) && AsU32(charges) >= cfg.maxImmediate && cfg.digestMax > 0
    requires Pending(cfg, h) == []
    ensures var h' := h + [Judged(ALERT, 0, Coalesced)];
            AtZero(cfg, h', charges, sends) && Pending(cfg, h') == [ALERT]
  {
    Extend(h, Judged(ALERT, 0, Coalesced));
    PendingGrows(cfg, h, Judged(ALERT, 0, Coalesced));
  }

  lemma AddDrain(cfg: Config, h: History, charges: nat, sends: nat, alerts: seq<Alert>)
    requires AtZero(cfg, h, charges, sends) && Pending(cfg, h) == alerts
    ensures AtZero(cfg, h + [Drained(alerts)], charges, sends) && Pending(cfg, h + [Drained(alerts)]) == []
  {
    Extend(h, Drained(alerts));
  }

  lemma CoalescedAtZero(cfg: Config, run: AlertMail.Run, charges: nat, sends: nat)
    requires SinkAtZero(cfg, run, [], charges, sends) && AsU32(charges) >= cfg.maxImmediate && cfg.digestMax > 0
    ensures SinkAtZero(cfg, run + [AlertMail.Raised(ALERT, 0, Coalesced, true)], [ALERT], charges, sends)
  {
    AlertMail.Extend(run, AlertMail.Raised(ALERT, 0, Coalesced, true));
    AddCoalesced(cfg, AlertMail.HistoryOf(run), charges, sends);
    assert AlertMail.Outbox(run) + [] == AlertMail.Outbox(run);
  }

  lemma AddFlush(cfg: Config, h: History, charges: nat, sends: nat, alerts: seq<Alert>)
    requires AtZero(cfg, h, charges, sends) && Pending(cfg, h) == alerts && cfg.burstWindow > 0
    ensures var h' := h + ([Charged(0)] + [Drained(alerts)]);
            AtZero(cfg, h', charges + 1, sends) && Pending(cfg, h') == []
  {
    AddCharge(cfg, h, charges, sends);
    PendingStays(cfg, h, Charged(0));
    AddDrain(cfg, h + [Charged(0)], charges + 1, sends, alerts);
    assert h + ([Charged(0)] + [Drained(alerts)]) == h + [Charged(0)] + [Drained(alerts)];
  }

  lemma FlushAtZero(cfg: Config, run: AlertMail.Run, alerts: seq<Alert>, charges: nat, sends: nat)
    requires SinkAtZero(cfg, run, alerts, charges, sends) && cfg.burstWindow > 0 && alerts != []
    ensures SinkAtZero(cfg, run + [AlertMail.Flushed(alerts, 0, true)], [], charges + 1, sends)
  {
    AlertMail.Extend(run, AlertMail.Flushed(alerts, 0, true));
    AddFlush(cfg, AlertMail.HistoryOf(run), charges, sends, alerts);
    MailCounts(AlertMail.Outbox(run), AlertMail.Digest(alerts), cfg.burstWindow);
  }

  lemma DigestAtZero(cfg: Config, run: AlertMail.Run, charges: nat, sends: nat)
    requires SinkAtZero(cfg, run, [], charges, sends) && cfg.burstWindow > 0 && cfg.digestMax > 0
    requires cfg.maxImmediate <= charges < U32_RANGE
    ensures SinkAtZero(cfg, WithDigest(run), [], charges + 1, sends)
  {
    CoalescedAtZero(cfg, run, charges, sends);
    FlushAtZero(cfg, run + [AlertMail.Raised(ALERT, 0, Coalesced, true)], [ALERT], charges, sends);
  }

  function Mails(n: nat): AlertMail.Run {
    if n == 0 then [] else WithMail(Mails(n - 1))
  }

  function ThenDigests(run: AlertMail.Run, n: nat): AlertMail.Run {
    if n == 0 then run else WithDigest(ThenDigests(run, n - 1))
  }

  lemma {:induction false} MailsAtZero(cfg: Config, n: nat)
    requires cfg.burstWindow > 0 && n <= cfg.maxImmediate
    ensures SinkAtZero(cfg, Mails(n), [], n, n)
  {
    if n > 0 {
      MailsAtZero(cfg, n - 1);
      MailAtZero(cfg, Mails(n - 1), n - 1, n - 1);
    }
  }

  lemma {:induction false} DigestsAtZero(cfg: Config, run: AlertMail.Run, charges: nat, sends: nat, n: nat)
    requires SinkAtZero(cfg, run, [], charges, sends) && cfg.burstWindow > 0 && cfg.digestMax > 0
    requires cfg.maxImmediate <= charges && charges + n <= U32_RANGE
    ensures SinkAtZero(cfg, ThenDigests(run, n), [], charges + n, sends)
  {
    if n > 0 {
      DigestsAtZero(cfg, run, charges, sends, n - 1);
      DigestAtZero(cfg, ThenDigests(run, n - 1), charges + n - 1, sends);
    }
  }

  /** The whole budget, then flushed digests until the count is cut to zero. */
  function AtTheBrink(cfg: Config): AlertMail.Run {
    ThenDigests(Mails(cfg.maxImmediate), U32_RANGE - cfg.maxImmediate)
  }

  lemma BrinkIsReached(cfg: Config)
    requires cfg.burstWindow > 0 && cfg.digestMax > 0
    ensures SinkAtZero(cfg, AtTheBrink(cfg), [], U32_RANGE, cfg.maxImmediate)
  {
    var m: nat := cfg.maxImmediate;
    MailsAtZero(cfg, m);
    DigestsAtZero(cfg, Mails(m), m, m, U32_RANGE - m);
  }

  /** And then one mail more. */
  function SinkOverBudget(cfg: Config): AlertMail.Run {
    WithMail(AtTheBrink(cfg))
  }

  lemma SinkOverBudgetIsOver(cfg: Config)
    requires cfg.burstWindow > 0 && cfg.maxImmediate > 0 && cfg.digestMax > 0
    ensures SinkAtZero(cfg, SinkOverBudget(cfg), [], U32_RANGE + 1, cfg.maxImmediate + 1)
  {
    BrinkIsReached(cfg);
    MailAtZero(cfg, AtTheBrink(cfg), U32_RANGE, cfg.maxImmediate);
  }

  predicate SinglesKept(cfg: Config, run: AlertMail.Run, lo: nat) {
    AlertMail.SinglesIn(AlertMail.Outbox(run), lo, lo + cfg.burstWindow) <= cfg.maxImmediate
  }

  ghost predicate SinkKept(cfg: Config, run: AlertMail.Run) {
    forall lo :: SinglesKept(cfg, run, lo)
  }

  /** A run the sink can take on a clock that does not run backwards. */
  predicate OnTime(cfg: Config, run: AlertMail.Run) {
    var h := AlertMail.HistoryOf(run);
    AlertMail.WellFormed(run) && Chronological(h) && Lawful(cfg, h)
  }

  lemma KeptWhenZero(cfg: Config, run: AlertMail.Run, lo: nat)
    requires OnTime(cfg, run) && (cfg.burstWindow == 0 || cfg.maxImmediate == 0 || cfg.digestMax == 0)
    ensures SinglesKept(cfg, run, lo)
  {
    var h := AlertMail.HistoryOf(run);
    if cfg.digestMax == 0 {
      NothingFlushed(cfg, run);
      OnlySendsCharge(cfg, h, Clock(h));
      AlertMail.SinglesWithinBudget(cfg, run, lo);
    } else {
      NoBudgetNoSends(cfg, h, lo);
      AlertMail.SinglesJustified(run, lo, lo + cfg.burstWindow);
    }
  }

  /** Every run of the sink keeps its individually sent mails to the budget exactly when the window,
      the budget or the digest is zero; otherwise `SinkOverBudget` breaks it. */
  lemma SinkBudgetIff(cfg: Config)
    ensures (forall run :: OnTime(cfg, run) ==> SinkKept(cfg, run))
       <==> cfg.burstWindow == 0 || cfg.maxImmediate == 0 || cfg.digestMax == 0
  {
    if cfg.burstWindow == 0 || cfg.maxImmediate == 0 || cfg.digestMax == 0 {
      forall run | OnTime(cfg, run) ensures SinkKept(cfg, run) {
        forall lo ensures SinglesKept(cfg, run, lo) {
          KeptWhenZero(cfg, run, lo);
        }
      }
    } else {
      SinkOverBudgetIsOver(cfg);
      var run := SinkOverBudget(cfg);
      assert OnTime(cfg, run) && !SinglesKept(cfg, run, 0);
      assert !SinkKept(cfg, run);
    }
  }
}

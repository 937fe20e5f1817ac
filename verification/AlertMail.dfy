/** The mail an alert sink sends over a run of raises, batches and digest flushes
    (crates/bulwark-alert/src/sink.rs): what each alert appears in, and how often. */
module AlertMail {
  import opened Base
  import opened RateLimiter

  datatype Mail = Single(alert: Alert) | Digest(alerts: seq<Alert>)

  /** A mail the transport accepted, stamped with the time of the call that sent it. */
  datatype Sent = Sent(now: nat, mail: Mail)

  /** One call on the sink: what the limiter was asked and answered, and whether a mail that was
      due could be sent. A flush of an empty digest does nothing and is not an event. */
  datatype SinkEvent =
    | Raised(alert: Alert, now: nat, decision: Decision, sendOk: bool)
    | Batched(entries: History, now: nat, sendOk: bool)
    | Flushed(alerts: seq<Alert>, now: nat, sendOk: bool)

  type Run = seq<SinkEvent>

  /** The alerts of some entries that were, or were not, answered `Deduped`. */
  function Select(entries: History, deduped: bool): seq<Alert> {
    if entries == [] then []
    else if Last(entries).Judged? && Last(entries).decision.Deduped? == deduped
    then Select(Front(entries), deduped) + [Last(entries).alert]
    else Select(Front(entries), deduped)
  }

  function EntriesOf(e: SinkEvent): History {
    match e
    case Raised(alert, now, decision, _) => [Judged(alert, now, decision)]
    case Batched(entries, _, _) => entries
    case Flushed(alerts, now, _) => [Charged(now)] + [Drained(alerts)]
  }

  function MailOf(e: SinkEvent): seq<Sent> {
    match e
    case Raised(alert, now, decision, ok) => if decision.SendNow? && ok then [Sent(now, Single(alert))] else []
    case Batched(entries, now, ok) =>
      if Select(entries, false) != [] && ok then [Sent(now, Digest(Select(entries, false)))] else []
    case Flushed(alerts, now, ok) => if ok then [Sent(now, Digest(alerts))] else []
  }

  /** The limiter's history under a run. */
  function HistoryOf(run: Run): History {
    if run == [] then [] else HistoryOf(Front(run)) + EntriesOf(Last(run))
  }

  function Outbox(run: Run): seq<Sent> {
    if run == [] then [] else Outbox(Front(run)) + MailOf(Last(run))
  }

  /** Entries of a batch: one answer per alert, all at one time. */
  predicate AllJudged(entries: History, now: nat) {
    forall i :: 0 <= i < |entries| ==> entries[i].Judged? && entries[i].now == now
  }

  /** A batch is judged at one time, and an empty digest is never flushed. */
  predicate Fits(e: SinkEvent) {
    && (e.Batched? ==> AllJudged(e.entries, e.now))
    && (e.Flushed? ==> e.alerts != [])
  }

  predicate WellFormed(run: Run) {
    run == [] || (WellFormed(Front(run)) && Fits(Last(run)))
  }

  lemma Extend(run: Run, e: SinkEvent)
    ensures Front(run + [e]) == run && Last(run + [e]) == e
    ensures HistoryOf(run + [e]) == HistoryOf(run) + EntriesOf(e) && Outbox(run + [e]) == Outbox(run) + MailOf(e)
  {
    assert Front(run + [e]) == run;
  }

  // ----- Individually sent mails keep to the burst budget -----

  /** Single-alert mails sent at times from `lo` to just before `hi`. */
  function SinglesIn(outbox: seq<Sent>, lo: nat, hi: nat): nat {
    if outbox == [] then 0
    else SinglesIn(Front(outbox), lo, hi) + if Last(outbox).mail.Single? && lo <= Last(outbox).now < hi then 1 else 0
  }

  lemma {:induction false} SinglesConcat(a: seq<Sent>, b: seq<Sent>, lo: nat, hi: nat)
    ensures SinglesIn(a + b, lo, hi) == SinglesIn(a, lo, hi) + SinglesIn(b, lo, hi)
  {
    if b == [] {
      assert a + b == a;
    } else {
      assert Front(a + b) == a + Front(b);
      SinglesConcat(a, Front(b), lo, hi);
    }
  }

  lemma {:induction false} SendsConcat(h: History, es: History, lo: nat, hi: nat)
    ensures SendsIn(h + es, lo, hi) == SendsIn(h, lo, hi) + SendsIn(es, lo, hi)
  {
    if es == [] {
      assert h + es == h;
    } else {
      assert Front(h + es) == h + Front(es);
      SendsConcat(h, Front(es), lo, hi);
    }
  }

  lemma EventJustified(e: SinkEvent, lo: nat, hi: nat)
    ensures SinglesIn(MailOf(e), lo, hi) <= SendsIn(EntriesOf(e), lo, hi)
  {
    if MailOf(e) != [] {
      assert Front(MailOf(e)) == [];
      if e.Raised? { assert Front(EntriesOf(e)) == []; }
    }
  }

  /** Every single-alert mail goes back to a `SendNow` answer given at the same time. */
  lemma {:induction false} SinglesJustified(run: Run, lo: nat, hi: nat)
    ensures SinglesIn(Outbox(run), lo, hi) <= SendsIn(HistoryOf(run), lo, hi)
  {
    if run != [] {
      var past, e := Front(run), Last(run);
      SinglesJustified(past, lo, hi);
      EventJustified(e, lo, hi);
      SendsConcat(HistoryOf(past), EntriesOf(e), lo, hi);
      SinglesConcat(Outbox(past), MailOf(e), lo, hi);
    }
  }

  /** Over any run on a clock that does not run backwards, any window of the burst length holds at
      most `maxImmediate` individually sent mails. */
  lemma SinglesWithinBudget(cfg: Config, run: Run, lo: nat)
    requires Chronological(HistoryOf(run)) && Lawful(cfg, HistoryOf(run)) && BudgetCountFits(cfg, HistoryOf(run))
    ensures SinglesIn(Outbox(run), lo, lo + cfg.burstWindow) <= cfg.maxImmediate
  {
    SinglesJustified(run, lo, lo + cfg.burstWindow);
    BurstBudget(cfg, HistoryOf(run), lo);
  }

  // ----- How often an alert is mailed -----

  function InMail(x: Alert, m: Mail): nat {
    match m
    case Single(alert) => if alert == x then 1 else 0
    case Digest(alerts) => Copies(x, alerts)
  }

  function Appearances(x: Alert, outbox: seq<Sent>): nat {
    if outbox == [] then 0 else Appearances(x, Front(outbox)) + InMail(x, Last(outbox).mail)
  }

  /** Answers that let `x` through, in a batch that was sent, or `SendNow` with a mail that was. */
  function DirectOf(e: SinkEvent, x: Alert): nat {
    match e
    case Raised(alert, _, decision, ok) => if alert == x && decision.SendNow? && ok then 1 else 0
    case Batched(entries, _, ok) => if ok then Answers(entries, x, SendNow) + Answers(entries, x, Coalesced) else 0
    case Flushed(_, _, _) => 0
  }

  function MailedDirectly(run: Run, x: Alert): nat {
    if run == [] then 0 else MailedDirectly(Front(run), x) + DirectOf(Last(run), x)
  }

  /** Copies of `x` in a digest that was, or was not, sent when it was flushed. */
  function FlushedOf(e: SinkEvent, x: Alert, sent: bool): nat {
    if e.Flushed? && e.sendOk == sent then Copies(x, e.alerts) else 0
  }

  function FlushedCopies(run: Run, x: Alert, sent: bool): nat {
    if run == [] then 0 else FlushedCopies(Front(run), x, sent) + FlushedOf(Last(run), x, sent)
  }

  /** Entries of `es`, after the history `h`, that coalesce `x` while the digest has room. */
  function Roomy(cfg: Config, h: History, es: History, x: Alert): nat {
    if es == [] then 0
    else
      var e := Last(es);
      Roomy(cfg, h, Front(es), x)
      + if e.Judged? && e.alert == x && e.decision.Coalesced? && |Pending(cfg, h + Front(es))| < cfg.digestMax
        then 1 else 0
  }

  lemma {:induction false} SelectCopies(entries: History, x: Alert, now: nat)
    requires AllJudged(entries, now)
    ensures Copies(x, Select(entries, false)) == Answers(entries, x, SendNow) + Answers(entries, x, Coalesced)
  {
    if entries != [] {
      var past, e := Front(entries), Last(entries);
      SelectCopies(past, x, now);
      if !e.decision.Deduped? { CopiesMore(x, Select(past, false), e.alert); }
    }
  }

  /** The mail of one event, counted. */
  lemma EventAppearances(e: SinkEvent, x: Alert)
    requires e.Batched? ==> AllJudged(e.entries, e.now)
    ensures Appearances(x, MailOf(e)) == DirectOf(e, x) + FlushedOf(e, x, true)
  {
    if e.Batched? { SelectCopies(e.entries, x, e.now); }
    if MailOf(e) != [] { assert Front(MailOf(e)) == []; }
  }

  lemma {:induction false} AppearancesConcat(x: Alert, a: seq<Sent>, b: seq<Sent>)
    ensures Appearances(x, a + b) == Appearances(x, a) + Appearances(x, b)
  {
    if b == [] {
      assert a + b == a;
    } else {
      assert Front(a + b) == a + Front(b);
      AppearancesConcat(x, a, Front(b));
    }
  }

  lemma {:induction false} AppearancesAre(run: Run, x: Alert)
    requires WellFormed(run)
    ensures Appearances(x, Outbox(run)) == MailedDirectly(run, x) + FlushedCopies(run, x, true)
  {
    if run != [] {
      AppearancesAre(Front(run), x);
      EventAppearances(Last(run), x);
      AppearancesConcat(x, Outbox(Front(run)), MailOf(Last(run)));
    }
  }

  /** Nothing is drained while only answers and charges are added. */
  predicate NoDrain(es: History) {
    forall i :: 0 <= i < |es| ==> !es[i].Drained?
  }

  lemma {:induction false} PendingGrowsBy(cfg: Config, h: History, es: History, x: Alert)
    requires NoDrain(es)
    ensures Copies(x, Pending(cfg, h + es)) == Copies(x, Pending(cfg, h)) + Roomy(cfg, h, es, x)
  {
    if es == [] {
      assert h + es == h;
    } else {
      var past, e := Front(es), Last(es);
      assert NoDrain(past) && !es[|es| - 1].Drained?;
      PendingGrowsBy(cfg, h, past, x);
      assert h + es == (h + past) + [e];
      if e.Judged? && e.decision.Coalesced? {
        PendingGrows(cfg, h + past, e);
        CopiesMore(x, Pending(cfg, h + past), e.alert);
      } else {
        PendingStays(cfg, h + past, e);
      }
    }
  }

  lemma {:induction false} LawfulPrefix(cfg: Config, h: History, es: History)
    requires Lawful(cfg, h + es)
    ensures Lawful(cfg, h)
  {
    if es == [] {
      assert h + es == h;
    } else {
      assert Front(h + es) == h + Front(es);
      LawfulPrefix(cfg, h, Front(es));
    }
  }

  /** What a flush takes is what was pending, and nothing is pending afterwards. */
  lemma FlushTakesPending(cfg: Config, h: History, now: nat, alerts: seq<Alert>)
    requires Lawful(cfg, h + ([Charged(now)] + [Drained(alerts)]))
    ensures alerts == Pending(cfg, h) && Pending(cfg, h + ([Charged(now)] + [Drained(alerts)])) == []
  {
    var h1 := h + [Charged(now)];
    assert h + ([Charged(now)] + [Drained(alerts)]) == h1 + [Drained(alerts)];
    RateLimiter.Extend(h1, Drained(alerts));
    PendingStays(cfg, h, Charged(now));
  }

  /** Answers of a run that coalesced `x` while the digest had room. */
  function Digested(cfg: Config, run: Run, x: Alert): nat {
    if run == [] then 0
    else
      Digested(cfg, Front(run), x)
      + if Last(run).Flushed? then 0 else Roomy(cfg, HistoryOf(Front(run)), EntriesOf(Last(run)), x)
  }

  lemma DigestedStep(cfg: Config, h: History, e: SinkEvent, x: Alert)
    requires Fits(e) && Lawful(cfg, h + EntriesOf(e))
    ensures Copies(x, Pending(cfg, h)) + (if e.Flushed? then 0 else Roomy(cfg, h, EntriesOf(e), x))
         == FlushedOf(e, x, true) + FlushedOf(e, x, false) + Copies(x, Pending(cfg, h + EntriesOf(e)))
  {
    if e.Flushed? {
      FlushTakesPending(cfg, h, e.now, e.alerts);
    } else {
      PendingGrowsBy(cfg, h, EntriesOf(e), x);
    }
  }

  lemma {:induction false} DigestedAre(cfg: Config, run: Run, x: Alert)
    requires WellFormed(run) && Lawful(cfg, HistoryOf(run))
    ensures Digested(cfg, run, x)
         == FlushedCopies(run, x, true) + FlushedCopies(run, x, false) + Copies(x, Pending(cfg, HistoryOf(run)))
  {
    if run != [] {
      LawfulPrefix(cfg, HistoryOf(Front(run)), EntriesOf(Last(run)));
      DigestedAre(cfg, Front(run), x);
      DigestedStep(cfg, HistoryOf(Front(run)), Last(run), x);
    }
  }

  /** Over every run each appearance of an alert in a sent mail is one answer that let it through,
      or one copy in a flushed digest; and each answer that put it on the digest is in exactly one
      flushed digest, sent or lost with a failed send, or still pending. */
  lemma MailAccounting(cfg: Config, run: Run, x: Alert)
    requires WellFormed(run) && Lawful(cfg, HistoryOf(run))
    ensures Appearances(x, Outbox(run)) == MailedDirectly(run, x) + FlushedCopies(run, x, true)
    ensures Digested(cfg, run, x)
         == FlushedCopies(run, x, true) + FlushedCopies(run, x, false) + Copies(x, Pending(cfg, HistoryOf(run)))
  {
    AppearancesAre(run, x);
    DigestedAre(cfg, run, x);
  }

  // ----- A batch alert in a later digest -----

  predicate NoFlush(run: Run) {
    run == [] || (NoFlush(Front(run)) && !Last(run).Flushed?)
  }

  lemma HistoryStep(run: Run)
    requires run != []
    ensures HistoryOf(run) == HistoryOf(Front(run)) + EntriesOf(Last(run))
  {
  }

  lemma Regroup(h: History, a: History, b: History, c: History)
    requires h == a + b
    ensures h + c == a + (b + c)
  {
  }

  lemma {:induction false} HistoryConcat(a: Run, b: Run)
    ensures HistoryOf(a + b) == HistoryOf(a) + HistoryOf(b)
  {
    if b == [] {
      assert a + b == a;
    } else {
      var es := EntriesOf(Last(b));
      assert Front(a + b) == a + Front(b) && Last(a + b) == Last(b);
      HistoryConcat(a, Front(b));
      HistoryStep(a + b);
      HistoryStep(b);
      Regroup(HistoryOf(a + Front(b)), HistoryOf(a), HistoryOf(Front(b)), es);
    }
  }

  lemma {:induction false} NoFlushNoDrain(run: Run)
    requires WellFormed(run) && NoFlush(run)
    ensures NoDrain(HistoryOf(run))
  {
    if run != [] { NoFlushNoDrain(Front(run)); }
  }

  /** The first flush after some calls holds what was pending before them and what they put on the
      digest, each as often. */
  lemma FlushHolds(cfg: Config, pre: Run, mid: Run, f: SinkEvent, x: Alert)
    requires WellFormed(mid) && NoFlush(mid) && f.Flushed? && Lawful(cfg, HistoryOf(pre + mid + [f]))
    ensures Copies(x, f.alerts)
         == Copies(x, Pending(cfg, HistoryOf(pre))) + Roomy(cfg, HistoryOf(pre), HistoryOf(mid), x)
  {
    HistoryConcat(pre, mid);
    Extend(pre + mid, f);
    NoFlushNoDrain(mid);
    PendingGrowsBy(cfg, HistoryOf(pre), HistoryOf(mid), x);
    FlushTakesPending(cfg, HistoryOf(pre + mid), f.now, f.alerts);
  }

  lemma {:induction false} RoomyConcat(cfg: Config, h: History, a: History, b: History, x: Alert)
    ensures Roomy(cfg, h, a + b, x) == Roomy(cfg, h, a, x) + Roomy(cfg, h + a, b, x)
  {
    if b == [] {
      assert a + b == a;
    } else {
      assert Front(a + b) == a + Front(b);
      assert h + (a + Front(b)) == h + a + Front(b);
      RoomyConcat(cfg, h, a, Front(b), x);
    }
  }

  predicate Mentions(es: History, x: Alert) {
    es != [] && (Mentions(Front(es), x) || (Last(es).Judged? && Last(es).alert == x))
  }

  lemma {:induction false} NotMentionedNotRoomy(cfg: Config, h: History, es: History, x: Alert)
    requires !Mentions(es, x)
    ensures Roomy(cfg, h, es, x) == 0
  {
    if es != [] {
      NotMentionedNotRoomy(cfg, h, Front(es), x);
    }
  }

  /** The digest had room for entry `i` of a batch when it was judged. */
  predicate HadRoom(cfg: Config, h: History, entries: History, i: nat)
    requires i < |entries|
  {
    |Pending(cfg, h + entries[..i])| < cfg.digestMax
  }

  lemma RoomyAt(cfg: Config, h: History, es: History, i: nat)
    requires i < |es| && es[i].Judged?
    requires !Mentions(es[..i], es[i].alert) && !Mentions(es[i + 1..], es[i].alert)
    ensures Roomy(cfg, h, es, es[i].alert) == if es[i].decision.Coalesced? && HadRoom(cfg, h, es, i) then 1 else 0
  {
    var x, a, b := es[i].alert, es[..i], es[i + 1..];
    assert es == a + [es[i]] + b;
    RoomyConcat(cfg, h, a + [es[i]], b, x);
    RoomyConcat(cfg, h, a, [es[i]], x);
    NotMentionedNotRoomy(cfg, h, a, x);
    NotMentionedNotRoomy(cfg, h + (a + [es[i]]), b, x);
    assert Front([es[i]]) == [] && h + a + [] == h + a;
  }

  /** The conditions of the next lemma: `x` is raised only as entry `i` of the batch `b`, it was not
      pending before, and `f` is the first flush after the batch. */
  predicate RaisedOnlyIn(cfg: Config, pre: Run, b: SinkEvent, mid: Run, f: SinkEvent, i: nat, x: Alert) {
    && b.Batched? && AllJudged(b.entries, b.now) && i < |b.entries| && b.entries[i].alert == x
    && WellFormed([b] + mid) && NoFlush(mid) && f.Flushed?
    && Lawful(cfg, HistoryOf(pre + ([b] + mid) + [f]))
    && Copies(x, Pending(cfg, HistoryOf(pre))) == 0
    && !Mentions(b.entries[..i], x) && !Mentions(b.entries[i + 1..], x) && !Mentions(HistoryOf(mid), x)
  }

  lemma BatchAlertOnDigest(cfg: Config, pre: Run, b: SinkEvent, mid: Run, f: SinkEvent, i: nat, x: Alert)
    requires RaisedOnlyIn(cfg, pre, b, mid, f, i, x)
    ensures Copies(x, f.alerts)
         == if b.entries[i].decision.Coalesced? && HadRoom(cfg, HistoryOf(pre), b.entries, i) then 1 else 0
  {
    NoFlushBehind(b, mid);
    FlushHolds(cfg, pre, [b] + mid, f, x);
    HistoryConcat([b], mid);
    HistoryOfOne(b);
    RoomyOnce(cfg, HistoryOf(pre), b.entries, HistoryOf(mid), i);
  }

  lemma HistoryOfOne(e: SinkEvent)
    ensures HistoryOf([e]) == EntriesOf(e)
  {
    assert Front([e]) == [] && [] + EntriesOf(e) == EntriesOf(e);
  }

  lemma RoomyOnce(cfg: Config, h: History, es: History, later: History, i: nat)
    requires i < |es| && es[i].Judged? && !Mentions(later, es[i].alert)
    requires !Mentions(es[..i], es[i].alert) && !Mentions(es[i + 1..], es[i].alert)
    ensures Roomy(cfg, h, es + later, es[i].alert)
         == if es[i].decision.Coalesced? && HadRoom(cfg, h, es, i) then 1 else 0
  {
    RoomyConcat(cfg, h, es, later, es[i].alert);
    RoomyAt(cfg, h, es, i);
    NotMentionedNotRoomy(cfg, h + es, later, es[i].alert);
  }

  /** An alert raised once, in a batch, goes out with the batch exactly when it was not deduped and
      the batch was sent; and again with the next digest flushed exactly when its answer was
      `Coalesced`, the digest had room for it, and that digest is sent. */
  lemma BatchAlertSentAgain(cfg: Config, pre: Run, b: SinkEvent, mid: Run, f: SinkEvent, i: nat, x: Alert)
    requires RaisedOnlyIn(cfg, pre, b, mid, f, i, x)
    ensures Appearances(x, MailOf(b)) == if b.sendOk && !b.entries[i].decision.Deduped? then 1 else 0
    ensures Appearances(x, MailOf(f))
         == if f.sendOk && b.entries[i].decision.Coalesced? && HadRoom(cfg, HistoryOf(pre), b.entries, i) then 1 else 0
  {
    BatchAlertOnDigest(cfg, pre, b, mid, f, i, x);
    EventAppearances(b, x);
    EventAppearances(f, x);
    AnsweredOnce(b.entries, i, SendNow);
    AnsweredOnce(b.entries, i, Coalesced);
  }

  lemma {:induction false} NoFlushBehind(b: SinkEvent, mid: Run)
    requires !b.Flushed? && NoFlush(mid)
    ensures NoFlush([b] + mid)
  {
    if mid == [] {
      assert [b] + mid == [b] && Front([b]) == [];
    } else {
      assert Front([b] + mid) == [b] + Front(mid);
      NoFlushBehind(b, Front(mid));
    }
  }

  lemma {:induction false} AnswersConcat(a: History, b: History, x: Alert, d: Decision)
    ensures Answers(a + b, x, d) == Answers(a, x, d) + Answers(b, x, d)
  {
    if b == [] {
      assert a + b == a;
    } else {
      assert Front(a + b) == a + Front(b);
      AnswersConcat(a, Front(b), x, d);
    }
  }

  lemma {:induction false} NotMentionedNotAnswered(es: History, x: Alert, d: Decision)
    requires !Mentions(es, x)
    ensures Answers(es, x, d) == 0
  {
    if es != [] {
      NotMentionedNotAnswered(Front(es), x, d);
    }
  }

  lemma AnsweredOnce(es: History, i: nat, d: Decision)
    requires i < |es| && es[i].Judged?
    requires !Mentions(es[..i], es[i].alert) && !Mentions(es[i + 1..], es[i].alert)
    ensures Answers(es, es[i].alert, d) == if es[i].decision == d then 1 else 0
  {
    var x, a, b := es[i].alert, es[..i], es[i + 1..];
    assert es == a + [es[i]] + b && Front([es[i]]) == [];
    AnswersConcat(a + [es[i]], b, x, d);
    AnswersConcat(a, [es[i]], x, d);
    NotMentionedNotAnswered(a, x, d);
    NotMentionedNotAnswered(b, x, d);
  }
}

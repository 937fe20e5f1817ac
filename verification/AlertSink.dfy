/** The e-mail alert sink (crates/bulwark-alert/src/sink.rs): it drives the limiter and hands
    single alerts and digests to a mail transport that may fail. The ghost `run` makes every
    law about runs in `AlertMail` a law about every reachable sink. */
module AlertSink {
  import opened Base
  import opened RateLimiter
  import opened AlertMail

  datatype Ack = Ack(alertId: string, delivered: bool, deduped: bool, detail: string)

  datatype SendError = SendError

  function DuplicateAck(a: Alert): Ack {
    Ack(a.alertId, false, true, "duplicate alert suppressed")
  }

  function DigestAck(a: Alert): Ack {
    Ack(a.alertId, true, false, "delivered in digest")
  }

  function DuplicateAcks(alerts: seq<Alert>): seq<Ack> {
    if alerts == [] then [] else DuplicateAcks(Front(alerts)) + [DuplicateAck(Last(alerts))]
  }

  function DigestAcks(alerts: seq<Alert>): seq<Ack> {
    if alerts == [] then [] else DigestAcks(Front(alerts)) + [DigestAck(Last(alerts))]
  }

  /** What the acknowledgements of a batch or digest say of each alert. */
  lemma {:induction false} AcksSay(alerts: seq<Alert>)
    ensures |DuplicateAcks(alerts)| == |DigestAcks(alerts)| == |alerts|
    ensures forall k :: 0 <= k < |alerts| ==>
              && DuplicateAcks(alerts)[k] == Ack(alerts[k].alertId, false, true, "duplicate alert suppressed")
              && DigestAcks(alerts)[k] == Ack(alerts[k].alertId, true, false, "delivered in digest")
  {
    if alerts != [] { AcksSay(Front(alerts)); }
  }

  /** The entries a batch leaves in the limiter's history: one per alert, all at one time. */
  ghost predicate JudgesBatch(entries: History, alerts: seq<Alert>, now: nat) {
    |entries| == |alerts| && AllJudged(entries, now) && forall i :: 0 <= i < |alerts| ==> entries[i].alert == alerts[i]
  }

  lemma SelectMore(entries: History, e: Entry)
    requires e.Judged?
    ensures Select(entries + [e], e.decision.Deduped?) == Select(entries, e.decision.Deduped?) + [e.alert]
    ensures Select(entries + [e], !e.decision.Deduped?) == Select(entries, !e.decision.Deduped?)
    ensures DuplicateAcks(Select(entries, true) + [e.alert])
         == DuplicateAcks(Select(entries, true)) + [DuplicateAck(e.alert)]
  {
    assert Front(entries + [e]) == entries;
    assert Front(Select(entries, true) + [e.alert]) == Select(entries, true);
  }

  class EmailAlertSink {
    const limiter: Limiter
    var outbox: seq<Sent>
    ghost var run: Run

    ghost predicate Valid()
      reads this, limiter
    {
      WellFormed(run) && limiter.history == HistoryOf(run) && outbox == Outbox(run)
    }

    /** The limiter's clock has not run backwards, so that it follows its specification. */
    ghost predicate OnTime(now: nat)
      reads limiter
    {
      limiter.Valid() && Clock(limiter.history) <= now
    }

    constructor (cfg: Config)
      ensures Valid() && fresh(limiter) && limiter.Valid() && limiter.Follows() && limiter.cfg == cfg
      ensures outbox == [] && run == []
    {
      limiter := new Limiter(cfg);
      outbox, run := [], [];
    }

    ghost method Record(e: SinkEvent)
      requires WellFormed(run) && Fits(e)
      requires limiter.history == HistoryOf(run) + EntriesOf(e) && outbox == Outbox(run) + MailOf(e)
      modifies this`run
      ensures Valid() && run == old(run) + [e]
    {
      AlertMail.Extend(run, e);
      run := run + [e];
    }

    /** Raises one alert: sent by itself, suppressed, or left to the next digest. */
    method RaiseAt(alert: Alert, now: nat, sendOk: bool) returns (r: Result<Ack, SendError>, ghost d: Decision)
      requires Valid()
      modifies this, limiter
      ensures Valid() && run == old(run) + [Raised(alert, now, d, sendOk)]
      ensures old(OnTime(now)) ==> OnTime(now) && d == Judge(limiter.cfg, old(limiter.history), alert, now)
      ensures old(limiter.Follows()) ==> limiter.Follows()
      ensures outbox == old(outbox) + if d.SendNow? && sendOk then [Sent(now, Single(alert))] else []
      ensures r == match d
                   case Deduped => Ok(Ack(alert.alertId, false, true, "duplicate alert suppressed"))
                   case Coalesced => Ok(Ack(alert.alertId, false, true, "coalesced into pending digest"))
                   case SendNow => if sendOk then Ok(Ack(alert.alertId, true, false, "delivered")) else Err(SendError)
    {
      var decision := limiter.AdmitAlert(alert, now);
      d := decision;
      RateLimiter.Extend(old(limiter.history), Judged(alert, now, d));
      match decision {
        case Deduped =>
          r := Ok(DuplicateAck(alert));
        case Coalesced =>
          r := Ok(Ack(alert.alertId, false, true, "coalesced into pending digest"));
        case SendNow =>
          if sendOk {
            outbox := outbox + [Sent(now, Single(alert))];
            r := Ok(Ack(alert.alertId, true, false, "delivered"));
          } else {
            r := Err(SendError);
          }
      }
      assert old(outbox) + [] == old(outbox);
      Record(Raised(alert, now, d, sendOk));
    }

    /** Rolls a batch up into one digest mail of everything not answered `Deduped`. */
    method RaiseBatch(alerts: seq<Alert>, now: nat, sendOk: bool)
      returns (r: Result<seq<Ack>, SendError>, ghost entries: History)
      requires Valid()
      modifies this, limiter
      ensures Valid() && run == old(run) + [Batched(entries, now, sendOk)] && JudgesBatch(entries, alerts, now)
      ensures old(OnTime(now)) ==> OnTime(now)
      ensures old(limiter.Follows()) ==> limiter.Follows()
      ensures var toSend := Select(entries, false);
              && r == (if toSend == [] || sendOk then Ok(DuplicateAcks(Select(entries, true)) + DigestAcks(toSend))
                       else Err(SendError))
              && outbox == old(outbox) + if toSend != [] && sendOk then [Sent(now, Digest(toSend))] else []
    {
      var toSend, acks;
      toSend, acks, entries := JudgeAll(alerts, now);
      assert outbox + [] == outbox && acks + [] == acks;
      if toSend != [] {
        if !sendOk {
          Record(Batched(entries, now, sendOk));
          return Err(SendError), entries;
        }
        outbox := outbox + [Sent(now, Digest(toSend))];
        var more := AcknowledgeAll(toSend);
        acks := acks + more;
      }
      r := Ok(acks);
      Record(Batched(entries, now, sendOk));
    }

    /** The locked part of a batch: every alert is judged, and sorted by its answer. */
    method JudgeAll(alerts: seq<Alert>, now: nat)
      returns (toSend: seq<Alert>, acks: seq<Ack>, ghost entries: History)
      modifies limiter
      ensures JudgesBatch(entries, alerts, now)
      ensures limiter.history == old(limiter.history) + entries
      ensures old(OnTime(now)) ==> OnTime(now)
      ensures old(limiter.Follows()) ==> limiter.Follows()
      ensures toSend == Select(entries, false) && acks == DuplicateAcks(Select(entries, true))
    {
      toSend, acks, entries := [], [], [];
      for i := 0 to |alerts|
        invariant |entries| == i && AllJudged(entries, now)
        invariant forall k :: 0 <= k < i ==> entries[k].alert == alerts[k]
        invariant limiter.history == old(limiter.history) + entries
        invariant old(OnTime(now)) ==> OnTime(now)
        invariant old(limiter.Follows()) ==> limiter.Follows()
        invariant toSend == Select(entries, false) && acks == DuplicateAcks(Select(entries, true))
      {
        var d := JudgeOne(alerts[i], now);
        SelectMore(entries, Judged(alerts[i], now, d));
        assert old(limiter.history) + entries + [Judged(alerts[i], now, d)]
            == old(limiter.history) + (entries + [Judged(alerts[i], now, d)]);
        entries := entries + [Judged(alerts[i], now, d)];
        if d.Deduped? {
          acks := acks + [DuplicateAck(alerts[i])];
        } else {
          toSend := toSend + [alerts[i]];
        }
      }
    }

    method JudgeOne(alert: Alert, now: nat) returns (d: Decision)
      modifies limiter
      ensures limiter.history == old(limiter.history) + [Judged(alert, now, d)]
      ensures old(OnTime(now)) ==> OnTime(now) && d == Judge(limiter.cfg, old(limiter.history), alert, now)
      ensures old(limiter.Follows()) ==> limiter.Follows()
    {
      d := limiter.AdmitAlert(alert, now);
      RateLimiter.Extend(old(limiter.history), Judged(alert, now, d));
    }

    /** Charges the digest and takes what it holds. */
    method TakeDigest(now: nat) returns (alerts: seq<Alert>)
      modifies limiter
      ensures alerts == old(limiter.pendingDigest) && limiter.pendingDigest == []
      ensures limiter.history == old(limiter.history) + ([Charged(now)] + [Drained(alerts)])
      ensures old(OnTime(now)) ==> OnTime(now) && alerts == Pending(limiter.cfg, old(limiter.history))
      ensures old(limiter.Follows()) ==> limiter.Follows()
    {
      ghost var h := limiter.history;
      alerts := limiter.ChargeAndDrain(now);
      RateLimiter.Extend(h, Charged(now));
      RateLimiter.Extend(h + [Charged(now)], Drained(alerts));
      assert h + [Charged(now)] + [Drained(alerts)] == h + ([Charged(now)] + [Drained(alerts)]);
    }

    static method AcknowledgeAll(alerts: seq<Alert>) returns (acks: seq<Ack>)
      ensures acks == DigestAcks(alerts)
    {
      acks := [];
      for i := 0 to |alerts|
        invariant acks == DigestAcks(alerts[..i])
      {
        assert Front(alerts[..i + 1]) == alerts[..i];
        acks := acks + [DigestAck(alerts[i])];
      }
      assert alerts[..|alerts|] == alerts;
    }

    /** Sends what the digest holds. A failed send has already emptied the digest. */
    method FlushDigestAt(now: nat, sendOk: bool) returns (r: Result<Option<seq<Ack>>, SendError>)
      requires Valid()
      modifies this, limiter
      ensures Valid()
      ensures old(OnTime(now)) ==>
                OnTime(now) && old(limiter.pendingDigest) == Pending(limiter.cfg, old(limiter.history))
      ensures old(limiter.Follows()) ==> limiter.Follows()
      ensures limiter.pendingDigest == []
      ensures old(limiter.pendingDigest) == [] ==> r == Ok(None) && outbox == old(outbox) && run == old(run)
      ensures var alerts := old(limiter.pendingDigest);
              alerts != [] ==>
                && run == old(run) + [Flushed(alerts, now, sendOk)]
                && r == (if sendOk then Ok(Some(DigestAcks(alerts))) else Err(SendError))
                && outbox == old(outbox) + if sendOk then [Sent(now, Digest(alerts))] else []
    {
      if limiter.pendingDigest == [] {
        return Ok(None);
      }
      var alerts := TakeDigest(now);
      assert outbox + [] == outbox;
      if !sendOk {
        Record(Flushed(alerts, now, sendOk));
        return Err(SendError);
      }
      outbox := outbox + [Sent(now, Digest(alerts))];
      var acks := AcknowledgeAll(alerts);
      Record(Flushed(alerts, now, sendOk));
      r := Ok(Some(acks));
    }
  }
}

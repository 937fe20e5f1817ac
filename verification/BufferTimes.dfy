/** What the delay buffer owes each admission (crates/bulwark-flow/src/buffer.rs): the number, the
    deadline, and the polls that report it, all read off the accepted admissions of a history. */
module BufferTimes {
  import opened Base
  import opened DelayBuffer
  import opened DelayBufferLaws

  /** The accepted admissions, in order. */
  function Admissions(t: Trace): seq<Event> {
    if t == [] then []
    else if Last(t).Admission? && Last(t).accepted then Admissions(Front(t)) + [Last(t)]
    else Admissions(Front(t))
  }

  /** The `id`-th admission is ticket `id`, with its own bytes, and waits the live delay or the budget
      of recorded video, in milliseconds. */
  lemma {:induction false} TicketOfAdmission(cfg: Config, t: Trace, id: nat)
    ensures |Tickets(cfg, t)| == |Admissions(t)|
    ensures 1 <= id <= |Admissions(t)| ==>
              var ticket, e := Tickets(cfg, t)[id - 1], Admissions(t)[id - 1];
              && e.Admission? && ticket.id == id && ticket.bytes == e.bytes
              && ticket.live == e.live && ticket.admittedAt == e.now
              && (e.live ==> ticket.deadline == e.now + cfg.liveDelayMs * 1_000_000)
              && (!e.live ==> ticket.deadline == e.now + cfg.vodBudgetMs * 1_000_000)
  {
    if t != [] { TicketOfAdmission(cfg, Front(t), id); }
  }

  lemma {:induction false} DueMore(slots: seq<Slot>, s: Slot, now: nat)
    ensures DueSlots(slots + [s], now) == DueSlots(slots, now) + DueSlots([s], now)
  {
    if slots == [] {
      assert [] + [s] == [s];
    } else {
      DueMore(slots[1..], s, now);
      assert (slots + [s])[1..] == slots[1..] + [s];
    }
  }

  lemma {:induction false} DueAmong(cfg: Config, t: Trace, n: nat, now: nat, o: OverdueSegment)
    requires n <= |Tickets(cfg, t)|
    ensures o in DueSlots(Unsettled(cfg, t, n), now)
       <==> && 1 <= o.id <= n && Settlement(cfg, t, o.id).None? && !AskedToHold(cfg, t, o.id)
            && var ticket := Tickets(cfg, t)[o.id - 1];
               o.live == ticket.live && o.bytes == ticket.bytes && ticket.deadline <= now
  {
    if n > 0 {
      DueAmong(cfg, t, n - 1, now, o);
      TicketIds(cfg, t, n - 1);
      if Settlement(cfg, t, n).None? {
        var s := Slot(Tickets(cfg, t)[n - 1], AskedToHold(cfg, t, n));
        DueMore(Unsettled(cfg, t, n - 1), s, now);
        assert [s][1..] == [];
      }
    }
  }

  /** The segment is that of an admission no verdict has settled and nobody asked to hold, and its
      time is up: the live delay, or the budget of recorded video, has passed since. */
  ghost predicate TimeIsUp(cfg: Config, t: Trace, o: OverdueSegment, now: nat) {
    && 1 <= o.id <= |Admissions(t)| && Settlement(cfg, t, o.id).None? && !AskedToHold(cfg, t, o.id)
    && var e := Admissions(t)[o.id - 1];
       && e.Admission? && o.live == e.live && o.bytes == e.bytes
       && now >= e.now + (if e.live then cfg.liveDelayMs else cfg.vodBudgetMs) * 1_000_000
  }

  /** A poll reports exactly those. */
  lemma PollExactly(cfg: Config, t: Trace, now: nat, o: OverdueSegment)
    ensures o in DueSegments(After(cfg, t).queue, now) <==> TimeIsUp(cfg, t, o, now)
  {
    PollAnswer(cfg, t, now);
    DueAmong(cfg, t, |Tickets(cfg, t)|, now, o);
    TicketOfAdmission(cfg, t, o.id);
  }
}

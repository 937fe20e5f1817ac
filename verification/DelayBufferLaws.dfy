/** What every history of the delay buffer keeps. */
module DelayBufferLaws {
  import opened Base
  import opened DelayBuffer

  /** A history one event longer. */
  lemma Extend(cfg: Config, t: Trace, e: Event)
    ensures Front(t + [e]) == t && Last(t + [e]) == e
    ensures After(cfg, t + [e]) == Step(cfg, After(cfg, t), e)
  {
    assert Front(t + [e]) == t;
  }

  // ----- Tickets are numbered in order of admission -----

  lemma {:induction false} TicketIds(cfg: Config, t: Trace, k: nat)
    requires k < |Tickets(cfg, t)|
    ensures Tickets(cfg, t)[k].id == k + 1
  {
    if k < |Tickets(cfg, Front(t))| { TicketIds(cfg, Front(t), k); }
  }

  lemma {:induction false} OnlyIssuedAreTouched(cfg: Config, t: Trace, id: nat)
    ensures Settlement(cfg, t, id).Some? || AskedToHold(cfg, t, id) ==> Issued(cfg, t, id)
  {
    if t != [] { OnlyIssuedAreTouched(cfg, Front(t), id); }
  }

  /** Ids increase strictly along the queue, from `lo` on and below `hi`. */
  predicate Increasing(queue: seq<Segment>, lo: nat, hi: nat) {
    if queue == [] then lo <= hi else lo <= queue[0].id < hi && Increasing(queue[1..], queue[0].id + 1, hi)
  }

  lemma {:induction false} IncreasingMore(queue: seq<Segment>, lo: nat, seg: Segment)
    requires Increasing(queue, lo, seg.id)
    ensures Increasing(queue + [seg], lo, seg.id + 1)
  {
    if queue != [] {
      IncreasingMore(queue[1..], queue[0].id + 1, seg);
      assert (queue + [seg])[1..] == queue[1..] + [seg];
    }
  }

  lemma {:induction false} WithoutIncreasing(queue: seq<Segment>, lo: nat, hi: nat, id: nat)
    requires Increasing(queue, lo, hi)
    ensures Increasing(Without(queue, id), lo, hi)
  {
    if queue != [] { WithoutIncreasing(queue[1..], queue[0].id + 1, hi, id); }
  }

  lemma {:induction false} MarkedIncreasing(queue: seq<Segment>, lo: nat, hi: nat, id: nat, now: nat)
    requires Increasing(queue, lo, hi)
    ensures Increasing(WithHeld(queue, id), lo, hi)
    ensures Increasing(MarkOverdue(queue, now), lo, hi)
  {
    if queue != [] { MarkedIncreasing(queue[1..], queue[0].id + 1, hi, id, now); }
  }

  ghost predicate Numbered(cfg: Config, t: Trace) {
    var s := After(cfg, t);
    s.nextId == |Tickets(cfg, t)| + 1 && Increasing(s.queue, 1, s.nextId)
  }

  lemma NumberedAdmission(cfg: Config, t: Trace, e: Event)
    requires e.Admission? && e.accepted && Numbered(cfg, t)
    ensures Numbered(cfg, t + [e])
  {
    var s := After(cfg, t);
    Extend(cfg, t, e);
    IncreasingMore(s.queue, 1, Segment(s.nextId, e.bytes, e.live, e.now, Deadline(cfg, e.live, e.now), Pending));
  }

  lemma NumberedVerdict(cfg: Config, t: Trace, e: Event)
    requires e.Verdict? && Numbered(cfg, t)
    ensures Numbered(cfg, t + [e])
  {
    var s := After(cfg, t);
    Extend(cfg, t, e);
    WithoutIncreasing(s.queue, 1, s.nextId, e.id);
    MarkedIncreasing(s.queue, 1, s.nextId, e.id, 0);
  }

  lemma NumberedOther(cfg: Config, t: Trace, e: Event)
    requires (e.Admission? ==> !e.accepted) && !e.Verdict? && Numbered(cfg, t)
    ensures Numbered(cfg, t + [e])
  {
    Extend(cfg, t, e);
    var s := After(cfg, t);
    MarkedIncreasing(s.queue, 1, s.nextId, if e.Hold? then e.id else 0, if e.Poll? then e.now else 0);
  }

  /** Ids increase strictly along the queue and stay below the next id. */
  lemma {:induction false} AlwaysNumbered(cfg: Config, t: Trace)
    ensures Numbered(cfg, t)
  {
    if t != [] {
      var past, e := Front(t), Last(t);
      assert t == past + [e];
      AlwaysNumbered(cfg, past);
      if e.Admission? && e.accepted {
        NumberedAdmission(cfg, past, e);
      } else if e.Verdict? {
        NumberedVerdict(cfg, past, e);
      } else {
        NumberedOther(cfg, past, e);
      }
    }
  }

  // ----- The queue is exactly the unsettled tickets -----

  function DropSlot(slots: seq<Slot>, id: nat): seq<Slot> {
    if slots == [] then []
    else if slots[0].ticket.id == id then DropSlot(slots[1..], id)
    else [slots[0]] + DropSlot(slots[1..], id)
  }

  function HoldSlot(slots: seq<Slot>, id: nat): seq<Slot> {
    if slots == [] then []
    else [if slots[0].ticket.id == id then slots[0].(held := true) else slots[0]] + HoldSlot(slots[1..], id)
  }

  lemma {:induction false} SlotsMore(queue: seq<Segment>, seg: Segment)
    ensures Slots(queue + [seg]) == Slots(queue) + [SlotOf(seg)]
  {
    if queue != [] {
      SlotsMore(queue[1..], seg);
      assert (queue + [seg])[1..] == queue[1..] + [seg];
    }
  }

  lemma {:induction false} DropMore(slots: seq<Slot>, s: Slot, id: nat)
    ensures DropSlot(slots + [s], id)
         == if s.ticket.id == id then DropSlot(slots, id) else DropSlot(slots, id) + [s]
  {
    if slots != [] {
      DropMore(slots[1..], s, id);
      assert (slots + [s])[1..] == slots[1..] + [s];
    }
  }

  lemma {:induction false} HoldMore(slots: seq<Slot>, s: Slot, id: nat)
    ensures HoldSlot(slots + [s], id)
         == HoldSlot(slots, id) + [if s.ticket.id == id then s.(held := true) else s]
  {
    if slots != [] {
      HoldMore(slots[1..], s, id);
      assert (slots + [s])[1..] == slots[1..] + [s];
    }
  }

  lemma {:induction false} AbsentBelow(queue: seq<Segment>, lo: nat, hi: nat, id: nat)
    requires Increasing(queue, lo, hi) && id < lo
    ensures Find(queue, id).None?
    ensures DropSlot(Slots(queue), id) == Slots(queue) && HoldSlot(Slots(queue), id) == Slots(queue)
  {
    if queue != [] { AbsentBelow(queue[1..], queue[0].id + 1, hi, id); }
  }

  lemma {:induction false} WithoutIsDrop(queue: seq<Segment>, lo: nat, hi: nat, id: nat)
    requires Increasing(queue, lo, hi)
    ensures Slots(Without(queue, id)) == DropSlot(Slots(queue), id)
  {
    if queue != [] {
      if queue[0].id == id {
        AbsentBelow(queue[1..], id + 1, hi, id);
      } else {
        WithoutIsDrop(queue[1..], queue[0].id + 1, hi, id);
      }
    }
  }

  lemma {:induction false} WithHeldIsHold(queue: seq<Segment>, lo: nat, hi: nat, id: nat)
    requires Increasing(queue, lo, hi)
    ensures Slots(WithHeld(queue, id)) == HoldSlot(Slots(queue), id)
  {
    if queue != [] {
      if queue[0].id == id {
        AbsentBelow(queue[1..], id + 1, hi, id);
      } else {
        WithHeldIsHold(queue[1..], queue[0].id + 1, hi, id);
      }
    }
  }

  lemma {:induction false} OverdueKeepsSlots(queue: seq<Segment>, now: nat)
    ensures Slots(MarkOverdue(queue, now)) == Slots(queue)
  {
    if queue != [] { OverdueKeepsSlots(queue[1..], now); }
  }

  lemma {:induction false} AbsentUnchanged(queue: seq<Segment>, id: nat)
    requires Find(queue, id).None?
    ensures Without(queue, id) == queue && WithHeld(queue, id) == queue
  {
    if queue != [] { AbsentUnchanged(queue[1..], id); }
  }

  /** What one event does to what should be waiting. */
  function Waited(before: seq<Slot>, e: Event): seq<Slot> {
    match e
    case Verdict(id, action, _, _) => if action.Unspecified? then HoldSlot(before, id) else DropSlot(before, id)
    case Hold(id) => HoldSlot(before, id)
    case _ => before
  }

  lemma WaitedOne(slot: Slot, e: Event)
    ensures Waited([slot], e) == match e
      case Verdict(id, action, _, _) =>
        if slot.ticket.id != id then [slot] else if action.Unspecified? then [slot.(held := true)] else []
      case Hold(id) => [if slot.ticket.id == id then slot.(held := true) else slot]
      case _ => [slot]
  {
    assert [] + [slot] == [slot];
    if e.Verdict? || e.Hold? {
      DropMore([], slot, e.id);
      HoldMore([], slot, e.id);
    }
  }

  lemma WaitedMore(before: seq<Slot>, slot: Slot, e: Event)
    ensures Waited(before + [slot], e) == Waited(before, e) + Waited([slot], e)
  {
    WaitedOne(slot, e);
    if e.Verdict? || e.Hold? {
      DropMore(before, slot, e.id);
      HoldMore(before, slot, e.id);
    }
  }

  /** One ticket's slot, if it is unsettled. */
  function SlotAt(cfg: Config, t: Trace, n: nat): seq<Slot>
    requires 1 <= n <= |Tickets(cfg, t)|
  {
    if Settlement(cfg, t, n).Some? then [] else [Slot(Tickets(cfg, t)[n - 1], AskedToHold(cfg, t, n))]
  }

  lemma SlotAfter(cfg: Config, t: Trace, e: Event, n: nat)
    requires 1 <= n <= |Tickets(cfg, t)|
    ensures n <= |Tickets(cfg, t + [e])| && SlotAt(cfg, t + [e], n) == Waited(SlotAt(cfg, t, n), e)
  {
    Extend(cfg, t, e);
    TicketIds(cfg, t, n - 1);
    WaitedOne(Slot(Tickets(cfg, t)[n - 1], AskedToHold(cfg, t, n)), e);
  }

  /** How one event changes what should be waiting, ticket by ticket. */
  lemma {:induction false} UnsettledAfter(cfg: Config, t: Trace, e: Event, n: nat)
    requires n <= |Tickets(cfg, t)|
    ensures n <= |Tickets(cfg, t + [e])|
    ensures Unsettled(cfg, t + [e], n) == Waited(Unsettled(cfg, t, n), e)
  {
    if n > 0 {
      UnsettledAfter(cfg, t, e, n - 1);
      SlotAfter(cfg, t, e, n);
      if Settlement(cfg, t, n).None? {
        WaitedMore(Unsettled(cfg, t, n - 1), SlotAt(cfg, t, n)[0], e);
      }
    }
  }

  /** In every reachable state the queue is exactly the admitted and unsettled tickets, in
      admission order, each with its own bytes and deadline, held exactly if that was asked. */
  lemma {:induction false} QueueIsWaiting(cfg: Config, t: Trace)
    ensures Slots(After(cfg, t).queue) == Waiting(cfg, t)
  {
    if t != [] {
      var past, e, s := Front(t), Last(t), After(cfg, Front(t));
      QueueIsWaiting(cfg, past);
      AlwaysNumbered(cfg, past);
      assert t == past + [e];
      UnsettledAfter(cfg, past, e, |Tickets(cfg, past)|);
      match e
      case Admission(bytes, live, now, accepted) =>
        if accepted {
          SlotsMore(s.queue, Segment(s.nextId, bytes, live, now, Deadline(cfg, live, now), Pending));
          OnlyIssuedAreTouched(cfg, past, s.nextId);
        }
      case Verdict(id, action, _, _) =>
        WithoutIsDrop(s.queue, 1, s.nextId, id);
        WithHeldIsHold(s.queue, 1, s.nextId, id);
        if Find(s.queue, id).None? { AbsentUnchanged(s.queue, id); }
      case Hold(id) => WithHeldIsHold(s.queue, 1, s.nextId, id);
      case Poll(now) => OverdueKeepsSlots(s.queue, now);
      case Query(_) =>
    }
  }

  // ----- Every ticket is pending, forwarded once, or dropped -----

  function FindSlot(slots: seq<Slot>, id: nat): Option<Slot> {
    if slots == [] then None else if slots[0].ticket.id == id then Some(slots[0]) else FindSlot(slots[1..], id)
  }

  lemma {:induction false} FindMore(slots: seq<Slot>, s: Slot, id: nat)
    ensures FindSlot(slots + [s], id)
         == if FindSlot(slots, id).Some? then FindSlot(slots, id) else if s.ticket.id == id then Some(s) else None
  {
    if slots != [] {
      FindMore(slots[1..], s, id);
      assert (slots + [s])[1..] == slots[1..] + [s];
    }
  }

  lemma {:induction false} FindIsFindSlot(queue: seq<Segment>, id: nat)
    ensures match Find(queue, id)
            case None => FindSlot(Slots(queue), id).None?
            case Some(seg) => FindSlot(Slots(queue), id) == Some(SlotOf(seg))
  {
    if queue != [] { FindIsFindSlot(queue[1..], id); }
  }

  lemma {:induction false} UnsettledFind(cfg: Config, t: Trace, n: nat, id: nat)
    requires n <= |Tickets(cfg, t)|
    ensures FindSlot(Unsettled(cfg, t, n), id)
         == if 1 <= id <= n && Settlement(cfg, t, id).None?
            then Some(Slot(Tickets(cfg, t)[id - 1], AskedToHold(cfg, t, id))) else None
  {
    if n > 0 {
      UnsettledFind(cfg, t, n - 1, id);
      TicketIds(cfg, t, n - 1);
      FindMore(Unsettled(cfg, t, n - 1), Slot(Tickets(cfg, t)[n - 1], AskedToHold(cfg, t, n)), id);
    }
  }

  predicate IsPending(cfg: Config, t: Trace, id: nat) {
    Issued(cfg, t, id) && Settlement(cfg, t, id).None?
  }

  lemma FindWaiting(cfg: Config, t: Trace, id: nat)
    ensures var found := Find(After(cfg, t).queue, id);
            && (found.Some? <==> IsPending(cfg, t, id))
            && (found.Some? ==> SlotOf(found.value) == Slot(Tickets(cfg, t)[id - 1], AskedToHold(cfg, t, id)))
  {
    QueueIsWaiting(cfg, t);
    FindIsFindSlot(After(cfg, t).queue, id);
    UnsettledFind(cfg, t, |Tickets(cfg, t)|, id);
  }

  /** A verdict is answered from the history alone: a ticket never issued, or settled before,
      is not found; any other gives back its own bytes, the rewritten ones, or nothing. */
  lemma VerdictAnswer(cfg: Config, t: Trace, id: nat, action: Action, rewritten: Option<Bytes>, now: nat)
    ensures Apply(After(cfg, t), id, action, rewritten, now).1
         == if IsPending(cfg, t, id) then Ok(Outcome(action, rewritten, Tickets(cfg, t)[id - 1].bytes))
            else Err(SegmentNotFound(id))
    ensures IsPending(cfg, t, id) ==>
              var bytes := Tickets(cfg, t)[id - 1].bytes;
              Apply(After(cfg, t), id, action, rewritten, now).1.value == match action
                case Block => Dropped
                case Allow | Warn | Log => Forward(bytes)
                case Blur | Mute => Forward(if rewritten.Some? then rewritten.value else bytes)
                case Unspecified => StillHeld
  {
    FindWaiting(cfg, t, id);
  }

  /** How many verdicts released the ticket, by forwarding or by dropping it. */
  function Releases(cfg: Config, t: Trace, id: nat): nat {
    if t == [] then 0
    else
      var e := Last(t);
      Releases(cfg, Front(t), id)
      + if e.Verdict? && e.id == id && !e.action.Unspecified?
           && Apply(After(cfg, Front(t)), id, e.action, e.rewritten, e.now).1.Ok? then 1 else 0
  }

  /** Each issued ticket is either pending and never released, or released exactly once. */
  lemma {:induction false} ReleasedOnce(cfg: Config, t: Trace, id: nat)
    ensures Releases(cfg, t, id) == if Settlement(cfg, t, id).Some? then 1 else 0
    ensures Issued(cfg, t, id) ==> (Find(After(cfg, t).queue, id).Some? <==> Releases(cfg, t, id) == 0)
  {
    FindWaiting(cfg, t, id);
    if t != [] {
      ReleasedOnce(cfg, Front(t), id);
      OnlyIssuedAreTouched(cfg, Front(t), id);
      if Last(t).Verdict? {
        VerdictAnswer(cfg, Front(t), id, Last(t).action, Last(t).rewritten, Last(t).now);
      }
    }
  }

  // ----- Overdue segments -----

  function DueSlots(slots: seq<Slot>, now: nat): seq<OverdueSegment> {
    if slots == [] then []
    else if slots[0].ticket.deadline <= now && !slots[0].held
    then [OverdueSegment(slots[0].ticket.id, slots[0].ticket.live, slots[0].ticket.bytes)] + DueSlots(slots[1..], now)
    else DueSlots(slots[1..], now)
  }

  lemma {:induction false} DueSegmentsAreDueSlots(queue: seq<Segment>, now: nat)
    ensures DueSegments(queue, now) == DueSlots(Slots(queue), now)
  {
    if queue != [] { DueSegmentsAreDueSlots(queue[1..], now); }
  }

  /** A poll returns exactly the unsettled tickets past their deadline that nobody asked to
      hold, in admission order. */
  lemma PollAnswer(cfg: Config, t: Trace, now: nat)
    ensures DueSegments(After(cfg, t).queue, now) == DueSlots(Waiting(cfg, t), now)
  {
    QueueIsWaiting(cfg, t);
    DueSegmentsAreDueSlots(After(cfg, t).queue, now);
  }

  predicate IsOverdue(cfg: Config, t: Trace, id: nat, now: nat) {
    IsPending(cfg, t, id) && !AskedToHold(cfg, t, id) && Tickets(cfg, t)[id - 1].deadline <= now
  }

  predicate Mentions(e: Event, id: nat) {
    (e.Verdict? || e.Hold?) && e.id == id
  }

  /** An overdue ticket stays overdue until somebody applies a verdict to it or holds it. */
  lemma {:induction false} OverdueUntilSettledOrHeld(cfg: Config, t: Trace, more: Trace, id: nat, now: nat, later: nat)
    requires IsOverdue(cfg, t, id, now) && now <= later
    requires forall i :: 0 <= i < |more| ==> !Mentions(more[i], id)
    ensures IsOverdue(cfg, t + more, id, later)
  {
    if more == [] {
      assert t + more == t;
    } else {
      OverdueUntilSettledOrHeld(cfg, t, Front(more), id, now, later);
      assert Front(t + more) == t + Front(more);
    }
  }

  /** A ticket once held is never reported overdue again, however late it gets. */
  lemma {:induction false} HeldForGood(cfg: Config, t: Trace, more: Trace, id: nat, later: nat)
    requires AskedToHold(cfg, t, id)
    ensures !IsOverdue(cfg, t + more, id, later)
  {
    if more == [] {
      assert t + more == t;
    } else {
      HeldForGood(cfg, t, Front(more), id, later);
      assert Front(t + more) == t + Front(more);
      HoldSticks(cfg, t, Front(more), id);
    }
  }

  lemma {:induction false} HoldSticks(cfg: Config, t: Trace, more: Trace, id: nat)
    requires AskedToHold(cfg, t, id)
    ensures AskedToHold(cfg, t + more, id)
  {
    if more == [] {
      assert t + more == t;
    } else {
      HoldSticks(cfg, t, Front(more), id);
      assert Front(t + more) == t + Front(more);
    }
  }

  // ----- The reported delay -----

  /** Segments were admitted at nondecreasing times. */
  predicate AdmittedInOrder(cfg: Config, t: Trace) {
    t == []
    || (&& AdmittedInOrder(cfg, Front(t))
        && (Last(t).Admission? && Last(t).accepted && Tickets(cfg, Front(t)) != [] ==>
              Last(Tickets(cfg, Front(t))).admittedAt <= Last(t).now))
  }

  lemma {:induction false} TicketsInOrder(cfg: Config, t: Trace, k: nat)
    requires AdmittedInOrder(cfg, t) && 0 < k < |Tickets(cfg, t)|
    ensures Tickets(cfg, t)[k - 1].admittedAt <= Tickets(cfg, t)[k].admittedAt
  {
    if k < |Tickets(cfg, Front(t))| { TicketsInOrder(cfg, Front(t), k); }
  }

  /** Admission times do not decrease along the slots, from `lo` on and up to `hi`. */
  predicate OldestFirst(slots: seq<Slot>, lo: nat, hi: nat) {
    if slots == [] then true
    else lo <= slots[0].ticket.admittedAt <= hi && OldestFirst(slots[1..], slots[0].ticket.admittedAt, hi)
  }

  lemma {:induction false} OldestFirstMore(slots: seq<Slot>, lo: nat, hi: nat, s: Slot)
    requires OldestFirst(slots, lo, hi) && lo <= hi <= s.ticket.admittedAt
    ensures OldestFirst(slots + [s], lo, s.ticket.admittedAt)
  {
    if slots != [] {
      OldestFirstMore(slots[1..], slots[0].ticket.admittedAt, hi, s);
      assert (slots + [s])[1..] == slots[1..] + [s];
    }
  }

  lemma {:induction false} OldestFirstLater(slots: seq<Slot>, lo: nat, hi: nat, hi': nat)
    requires OldestFirst(slots, lo, hi) && hi <= hi'
    ensures OldestFirst(slots, lo, hi')
  {
    if slots != [] { OldestFirstLater(slots[1..], slots[0].ticket.admittedAt, hi, hi'); }
  }

  lemma {:induction false} UnsettledOldestFirst(cfg: Config, t: Trace, n: nat)
    requires AdmittedInOrder(cfg, t) && n <= |Tickets(cfg, t)|
    ensures OldestFirst(Unsettled(cfg, t, n), 0, if n == 0 then 0 else Tickets(cfg, t)[n - 1].admittedAt)
  {
    if n > 0 {
      UnsettledOldestFirst(cfg, t, n - 1);
      if n > 1 { TicketsInOrder(cfg, t, n - 1); }
      var past, slot := Unsettled(cfg, t, n - 1), Slot(Tickets(cfg, t)[n - 1], AskedToHold(cfg, t, n));
      var hi := if n == 1 then 0 else Tickets(cfg, t)[n - 2].admittedAt;
      OldestFirstMore(past, 0, hi, slot);
      OldestFirstLater(past, 0, hi, slot.ticket.admittedAt);
    }
  }

  /** The largest age, in whole milliseconds, of anything waiting. */
  function OldestAge(slots: seq<Slot>, now: nat): nat {
    if slots == [] then 0
    else Max(Since(now, slots[0].ticket.admittedAt) / NANOS_PER_MS, OldestAge(slots[1..], now))
  }

  lemma {:induction false} OldestAgeBelow(slots: seq<Slot>, lo: nat, hi: nat, now: nat)
    requires OldestFirst(slots, lo, hi)
    ensures OldestAge(slots, now) <= Since(now, lo) / NANOS_PER_MS
  {
    if slots != [] { OldestAgeBelow(slots[1..], slots[0].ticket.admittedAt, hi, now); }
  }

  lemma OldestAgeIsFront(cfg: Config, t: Trace, now: nat)
    requires AdmittedInOrder(cfg, t)
    ensures var w := Waiting(cfg, t);
            OldestAge(w, now) == if w == [] then 0 else Since(now, w[0].ticket.admittedAt) / NANOS_PER_MS
  {
    UnsettledOldestFirst(cfg, t, |Tickets(cfg, t)|);
    var w := Waiting(cfg, t);
    if w != [] {
      OldestAgeBelow(w[1..], w[0].ticket.admittedAt, Last(Tickets(cfg, t)).admittedAt, now);
    }
  }

  /** With admissions in clock order the reported delay is the age of the oldest pending
      segment, cut to 32 bits; the cut shows exactly from 2^32 milliseconds on. */
  lemma DelayIsOldestAge(cfg: Config, t: Trace, now: nat)
    requires AdmittedInOrder(cfg, t)
    ensures var age := OldestAge(Waiting(cfg, t), now);
            && Recompute(After(cfg, t), now).currentDelayMs == AsU32(age)
            && (Recompute(After(cfg, t), now).currentDelayMs == age <==> age < U32_RANGE)
  {
    QueueIsWaiting(cfg, t);
    OldestAgeIsFront(cfg, t, now);
    assert Recompute(After(cfg, t), now).currentDelayMs == AsU32(OldestAge(Waiting(cfg, t), now));
  }

  // ----- The byte count and the two caps -----

  /** The configurations for which the byte count can never overflow. */
  predicate CountsSafely(cfg: Config) {
    cfg.maxBytes < USIZE_MAX || cfg.maxSegments <= 2
  }

  predicate Short(queue: seq<Segment>) {
    queue == [] || (|queue[0].bytes| <= ISIZE_MAX && Short(queue[1..]))
  }

  lemma {:induction false} BytesMore(queue: seq<Segment>, seg: Segment)
    ensures TotalBytes(queue + [seg]) == TotalBytes(queue) + |seg.bytes|
    ensures Short(queue + [seg]) <==> Short(queue) && |seg.bytes| <= ISIZE_MAX
  {
    if queue != [] {
      BytesMore(queue[1..], seg);
      assert (queue + [seg])[1..] == queue[1..] + [seg];
    }
  }

  lemma {:induction false} BytesOfShort(queue: seq<Segment>)
    requires Short(queue)
    ensures TotalBytes(queue) <= |queue| * ISIZE_MAX
  {
    if queue != [] { BytesOfShort(queue[1..]); }
  }

  lemma {:induction false} BytesWithout(queue: seq<Segment>, id: nat)
    requires Find(queue, id).Some?
    ensures TotalBytes(Without(queue, id)) + |Find(queue, id).value.bytes| == TotalBytes(queue)
    ensures |Without(queue, id)| == |queue| - 1
    ensures Short(queue) ==> Short(Without(queue, id))
  {
    if queue[0].id != id { BytesWithout(queue[1..], id); }
  }

  lemma {:induction false} BytesMarked(queue: seq<Segment>, id: nat, now: nat)
    ensures TotalBytes(WithHeld(queue, id)) == TotalBytes(queue) == TotalBytes(MarkOverdue(queue, now))
    ensures |WithHeld(queue, id)| == |queue| == |MarkOverdue(queue, now)|
    ensures Short(queue) ==> Short(WithHeld(queue, id)) && Short(MarkOverdue(queue, now))
  {
    if queue != [] { BytesMarked(queue[1..], id, now); }
  }

  /** The byte count is the sum of what is held, and both caps are kept. */
  ghost predicate Accounted(cfg: Config, s: State) {
    && s.heldBytes == TotalBytes(s.queue) <= cfg.maxBytes
    && |s.queue| <= cfg.maxSegments
    && Short(s.queue)
  }

  lemma AdmitAccounted(cfg: Config, s: State, bytes: Bytes, live: bool, now: nat)
    requires CountsSafely(cfg) && Accounted(cfg, s) && |bytes| <= ISIZE_MAX && !IsFullFor(cfg, s, |bytes|)
    ensures Accounted(cfg, Admit(cfg, s, bytes, live, now))
    ensures s.heldBytes + |bytes| < USIZE_RANGE
  {
    BytesMore(s.queue, Segment(s.nextId, bytes, live, now, Deadline(cfg, live, now), Pending));
    BytesOfShort(s.queue);
  }

  lemma VerdictAccounted(cfg: Config, s: State, e: Event)
    requires Accounted(cfg, s) && e.Verdict?
    ensures Accounted(cfg, Step(cfg, s, e))
  {
    if Find(s.queue, e.id).Some? { BytesWithout(s.queue, e.id); }
    BytesMarked(s.queue, e.id, 0);
  }

  lemma StepAccounted(cfg: Config, s: State, e: Event)
    requires CountsSafely(cfg) && Accounted(cfg, s)
    requires e.Admission? ==> |e.bytes| <= ISIZE_MAX && (e.accepted ==> !IsFullFor(cfg, s, |e.bytes|))
    ensures Accounted(cfg, Step(cfg, s, e))
  {
    if e.Admission? && e.accepted {
      AdmitAccounted(cfg, s, e.bytes, e.live, e.now);
    } else if e.Verdict? {
      VerdictAccounted(cfg, s, e);
    } else {
      BytesMarked(s.queue, if e.Hold? then e.id else 0, if e.Poll? then e.now else 0);
    }
  }

  lemma {:induction false} AlwaysAccounted(cfg: Config, t: Trace)
    requires CountsSafely(cfg) && Legal(cfg, t)
    ensures Accounted(cfg, After(cfg, t))
  {
    if t != [] {
      AlwaysAccounted(cfg, Front(t));
      StepAccounted(cfg, After(cfg, Front(t)), Last(t));
    }
  }

  /** Three of the longest byte strings there can be. */
  function OverflowRun(): Trace {
    var e := Admission(seq(ISIZE_MAX, _ => 0), false, 0, true);
    [e] + [e] + [e]
  }

  lemma OverflowRunOverflows(cfg: Config)
    requires !CountsSafely(cfg)
    ensures Legal(cfg, OverflowRun())
    ensures After(cfg, OverflowRun()).heldBytes != TotalBytes(After(cfg, OverflowRun()).queue)
  {
    var bytes: Bytes := seq(ISIZE_MAX, _ => 0);
    var e := Admission(bytes, false, 0, true);
    Extend(cfg, [], e);
    Extend(cfg, [e], e);
    Extend(cfg, [e] + [e], e);
    assert [] + [e] == [e];
    var s0, s1, s2 := Initial, After(cfg, [e]), After(cfg, [e] + [e]);
    BytesMore(s0.queue, Segment(1, bytes, false, 0, Deadline(cfg, false, 0), Pending));
    BytesMore(s1.queue, Segment(2, bytes, false, 0, Deadline(cfg, false, 0), Pending));
    BytesMore(s2.queue, Segment(3, bytes, false, 0, Deadline(cfg, false, 0), Pending));
    assert Legal(cfg, []) && Legal(cfg, [e]) && Legal(cfg, [e] + [e]);
  }

  /** The count is right in every reachable state exactly for the safe configurations. */
  lemma ByteCountExact(cfg: Config)
    ensures CountsSafely(cfg) <==> forall t :: Legal(cfg, t) ==> Accounted(cfg, After(cfg, t))
  {
    if CountsSafely(cfg) {
      forall t | Legal(cfg, t)
        ensures Accounted(cfg, After(cfg, t))
      {
        AlwaysAccounted(cfg, t);
      }
    } else {
      OverflowRunOverflows(cfg);
      assert !Accounted(cfg, After(cfg, OverflowRun()));
    }
  }
}
